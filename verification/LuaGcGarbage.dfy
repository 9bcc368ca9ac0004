/** The other half of the collector's contract: a whole cycle frees every object that could not
    be reached when the cycle began. */
module LuaGcGarbage {
  import opened LuaGcState
  import opened LuaGcInvariant
  import opened LuaGcSafety

  /** No allocated object outside `us` refers to an object in `us`. */
  ghost predicate NoRefInto(h: Heap, us: set<Ref>) {
    forall q, y | q in h && q !in us && y in h[q].slots && y.To? :: y.ref !in us
  }

  ghost predicate SlotsAvoid(slots: seq<Slot>, us: set<Ref>) {
    forall y | y in slots && y.To? :: y.ref !in us
  }

  ghost predicate AllWhite(h: Heap, us: set<Ref>) {
    forall u | u in us :: IsWhite(h, u)
  }

  ghost predicate Spared(h: Heap, h': Heap, us: set<Ref>) {
    forall u | u in us :: u in h && u in h' && h'[u] == h[u]
  }

  // ---------------------------------------------------------------- marking spares garbage

  lemma {:induction false} ReallyMarkSpares(m: Marks, r: Ref, again: seq<Ref>, ex: set<Ref>, us: set<Ref>)
    requires IsWhite(m.heap, r) && r !in us && NoRefInto(m.heap, us) && AllWhite(m.heap, us)
    requires MarkInv(m.heap, m.gray, again, ex)
    ensures Spared(m.heap, ReallyMark(m, r).heap, us)
    decreases WhiteRefs(m.heap), 0
  {
    var slots := m.heap[r].slots;
    if m.heap[r].kind.Userdata? || m.heap[r].kind.UpVal? {
      var m1 := Marks(Paint(m.heap, r, if m.heap[r].kind.Userdata? then Black else Gray), m.gray);
      assert r in WhiteRefs(m.heap) - WhiteRefs(m1.heap);
      PaintInv(m.heap, m.gray, again, ex, r, m1.heap[r].color);
      MarkAllSpares(m1, slots, again, ex + {r}, us);
    }
  }

  lemma {:induction false} MarkAllSpares(m: Marks, slots: seq<Slot>, again: seq<Ref>, ex: set<Ref>, us: set<Ref>)
    requires SlotsAvoid(slots, us) && NoRefInto(m.heap, us) && AllWhite(m.heap, us)
    requires MarkInv(m.heap, m.gray, again, ex) && forall x | x in slots && x.To? :: x.ref in m.heap
    ensures Spared(m.heap, MarkAll(m, slots).heap, us)
    decreases WhiteRefs(m.heap), |slots| + 1
  {
    if slots != [] {
      var x := slots[0];
      if x.To? && IsWhite(m.heap, x.ref) {
        ReallyMarkSpares(m, x.ref, again, ex, us);
        ReallyMarkInv(m, x.ref, again, ex);
      }
      var m1 := MarkSlot(m, x);
      assert Darker(m.heap, m1.heap) && Spared(m.heap, m1.heap, us);
      assert slots == [x] + slots[1..];
      MarkAllSpares(m1, slots[1..], again, ex, us);
    }
  }

  lemma MarkRefsSpares(s: State, slots: seq<Slot>, us: set<Ref>)
    requires Marking(s) && SlotsKnown(s, slots) && SlotsAvoid(slots, us)
    requires NoRefInto(s.heap, us) && AllWhite(s.heap, us)
    ensures Spared(s.heap, MarkRefs(s, slots).heap, us)
  {
    MarkAllSpares(Marks(s.heap, s.gray), slots, s.grayagain, {}, us);
  }

  lemma PropagateMarkSpares(s: State, us: set<Ref>)
    requires Marking(s) && s.gray != [] && NoRefInto(s.heap, us) && AllWhite(s.heap, us)
    ensures Spared(s.heap, PropagateMark(s).heap, us)
  {
    var r := s.gray[0];
    var slots := s.heap[r].slots;
    assert SlotsAvoid(slots, us);
    if s.heap[r].kind.Thread? {
      PropagateThreadStart(s);
      MarkAllSpares(Marks(s.heap, s.gray[1..]), slots, [r] + s.grayagain, {}, us);
    } else {
      PropagateOtherStart(s);
      MarkAllSpares(Marks(Paint(s.heap, r, Black), s.gray[1..]), slots, s.grayagain, {r}, us);
    }
  }

  lemma {:induction false} PropagateAllSpares(s: State, us: set<Ref>)
    requires Marking(s) && NoRefInto(s.heap, us) && AllWhite(s.heap, us)
    ensures Spared(s.heap, PropagateAll(s).heap, us)
    decreases WhiteRefs(s.heap), |s.gray|
  {
    if s.gray != [] {
      PropagateMarkShrinks(s);
      PropagateMarkInv(s);
      PropagateMarkSpares(s, us);
      PropagateAllSpares(PropagateMark(s), us);
    }
  }

  // ---------------------------------------------------------------- doomed objects

  ghost predicate RootsAvoid(s: State, us: set<Ref>) {
    SlotsAvoid([To(s.main), To(s.running), s.registry] + s.mt, us)
  }

  /** White while marking lasts, of the other white once it is over. */
  function DoomedColor(s: State): Color {
    White(if s.phase.SweepString? || s.phase.Sweep? then !s.current else s.current)
  }

  /** Nothing leads to the objects in `us`, and no step has marked them; the sweep leaves none. */
  ghost predicate Unmarked(s: State, us: set<Ref>) {
    && (s.phase.Finalize? ==> us == {})
    && RootsAvoid(s, us)
    && NoRefInto(s.heap, us)
    && forall u | u in us :: u in s.heap && !s.heap[u].fixed && s.heap[u].color == DoomedColor(s)
  }

  /** The same of objects that the mutator cannot get hold of either: the string table hands out strings. */
  ghost predicate Doomed(s: State, us: set<Ref>) {
    Unmarked(s, us) && forall u | u in us :: u in s.heap && !s.heap[u].kind.String?
  }

  lemma RootAvoids(s: State, us: set<Ref>, r: Ref)
    requires RootsAvoid(s, us) && IsRoot(s, r)
    ensures r !in us
  {
    var roots := [To(s.main), To(s.running), s.registry] + s.mt;
    assert roots[0] == To(s.main) && roots[1] == To(s.running) && roots[2] == s.registry;
    assert To(r) in roots;
  }

  lemma {:induction false} PathAvoids(s: State, us: set<Ref>, path: seq<Ref>, i: nat)
    requires Unmarked(s, us) && RootPath(s, path) && i < |path|
    ensures path[i] !in us
  {
    if i == 0 {
      RootAvoids(s, us, path[0]);
    } else {
      PathAvoids(s, us, path, i - 1);
      assert To(path[i]).To?;
    }
  }

  lemma ReachableAvoids(s: State, us: set<Ref>, r: Ref)
    requires Unmarked(s, us) && Reachable(s, r)
    ensures r !in us
  {
    var path :| RootPath(s, path) && path[|path| - 1] == r;
    PathAvoids(s, us, path, |path| - 1);
  }

  /** A state reached by marking only. */
  lemma MarkedUnmarked(s: State, s': State, us: set<Ref>)
    requires Unmarked(s, us) && Darker(s.heap, s'.heap) && Spared(s.heap, s'.heap, us)
    requires s'.main == s.main && s'.running == s.running && s'.registry == s.registry && s'.mt == s.mt
    requires DoomedColor(s') == DoomedColor(s) && !s'.phase.Finalize?
    ensures Unmarked(s', us) && (Doomed(s, us) ==> Doomed(s', us))
  {
  }

  lemma MarkRootUnmarked(s: State, us: set<Ref>)
    requires Inv(s) && s.phase.Pause? && Unmarked(s, us)
    ensures Unmarked(MarkRoot(s), us)
  {
    ClosedKnown(s);
    var s0 := s.(gray := [], grayagain := []);
    assert Marking(s0);
    MarkRefsSpares(s0, [To(s.main)], us) by { RootAvoids(s, us, s.main); }
    MarkRefsInv(s0, [To(s.main)]);
    var s1 := MarkRefs(s0, [To(s.main)]);
    var roots := [Globals(s1.heap, s.main), s.registry] + s.mt;
    assert SlotsAvoid(roots, us) by {
      forall y | y in roots && y.To? ensures y.ref !in us {
        if y in s.mt || y == s.registry { RootAvoids(s, us, y.ref); }
        RootAvoids(s, us, s.main);
      }
    }
    MarkRefsSpares(s1, roots, us);
    MarkRefsInv(s1, roots);
    DarkerTransitive(s.heap, s1.heap, MarkRefs(s1, roots).heap);
    MarkedUnmarked(s, MarkRoot(s), us);
  }

  lemma SparedTransitive(a: Heap, b: Heap, c: Heap, us: set<Ref>)
    requires Spared(a, b, us) && Spared(b, c, us)
    ensures Spared(a, c, us)
  {
  }

  /** Marking leaves the conditions for sparing `us` intact. */
  lemma SparedAgain(h: Heap, h': Heap, us: set<Ref>)
    requires Darker(h, h') && Spared(h, h', us) && NoRefInto(h, us) && AllWhite(h, us)
    ensures NoRefInto(h', us) && AllWhite(h', us)
  {
  }

  lemma AtomicSpares(s: State, us: set<Ref>)
    requires Marking(s) && NoRefInto(s.heap, us) && AllWhite(s.heap, us)
    requires SlotsKnown(s, [To(s.running)] + s.mt) && SlotsAvoid([To(s.running)] + s.mt, us)
    ensures Spared(s.heap, AtomicMark(s).heap, us)
  {
    var roots := [To(s.running)] + s.mt;
    var s1 := PropagateAll(s);
    PropagateAllInv(s);
    PropagateAllSpares(s, us);
    SparedAgain(s.heap, s1.heap, us);
    var s2 := MarkRefs(s1, roots);
    MarkRefsInv(s1, roots);
    MarkRefsSpares(s1, roots, us);
    SparedAgain(s1.heap, s2.heap, us);
    var s3 := PropagateAll(s2);
    PropagateAllInv(s2);
    PropagateAllSpares(s2, us);
    SparedAgain(s2.heap, s3.heap, us);
    var s4 := s3.(gray := s3.grayagain, grayagain := []);
    SwapLists(s3.heap, s3.grayagain);
    PropagateAllSpares(s4, us);
    SparedTransitive(s.heap, s1.heap, s2.heap, us);
    SparedTransitive(s.heap, s2.heap, s3.heap, us);
    SparedTransitive(s.heap, s3.heap, AtomicMark(s).heap, us);
  }

  lemma AtomicUnmarked(s: State, us: set<Ref>)
    requires Inv(s) && s.phase.Propagate? && Unmarked(s, us)
    ensures Unmarked(Atomic(s), us)
  {
    ClosedKnown(s);
    var roots := [To(s.running)] + s.mt;
    assert SlotsAvoid(roots, us) by {
      forall y | y in roots && y.To? ensures y.ref !in us { RootAvoids(s, us, y.ref); }
    }
    AtomicSpares(s, us);
    AtomicMarkInv(s);
    MarkedUnmarked(s, Atomic(s), us);
  }

  lemma SweepUnmarked(s: State, s': State, us: set<Ref>)
    requires Inv(s) && Unmarked(s, us) && (s.phase.SweepString? || s.phase.Sweep?) && s' == SingleStep(s)
    ensures Unmarked(s', us * s'.heap.Keys)
  {
    if s.phase.SweepString? { SweepBucketInv(s); } else { SweepSomeInv(s); }
    assert SweptHeap(s.heap, s'.heap, s.current);
    if s'.phase.Finalize? {
      // the sweep whitens no dead object, yet everything it left is white now
      forall u | u in us && u in s'.heap ensures s'.heap[u].color == White(!s'.current) {
        assert DeadObj(s.heap[u], s.current);
      }
      assert forall r | r in s'.heap :: CurrentWhite(s'.heap, r, s'.current);
    }
  }

  lemma CollectUnmarked(s: State, us: set<Ref>)
    requires Inv(s) && Unmarked(s, us)
    ensures var s' := SingleStep(s); Unmarked(s', us * s'.heap.Keys)
  {
    var s' := SingleStep(s);
    if s.phase.SweepString? || s.phase.Sweep? {
      SweepUnmarked(s, s', us);
    } else {
      assert us * s'.heap.Keys == us by { SingleStepInv(s); }
      match s.phase
      case Pause => MarkRootUnmarked(s, us);
      case Propagate =>
        if s.gray != [] {
          PropagateMarkSpares(s, us);
          PropagateStepInv(s);
          assert s'.phase == s.phase;
          MarkedUnmarked(s, s', us);
        } else {
          AtomicUnmarked(s, us);
        }
      case Finalize =>
    }
  }

  /** A collector step changes no kind. */
  lemma CollectKinds(s: State)
    requires Inv(s)
    ensures forall r | r in s.heap && r in SingleStep(s).heap :: SingleStep(s).heap[r].kind == s.heap[r].kind
  {
    match s.phase
    case Pause => MarkRootInv(s);
    case Propagate => if s.gray != [] { PropagateStepInv(s); } else { AtomicInv(s); }
    case SweepString => SweepBucketInv(s);
    case Sweep => SweepSomeInv(s);
    case Finalize =>
  }

  lemma CollectDoomed(s: State, us: set<Ref>)
    requires Inv(s) && Doomed(s, us)
    ensures var s' := SingleStep(s); Doomed(s', us * s'.heap.Keys)
  {
    CollectUnmarked(s, us);
    CollectKinds(s);
  }

  lemma SetSlotDoomed(s: State, us: set<Ref>, o: Ref, i: nat, x: Slot)
    requires Doomed(s, us) && o in s.heap && i < |s.heap[o].slots| && (x.To? ==> x.ref !in us)
    requires o !in us
    ensures Doomed(s.(heap := SetSlot(s.heap, o, i, x)), us)
  {
    var h1 := SetSlot(s.heap, o, i, x);
    forall q, y | q in h1 && q !in us && y in h1[q].slots && y.To? ensures y.ref !in us {
      if q == o { assert y == x || y in s.heap[o].slots; }
    }
  }

  lemma RepaintDoomed(s: State, us: set<Ref>, o: Ref, c: Color, again: seq<Ref>)
    requires Doomed(s, us) && o in s.heap && o !in us
    ensures Doomed(s.(heap := Paint(s.heap, o, c), grayagain := again), us)
  {
  }

  /** Storing a value from outside `us` into an object outside `us`, barrier included. */
  lemma WriteDoomed(s: State, us: set<Ref>, o: Ref, i: nat, x: Slot)
    requires Inv(s) && Doomed(s, us) && o in s.heap && i < |s.heap[o].slots|
    requires LiveSlot(s.heap, s.current, x) && o !in us && (x.To? ==> x.ref !in us)
    ensures Doomed(Write(s, o, i, x), us)
  {
    var s1 := s.(heap := SetSlot(s.heap, o, i, x));
    SetSlotDoomed(s, us, o, i, x);
    if s1.heap[o].kind.Thread? || !(x.To? && IsWhite(s1.heap, x.ref)) || !s1.heap[o].color.Black? {
    } else if s1.heap[o].kind.Table? {
      RepaintDoomed(s1, us, o, Gray, [o] + s.grayagain);
    } else if s.phase.Propagate? {
      SetSlotMarking(s, o, i, x);
      var m := Marks(s1.heap, s1.gray);
      ReallyMarkInv(m, x.ref, s.grayagain, {o});
      ReallyMarkSpares(m, x.ref, s.grayagain, {o}, us);
      MarkedUnmarked(s1, BarrierForward(s1, o, x.ref), us);
    } else {
      RepaintDoomed(s1, us, o, White(s.current), s.grayagain);
    }
  }

  lemma NewDoomed(s: State, us: set<Ref>, kind: Kind, r: Ref, n: nat, b: nat)
    requires Doomed(s, us) && r !in s.heap
    ensures Doomed(New(s, kind, r, n, b), us)
  {
    var s1 := s.(heap := s.heap[r := Obj(kind, White(s.current), false, seq(n, _ => Plain))]);
    assert forall y | y in s1.heap[r].slots :: y == Plain;
    assert NoRefInto(s1.heap, us);
    assert Doomed(s1, us);
    var s2 := New(s, kind, r, n, b);
    assert s2.heap == s1.heap && s2.phase == s1.phase && s2.mt == s1.mt;
  }

  lemma AllocateDoomed(s: State, us: set<Ref>, kind: Kind, r: Ref, n: nat, b: nat, dest: nat)
    requires Inv(s) && Doomed(s, us) && Enabled(s, Allocate(kind, r, n, b, dest))
    ensures Doomed(Apply(s, Allocate(kind, r, n, b, dest)), us)
  {
    RootAvoids(s, us, s.running);
    NewDoomed(s, us, kind, r, n, b);
    NewInv(s, kind, r, n, b);
    WriteDoomed(New(s, kind, r, n, b), us, s.running, dest, To(r));
  }

  lemma StoreDoomed(s: State, us: set<Ref>, o: Ref, i: nat, x: Slot)
    requires Inv(s) && Doomed(s, us) && Enabled(s, Store(o, i, x))
    ensures Doomed(Write(s, o, i, x), us)
  {
    ReachableAvoids(s, us, o);
    if x.To? {
      ReachableAvoids(s, us, x.ref);
      ReachableLive(s, x.ref);
    }
    WriteDoomed(s, us, o, i, x);
  }

  lemma InternDoomed(s: State, us: set<Ref>, r: Ref, dest: nat)
    requires Inv(s) && Doomed(s, us) && Enabled(s, InternString(r, dest))
    ensures Doomed(Apply(s, InternString(r, dest)), us)
  {
    RootAvoids(s, us, s.running);
    InternInv(s, r);
    assert Doomed(Intern(s, r), us) by {
      RepaintDoomed(s, us, r, White(s.current), s.grayagain);
    }
    WriteDoomed(Intern(s, r), us, s.running, dest, To(r));
  }

  lemma ReplaceDoomed(s: State, us: set<Ref>, r: Ref, o': Obj)
    requires Doomed(s, us) && r in s.heap && Shrunk(s.heap[r], o')
    ensures Doomed(s.(heap := s.heap[r := o']), us)
  {
  }

  lemma RegistryDoomed(s: State, us: set<Ref>, x: Slot)
    requires Doomed(s, us) && (x.To? ==> x.ref !in us)
    ensures Doomed(s.(registry := x), us)
  {
    var roots := [To(s.main), To(s.running), s.registry] + s.mt;
    forall y | y in [To(s.main), To(s.running), x] + s.mt && y.To? ensures y.ref !in us {
      if y != x {
        assert To(s.main) == roots[0] && To(s.running) == roots[1];
        assert y in roots;
      }
    }
  }

  lemma ApplyDoomed(s: State, op: Op, us: set<Ref>)
    requires Inv(s) && Enabled(s, op) && Doomed(s, us) && !op.FullGcReset?
    ensures var s' := Apply(s, op); Doomed(s', us * s'.heap.Keys)
  {
    var s' := Apply(s, op);
    if op.Collect? {
      CollectDoomed(s, us);
    } else {
      assert us * s'.heap.Keys == us by { ApplyInv(s, op); }
      match op
      case Allocate(kind, r, n, b, dest) => AllocateDoomed(s, us, kind, r, n, b, dest);
      case Store(o, i, x) => StoreDoomed(s, us, o, i, x);
      case SetMetatable(tag, x) =>
        if x.To? { ReachableAvoids(s, us, x.ref); }
        assert forall y | y in s'.mt :: y == x || y in s.mt;
      case SetRegistry(x) =>
        if x.To? { ReachableAvoids(s, us, x.ref); }
        RegistryDoomed(s, us, x);
      case Resume(th) => ReachableAvoids(s, us, th);
      case InternString(r, dest) => InternDoomed(s, us, r, dest);
      case FixString(r) => ReplaceDoomed(s, us, r, s.heap[r].(fixed := true));
      case ResizeObject(o, n) =>
        ResizeShrinks(s.heap, o, n);
        ReplaceDoomed(s, us, o, Resize(s.heap, o, n)[o]);
      case ResizeStrings(to) =>
    }
  }

  /** Not a string, which the string table could still hand out again, and not fixed. */
  ghost predicate Garbage(s: State, r: Ref) {
    r in s.heap && !s.heap[r].kind.String? && !s.heap[r].fixed && !Reachable(s, r)
  }

  /** Before a cycle nothing leads to what cannot be reached, whichever objects without a reference are left aside. */
  lemma UnreachableUnmarked(s: State, us: set<Ref>)
    requires Inv(s) && s.phase.Pause?
    requires forall u | u in us :: u in s.heap && !s.heap[u].fixed && !Reachable(s, u)
    requires forall u | u in s.heap && u !in us :: Reachable(s, u) || s.heap[u].fixed || s.heap[u].kind.String?
    ensures Unmarked(s, us)
  {
    forall r | IsRoot(s, r) ensures Reachable(s, r) {
      assert RootPath(s, [r]);
    }
    forall q, y | q in s.heap && q !in us && y in s.heap[q].slots && y.To? ensures y.ref !in us {
      assert Live(s.heap, s.current, q);
      if Reachable(s, q) {
        ReachableStep(s, q, y.ref);
      }
    }
  }

  lemma ReachableStep(s: State, q: Ref, r: Ref)
    requires Reachable(s, q) && q in s.heap && To(r) in s.heap[q].slots
    ensures Reachable(s, r)
  {
    var path :| RootPath(s, path) && path[|path| - 1] == q;
    assert RootPath(s, path + [r]);
  }

  lemma {:induction false} RunDoomed(states: seq<State>, ops: seq<Op>, us: set<Ref>, i: nat) returns (rest: set<Ref>)
    requires Run(states, ops) && Inv(states[0]) && i < |states| && Doomed(states[0], us)
    requires forall op | op in ops :: !op.FullGcReset?
    ensures Doomed(states[i], rest)
    ensures forall u | u in us && (forall j | 0 <= j <= i :: u in states[j].heap) :: u in rest
  {
    if i == 0 {
      rest := us;
    } else {
      var before := RunDoomed(states, ops, us, i - 1);
      RunInv(states, ops, i - 1);
      ApplyDoomed(states[i - 1], ops[i - 1], before);
      rest := before * states[i].heap.Keys;
    }
  }

  lemma CycleFreesDoomed(states: seq<State>, ops: seq<Op>, us: set<Ref>, r: Ref)
    requires Run(states, ops) && Inv(states[0]) && Doomed(states[0], us) && r in us
    requires forall op | op in ops :: !op.FullGcReset?
    requires states[|ops|].phase.Finalize?
    requires states[0].phase.Pause?
    ensures exists i :: 0 <= i < |states| && r !in states[i].heap
  {
    if forall i | 0 <= i < |states| :: r in states[i].heap {
      var rest := RunDoomed(states, ops, us, |ops|);
    }
  }

  /** A cycle frees the garbage it began with: whatever the mutator does meanwhile, every object but
      strings and fixed ones that could not be reached in GCSpause has been freed by the time the
      sweep is over. */
  lemma CycleFreesGarbage(states: seq<State>, ops: seq<Op>, r: Ref)
    requires Run(states, ops) && Inv(states[0]) && states[0].phase.Pause?
    requires forall op | op in ops :: !op.FullGcReset?
    requires states[|ops|].phase.Finalize? && Garbage(states[0], r)
    ensures exists i :: 0 <= i < |states| && r !in states[i].heap
  {
    var us := set u | u in states[0].heap && Garbage(states[0], u);
    UnreachableUnmarked(states[0], us);
    CycleFreesDoomed(states, ops, us, r);
  }
}
