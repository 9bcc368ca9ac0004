/** Safety over whole runs: no reachable object is ever freed, however collector steps and
    mutator operations interleave. */
module LuaGcSafety {
  import opened LuaGcState
  import opened LuaGcInvariant

  // ---------------------------------------------------------------- the invariant

  ghost predicate Typed(s: State) {
    && (forall r | r in s.heap && s.heap[r].kind.String? :: s.heap[r].slots == [])
    && (forall r | r in s.heap && s.heap[r].fixed :: s.heap[r].kind.String? || r == s.main)
    && s.main in s.heap && s.heap[s.main].kind.Thread? && s.heap[s.main].fixed
    && s.running in s.heap && s.heap[s.running].kind.Thread?
  }

  /** The root list links every object but the strings, once. */
  ghost predicate RootList(h: Heap, rootgc: seq<Ref>) {
    && NoDup(rootgc)
    && (forall r | r in rootgc :: r in h && !h[r].kind.String?)
    && (forall r | r in h && !h[r].kind.String? :: r in rootgc)
  }

  /** The string table links every string, in one bucket and once. */
  ghost predicate StringTable(h: Heap, strt: seq<seq<Ref>>) {
    && |strt| > 0
    && (forall b | 0 <= b < |strt| :: NoDup(strt[b]))
    && (forall r, b | InBucket(strt, r, b) :: r in h && h[r].kind.String?)
    && (forall r, b, c | InBucket(strt, r, b) && InBucket(strt, r, c) :: b == c)
    && (forall r | r in h && h[r].kind.String? :: exists b :: InBucket(strt, r, b))
  }

  predicate Live(h: Heap, current: bool, r: Ref) {
    r in h && !DeadObj(h[r], current)
  }

  predicate LiveSlot(h: Heap, current: bool, x: Slot) {
    x.To? ==> Live(h, current, x.ref)
  }

  /** Live objects refer to live objects only. */
  ghost predicate Closed(h: Heap, current: bool) {
    forall r, x | Live(h, current, r) && x in h[r].slots :: LiveSlot(h, current, x)
  }

  ghost predicate RootsLive(s: State) {
    && Live(s.heap, s.current, s.main) && Live(s.heap, s.current, s.running)
    && LiveSlot(s.heap, s.current, s.registry)
    && (forall x | x in s.mt :: LiveSlot(s.heap, s.current, x))
  }

  predicate CurrentWhite(h: Heap, r: Ref, current: bool) {
    r in h && h[r].color == White(current)
  }

  ghost predicate PhaseInv(s: State) {
    match s.phase
    case Pause => forall r | r in s.heap :: CurrentWhite(s.heap, r, s.current)
    case Propagate =>
      && Marking(s)
      && (forall r | r in s.heap :: s.heap[r].color != White(!s.current))
      && Clean(s.heap, [To(s.main), s.registry])
    case SweepString =>
      && s.sweepgc == 0 && s.sweepstrgc < |s.strt|
      && (forall r, b: nat | InBucket(s.strt, r, b) && b < s.sweepstrgc :: CurrentWhite(s.heap, r, s.current))
    case Sweep =>
      && s.sweepgc <= |s.rootgc|
      && (forall r | r in s.heap && s.heap[r].kind.String? :: CurrentWhite(s.heap, r, s.current))
      && (forall i | 0 <= i < s.sweepgc :: CurrentWhite(s.heap, s.rootgc[i], s.current))
    case Finalize => forall r | r in s.heap :: CurrentWhite(s.heap, r, s.current)
  }

  ghost predicate Inv(s: State) {
    && Typed(s)
    && RootList(s.heap, s.rootgc) && StringTable(s.heap, s.strt)
    && RootsLive(s) && Closed(s.heap, s.current)
    && PhaseInv(s)
  }

  /** lua_newstate: the main thread is the only object. */
  function InitialState(main: Ref, stack: nat, buckets: nat, tags: nat): State {
    State(
      map[main := Obj(Thread, White(false), true, seq(stack, _ => Plain))],
      main, main, Plain, seq(tags, _ => Plain),
      Pause, false, [], [], seq(buckets, _ => []), 0, [main], 0)
  }

  lemma InitialInv(main: Ref, stack: nat, buckets: nat, tags: nat)
    requires buckets > 0
    ensures Inv(InitialState(main, stack, buckets, tags))
  {
  }

  // ---------------------------------------------------------------- collector steps

  /** Colours, and the part of the state that colouring touches, may differ. */
  ghost predicate SameShape(h: Heap, h': Heap) {
    && h.Keys == h'.Keys
    && forall r | r in h :: h'[r] == h[r].(color := h'[r].color)
  }

  lemma ShapeKeepsStructure(s: State, s': State)
    requires Typed(s) && RootList(s.heap, s.rootgc) && StringTable(s.heap, s.strt) && SameShape(s.heap, s'.heap)
    requires s'.main == s.main && s'.running == s.running && s'.rootgc == s.rootgc && s'.strt == s.strt
    ensures Typed(s') && RootList(s'.heap, s'.rootgc) && StringTable(s'.heap, s'.strt)
  {
  }

  ghost predicate NoOtherWhite(h: Heap, current: bool) {
    forall r | r in h :: h[r].color != White(!current)
  }

  ghost predicate RootsKnown(s: State) {
    SlotsKnown(s, [To(s.main), To(s.running), s.registry] + s.mt)
  }

  /** While nothing carries the other white, everything allocated is live. */
  lemma NoOtherWhiteClosed(s: State)
    requires SlotsAllocated(s.heap) && NoOtherWhite(s.heap, s.current) && RootsKnown(s)
    ensures Closed(s.heap, s.current) && RootsLive(s)
  {
    var roots := [To(s.main), To(s.running), s.registry] + s.mt;
    assert forall x | x in s.mt :: x in roots;
    assert To(s.main) == roots[0] && To(s.running) == roots[1] && s.registry == roots[2];
  }

  lemma ClosedKnown(s: State)
    requires Closed(s.heap, s.current) && RootsLive(s) && NoOtherWhite(s.heap, s.current)
    ensures SlotsAllocated(s.heap) && RootsKnown(s)
  {
    forall r, x | r in s.heap && x in s.heap[r].slots && x.To? ensures x.ref in s.heap {
      assert Live(s.heap, s.current, r) && LiveSlot(s.heap, s.current, x);
    }
  }

  /** Marking steps keep everything but the colours. */
  lemma MarkedInv(s: State, s': State)
    requires Inv(s) && (s.phase.Pause? || s.phase.Propagate?)
    requires OnlyMarked(s, s') && s'.phase.Propagate? && Marking(s')
    requires Clean(s'.heap, [To(s.main), s.registry])
    ensures Inv(s')
  {
    ShapeKeepsStructure(s, s');
    ClosedKnown(s);
    NoOtherWhiteClosed(s');
  }

  lemma MarkRootInv(s: State)
    requires Inv(s) && s.phase.Pause?
    ensures Inv(MarkRoot(s)) && OnlyMarked(s, MarkRoot(s))
  {
    ClosedKnown(s);
    var s0 := s.(gray := [], grayagain := []);
    assert Marking(s0);
    MarkRefsInv(s0, [To(s.main)]);
    var s1 := MarkRefs(s0, [To(s.main)]);
    var roots := [Globals(s1.heap, s.main), s.registry] + s.mt;
    assert SlotsKnown(s1, roots);
    MarkRefsInv(s1, roots);
    var s2 := MarkRefs(s1, roots);
    DarkerTransitive(s.heap, s1.heap, s2.heap);
    assert Clean(s2.heap, [To(s.main), s.registry]) by {
      DarkerKeepsClean(s1.heap, s2.heap, [To(s.main)]);
    }
    MarkedInv(s, MarkRoot(s));
  }

  lemma PropagateStepInv(s: State)
    requires Inv(s) && s.phase.Propagate? && s.gray != []
    ensures Inv(PropagateMark(s)) && OnlyMarked(s, PropagateMark(s))
  {
    PropagateMarkInv(s);
    DarkerKeepsClean(s.heap, PropagateMark(s).heap, [To(s.main), s.registry]);
    MarkedInv(s, PropagateMark(s));
  }

  /** After atomic no live object refers to an object of the other white. */
  lemma AtomicClosed(s: State)
    requires Inv(s) && s.phase.Propagate?
    ensures Closed(Atomic(s).heap, Atomic(s).current) && RootsLive(Atomic(s)) && OnlyMarked(s, AtomicMark(s))
  {
    ClosedKnown(s);
    AtomicMarkInv(s);
    var h, current := AtomicMark(s).heap, !s.current;
    DarkerKeepsClean(s.heap, h, [To(s.main), s.registry]);
    assert NonWhite(h, To(s.main)) && NonWhite(h, s.registry) && NonWhite(h, To(s.running));
    assert forall r | r in h :: h[r].color != White(current);
    forall r, x | Live(h, current, r) && x in h[r].slots ensures LiveSlot(h, current, x) {
      assert NonWhite(h, x);
    }
    forall x | x in s.mt ensures LiveSlot(h, current, x) {
      assert x in [To(s.running)] + s.mt;
      assert NonWhite(h, x);
    }
  }

  lemma AtomicInv(s: State)
    requires Inv(s) && s.phase.Propagate?
    ensures Inv(Atomic(s)) && OnlyMarked(s, AtomicMark(s))
  {
    AtomicClosed(s);
    ShapeKeepsStructure(s, Atomic(s));
  }

  /** What a sweep may do to the heap. */
  ghost predicate SweptHeap(h: Heap, h': Heap, current: bool) {
    && (forall r | r in h' ::
         && r in h
         && h'[r] == h[r].(color := h'[r].color)
         && (h'[r].color == h[r].color || (h'[r].color == White(current) && !DeadObj(h[r], current))))
    && (forall r | r in h && r !in h' :: DeadObj(h[r], current))
  }

  lemma SweptTransitive(a: Heap, b: Heap, c: Heap, current: bool)
    requires SweptHeap(a, b, current) && SweptHeap(b, c, current)
    ensures SweptHeap(a, c, current)
  {
  }

  ghost predicate SweptPrefix(h: Heap, list: seq<Ref>, pos: nat, current: bool) {
    && NoDup(list) && pos <= |list|
    && (forall r | r in list :: r in h)
    && (forall i | 0 <= i < pos :: CurrentWhite(h, list[i], current))
  }

  /** From `h` and `list` the sweep arrived at `h'` and `list'`: it erased dead members of the
      list, whitened other members and left everything else alone. */
  ghost predicate SweptTo(h: Heap, list: seq<Ref>, h': Heap, list': seq<Ref>, current: bool) {
    && SweptHeap(h, h', current)
    && (forall r | r in h && r !in list :: r in h' && h'[r] == h[r])
    && (forall r :: r in list' <==> r in list && r in h')
  }

  lemma SweptToTransitive(a: Heap, la: seq<Ref>, b: Heap, lb: seq<Ref>, c: Heap, lc: seq<Ref>, current: bool)
    requires SweptTo(a, la, b, lb, current) && SweptTo(b, lb, c, lc, current)
    ensures SweptTo(a, la, c, lc, current)
  {
    SweptTransitive(a, b, c, current);
  }

  /** Unlinking the dead object the sweep has reached. */
  lemma EraseOne(h: Heap, list: seq<Ref>, pos: nat, current: bool, h': Heap, list': seq<Ref>)
    requires SweptPrefix(h, list, pos, current) && pos < |list| && DeadObj(h[list[pos]], current)
    requires h' == h - {list[pos]} && list' == list[..pos] + list[pos + 1..]
    ensures SweptTo(h, list, h', list', current) && SweptPrefix(h', list', pos, current)
  {
    assert forall i | 0 <= i < |list'| :: list'[i] == list[if i < pos then i else i + 1];
    forall q | q in list && q != list[pos] ensures q in list' {
      var i :| 0 <= i < |list| && list[i] == q;
      assert list'[if i < pos then i else i - 1] == q;
    }
  }

  lemma WhitenOne(h: Heap, list: seq<Ref>, pos: nat, current: bool)
    requires SweptPrefix(h, list, pos, current) && pos < |list| && !DeadObj(h[list[pos]], current)
    ensures var h' := Paint(h, list[pos], White(current));
      SweptTo(h, list, h', list, current) && SweptPrefix(h', list, pos + 1, current)
  {
  }

  ghost predicate SweepOutcome(h: Heap, list: seq<Ref>, pos: nat, count: nat, current: bool, w: Swept) {
    && SweptTo(h, list, w.heap, w.list, current)
    && SweptPrefix(w.heap, w.list, w.pos, current)
    && (count >= |list| - pos ==> w.pos == |w.list|)
  }

  lemma SweepOneMore(h: Heap, list: seq<Ref>, pos: nat, count: nat, h1: Heap, list1: seq<Ref>, pos1: nat,
                     current: bool, w: Swept)
    requires SweptTo(h, list, h1, list1, current) && count > 0 && |list1| - pos1 == |list| - pos - 1
    requires SweepOutcome(h1, list1, pos1, count - 1, current, w)
    ensures SweepOutcome(h, list, pos, count, current, w)
  {
    SweptToTransitive(h, list, h1, list1, w.heap, w.list, current);
  }

  /** sweeplist erases the dead objects it passes, whitens the others and touches nothing else. */
  lemma {:induction false} SweepListInv(h: Heap, list: seq<Ref>, pos: nat, count: nat, current: bool)
    requires SweptPrefix(h, list, pos, current)
    ensures SweepOutcome(h, list, pos, count, current, SweepList(h, list, pos, count, current))
    decreases count, 1
  {
    if pos >= |list| || count == 0 {
      assert SweepList(h, list, pos, count, current) == Swept(h, list, pos);
    } else if DeadObj(h[list[pos]], current) {
      var h1, list1, w := EraseStep(h, list, pos, count, current);
      SweepDeadInv(h, list, pos, count, current, h1, list1, w);
    } else {
      WhitenOne(h, list, pos, current);
      var h1 := Paint(h, list[pos], White(current));
      SweepListInv(h1, list, pos + 1, count - 1, current);
      SweepOneMore(h, list, pos, count, h1, list, pos + 1, current, SweepList(h, list, pos, count, current));
    }
  }

  /** The sweep goes on without the dead object. */
  lemma EraseStep(h: Heap, list: seq<Ref>, pos: nat, count: nat, current: bool) returns (h1: Heap, list1: seq<Ref>,
                  w: Swept)
    requires SweptPrefix(h, list, pos, current) && pos < |list| && count > 0 && DeadObj(h[list[pos]], current)
    ensures SweptTo(h, list, h1, list1, current) && SweptPrefix(h1, list1, pos, current) && |list1| == |list| - 1
    ensures w == SweepList(h, list, pos, count, current) == SweepList(h1, list1, pos, count - 1, current)
  {
    h1, list1 := h - {list[pos]}, list[..pos] + list[pos + 1..];
    w := SweepList(h, list, pos, count, current);
    EraseOne(h, list, pos, current, h1, list1);
  }

  lemma {:induction false} SweepDeadInv(h: Heap, list: seq<Ref>, pos: nat, count: nat, current: bool,
                                        h1: Heap, list1: seq<Ref>, w: Swept)
    requires count > 0 && SweptTo(h, list, h1, list1, current) && SweptPrefix(h1, list1, pos, current)
    requires |list1| == |list| - 1 && w == SweepList(h1, list1, pos, count - 1, current)
    ensures SweepOutcome(h, list, pos, count, current, w)
    decreases count, 0
  {
    SweepListInv(h1, list1, pos, count - 1, current);
    SweepOneMore(h, list, pos, count, h1, list1, pos, current, w);
  }

  // ---------------------------------------------------------------- sweep steps

  lemma SweptKeepsClosed(h: Heap, h': Heap, current: bool)
    requires Closed(h, current) && SweptHeap(h, h', current)
    ensures Closed(h', current)
    ensures forall r | Live(h, current, r) :: Live(h', current, r)
  {
    forall r, x | Live(h', current, r) && x in h'[r].slots ensures LiveSlot(h', current, x) {
      assert Live(h, current, r) && LiveSlot(h, current, x);
    }
  }

  /** The string table after one bucket is swept. */
  lemma SweptBucketTable(s: State, k: nat, w: Swept, h: Heap, strt: seq<seq<Ref>>)
    requires StringTable(s.heap, s.strt) && k < |s.strt| && SweptTo(s.heap, s.strt[k], w.heap, w.list, s.current)
             && NoDup(w.list)
    requires h == w.heap && strt == s.strt[k := w.list]
    ensures StringTable(h, strt) && forall r, c | InBucket(strt, r, c) :: InBucket(s.strt, r, c)
  {
    assert forall r | r in s.strt[k] :: InBucket(s.strt, r, k);
    forall r, c | InBucket(strt, r, c) ensures InBucket(s.strt, r, c) && r in h && h[r].kind.String? {
      if c != k { assert InBucket(s.strt, r, c) && !InBucket(s.strt, r, k); }
    }
    forall r | r in h && h[r].kind.String? ensures exists c :: InBucket(strt, r, c) {
      var c :| InBucket(s.strt, r, c);
      assert InBucket(strt, r, c);
    }
  }

  lemma SweepBucketInv(s: State)
    requires Inv(s) && s.phase.SweepString?
    ensures Inv(SweepBucket(s)) && SweptHeap(s.heap, SweepBucket(s).heap, s.current)
  {
    var k := s.sweepstrgc;
    var b := s.strt[k];
    assert forall r | r in b :: InBucket(s.strt, r, k);
    SweepListInv(s.heap, b, 0, |b|, s.current);
    var s' := SweepBucket(s);
    SweptKeepsClosed(s.heap, s'.heap, s.current);
    SweptBucketTable(s, k, SweepList(s.heap, b, 0, |b|, s.current), s'.heap, s'.strt);
    assert RootList(s'.heap, s'.rootgc) by {
      forall r | r in s'.rootgc ensures r in s'.heap && !s'.heap[r].kind.String? {
        assert r !in b;
      }
    }
    forall r, c: nat | InBucket(s'.strt, r, c) && c < s'.sweepstrgc ensures CurrentWhite(s'.heap, r, s.current) {
      if c != k { assert CurrentWhite(s.heap, r, s.current) && r !in b; }
    }
  }

  lemma SweepSomeInv(s: State)
    requires Inv(s) && s.phase.Sweep?
    ensures Inv(SweepSome(s)) && SweptHeap(s.heap, SweepSome(s).heap, s.current)
  {
    SweepListInv(s.heap, s.rootgc, s.sweepgc, GCSWEEPMAX, s.current);
    var s' := SweepSome(s);
    SweptKeepsClosed(s.heap, s'.heap, s.current);
    assert forall r, b | InBucket(s.strt, r, b) :: r !in s.rootgc && r in s'.heap;
    if s'.phase.Finalize? {
      forall r | r in s'.heap ensures CurrentWhite(s'.heap, r, s.current) {
        if s'.heap[r].kind.String? {
          var b :| InBucket(s'.strt, r, b);
        } else {
          assert r in s'.rootgc;
        }
      }
    }
  }

  /** Every collector step keeps the invariant, and what it frees is dead. */
  lemma SingleStepInv(s: State)
    requires Inv(s)
    ensures Inv(SingleStep(s))
    ensures forall r | r in s.heap && r !in SingleStep(s).heap :: Dead(s, r) && (s.phase.SweepString? || s.phase.Sweep?)
  {
    match s.phase
    case Pause => MarkRootInv(s);
    case Propagate => if s.gray != [] { PropagateStepInv(s); } else { AtomicInv(s); }
    case SweepString => SweepBucketInv(s);
    case Sweep => SweepSomeInv(s);
    case Finalize =>
  }

  // ---------------------------------------------------------------- mutator operations

  /** Everything the mutator can reach is allocated and live. */
  lemma ReachableLive(s: State, r: Ref)
    requires Inv(s) && Reachable(s, r)
    ensures Live(s.heap, s.current, r)
  {
    var path :| RootPath(s, path) && path[|path| - 1] == r;
    PathLive(s, path, |path| - 1);
  }

  lemma {:induction false} PathLive(s: State, path: seq<Ref>, i: nat)
    requires Inv(s) && RootPath(s, path) && i < |path|
    ensures Live(s.heap, s.current, path[i])
  {
    if i == 0 {
      assert To(s.main).To?;
    } else {
      PathLive(s, path, i - 1);
      assert LiveSlot(s.heap, s.current, To(path[i]));
    }
  }

  /** Storing a live value into a live object, before any barrier. */
  lemma SetSlotStructure(s: State, o: Ref, i: nat, x: Slot)
    requires Inv(s) && o in s.heap && i < |s.heap[o].slots| && LiveSlot(s.heap, s.current, x)
    ensures var s1 := s.(heap := SetSlot(s.heap, o, i, x));
      && Typed(s1) && RootList(s1.heap, s1.rootgc) && StringTable(s1.heap, s1.strt)
      && RootsLive(s1) && Closed(s1.heap, s1.current)
  {
    var s1 := s.(heap := SetSlot(s.heap, o, i, x));
    assert forall r :: Live(s1.heap, s1.current, r) <==> Live(s.heap, s.current, r);
    forall r, y | Live(s1.heap, s1.current, r) && y in s1.heap[r].slots ensures LiveSlot(s1.heap, s1.current, y) {
      if r == o {
        var k :| 0 <= k < |s1.heap[o].slots| && s1.heap[o].slots[k] == y;
        assert y == x || y in s.heap[o].slots;
      }
      assert y == x || LiveSlot(s.heap, s.current, y);
    }
  }

  /** During marking the store may leave `o`, and only `o`, black with a white child. */
  lemma SetSlotMarking(s: State, o: Ref, i: nat, x: Slot)
    requires Inv(s) && s.phase.Propagate?
    requires o in s.heap && i < |s.heap[o].slots| && LiveSlot(s.heap, s.current, x)
    ensures var h1 := SetSlot(s.heap, o, i, x);
      && MarkInv(h1, s.gray, s.grayagain, {o})
      && (!(h1[o].color.Black? && x.To? && IsWhite(h1, x.ref)) ==> MarkInv(h1, s.gray, s.grayagain, {}))
      && NoOtherWhite(h1, s.current)
      && Clean(h1, [To(s.main), s.registry])
      && (h1[o].color.Black? && x.To? && h1[x.ref].color.Black? ==> Clean(h1, h1[o].slots))
  {
    var h1 := SetSlot(s.heap, o, i, x);
    ClosedKnown(s);
    assert forall r | r in s.heap :: h1[r].color == s.heap[r].color && h1[r].kind == s.heap[r].kind;
    assert SameColors(s.heap, h1);
    forall r | r in h1 && r != o && h1[r].color.Black? ensures Clean(h1, h1[r].slots) && !h1[r].kind.Thread? {
      SameColorsClean(s.heap, h1, s.heap[r].slots);
    }
    SameColorsClean(s.heap, h1, [To(s.main), s.registry]);
    forall y | y in h1[o].slots ensures y == x || y in s.heap[o].slots {
      var k :| 0 <= k < |h1[o].slots| && h1[o].slots[k] == y;
    }
    if s.heap[o].color.Black? {
      SameColorsClean(s.heap, h1, s.heap[o].slots);
      if NonWhite(h1, x) { assert Clean(h1, h1[o].slots); }
    }
  }

  ghost predicate SameColors(h: Heap, h': Heap) {
    h.Keys == h'.Keys && forall r | r in h :: h'[r].color == h[r].color
  }

  lemma SameColorsClean(h: Heap, h': Heap, slots: seq<Slot>)
    requires SameColors(h, h') && Clean(h, slots)
    ensures Clean(h', slots)
  {
  }

  /** Turning the black object `t` gray again and listing it. */
  lemma BackMarking(h: Heap, gray: seq<Ref>, again: seq<Ref>, t: Ref)
    requires MarkInv(h, gray, again, {t}) && t in h && h[t].color.Black? && Listed(h[t].kind)
    ensures MarkInv(Paint(h, t, Gray), gray, [t] + again, {})
    ensures SameShape(h, Paint(h, t, Gray))
    ensures forall r | r in h :: Paint(h, t, Gray)[r].color.White? <==> h[r].color.White?
  {
    var h' := Paint(h, t, Gray);
    NoDupParts(gray, again, t);
    assert forall r | r in h :: h'[r] == h[r].(color := h'[r].color) && (h'[r].color.White? <==> h[r].color.White?);
    forall r | r in h' && h'[r].color.Black? ensures Clean(h', h'[r].slots) && !h'[r].kind.Thread? {
      assert Clean(h, h[r].slots);
    }
  }

  /** Marking the new child `v` of the black object `o`. */
  lemma ForwardMarking(h: Heap, gray: seq<Ref>, again: seq<Ref>, o: Ref, v: Ref)
    requires MarkInv(h, gray, again, {o}) && o in h && h[o].color.Black? && !h[o].kind.Thread? && IsWhite(h, v)
    requires forall y | y in h[o].slots && y != To(v) :: NonWhite(h, y)
    ensures var m := ReallyMark(Marks(h, gray), v);
      MarkInv(m.heap, m.gray, again, {}) && Darker(h, m.heap)
  {
    ReallyMarkInv(Marks(h, gray), v, again, {o});
    var m := ReallyMark(Marks(h, gray), v);
    forall y | y in h[o].slots ensures NonWhite(m.heap, y) {
      assert y != To(v) ==> NonWhite(h, y);
    }
  }

  /** Putting the invariant of the propagation phase together. */
  lemma PropagateInv(s: State)
    requires s.phase.Propagate? && Typed(s) && RootList(s.heap, s.rootgc) && StringTable(s.heap, s.strt)
    requires Marking(s) && NoOtherWhite(s.heap, s.current) && RootsKnown(s) && Clean(s.heap, [To(s.main), s.registry])
    ensures Inv(s)
  {
    NoOtherWhiteClosed(s);
  }

  /** A table written to while black goes back to gray. */
  lemma WriteBackInv(s: State, o: Ref, i: nat, x: Slot)
    requires Inv(s) && s.phase.Propagate? && o in s.heap && i < |s.heap[o].slots|
    requires LiveSlot(s.heap, s.current, x)
    requires s.heap[o].kind.Table? && s.heap[o].color.Black? && x.To? && IsWhite(s.heap, x.ref)
    ensures Inv(Write(s, o, i, x)) && Write(s, o, i, x).heap.Keys == s.heap.Keys
  {
    var s1 := s.(heap := SetSlot(s.heap, o, i, x));
    SetSlotStructure(s, o, i, x);
    SetSlotMarking(s, o, i, x);
    ClosedKnown(s1);
    BackMarking(s1.heap, s.gray, s.grayagain, o);
    var s2 := Write(s, o, i, x);
    assert s2 == BarrierBack(s1, o);
    ShapeKeepsStructure(s1, s2);
    assert Clean(s2.heap, [To(s.main), s.registry]) by {
      assert forall y | y in [To(s.main), s.registry] :: NonWhite(s1.heap, y) ==> NonWhite(s2.heap, y);
    }
    PropagateInv(s2);
  }

  lemma BlackStoreClean(s: State, o: Ref, i: nat, x: Slot)
    requires Inv(s) && s.phase.Propagate? && o in s.heap && i < |s.heap[o].slots|
    requires LiveSlot(s.heap, s.current, x) && s.heap[o].color.Black?
    ensures var h1 := SetSlot(s.heap, o, i, x);
      forall y | y in h1[o].slots && y != x :: NonWhite(h1, y)
  {
    var h1 := SetSlot(s.heap, o, i, x);
    forall y | y in h1[o].slots && y != x ensures NonWhite(h1, y) {
      assert y in s.heap[o].slots && NonWhite(s.heap, y);
    }
  }

  /** Anything else written to while black has its new child marked. */
  lemma WriteForwardInv(s: State, o: Ref, i: nat, x: Slot)
    requires Inv(s) && s.phase.Propagate? && o in s.heap && i < |s.heap[o].slots|
    requires LiveSlot(s.heap, s.current, x)
    requires !s.heap[o].kind.Table? && s.heap[o].color.Black? && x.To? && IsWhite(s.heap, x.ref)
    ensures Inv(Write(s, o, i, x)) && Write(s, o, i, x).heap.Keys == s.heap.Keys
  {
    var s1 := s.(heap := SetSlot(s.heap, o, i, x));
    SetSlotStructure(s, o, i, x);
    SetSlotMarking(s, o, i, x);
    ClosedKnown(s1);
    BlackStoreClean(s, o, i, x);
    ForwardMarking(s1.heap, s.gray, s.grayagain, o, x.ref);
    var s2 := Write(s, o, i, x);
    assert s2 == BarrierForward(s1, o, x.ref);
    ShapeKeepsStructure(s1, s2);
    DarkerKeepsClean(s1.heap, s2.heap, [To(s.main), s.registry]);
    PropagateInv(s2);
  }

  /** While sweeping, a black object may be repainted gray or in the current white. */
  lemma RepaintInv(s: State, o: Ref, c: Color, again: seq<Ref>)
    requires Inv(s) && (s.phase.SweepString? || s.phase.Sweep?)
    requires o in s.heap && s.heap[o].color.Black? && !s.heap[o].kind.String? && c != White(!s.current)
    ensures Inv(s.(heap := Paint(s.heap, o, c), grayagain := again))
  {
    var s2 := s.(heap := Paint(s.heap, o, c), grayagain := again);
    ShapeKeepsStructure(s, s2);
    assert forall r :: Live(s2.heap, s2.current, r) <==> Live(s.heap, s.current, r);
    forall r, y | Live(s2.heap, s2.current, r) && y in s2.heap[r].slots ensures LiveSlot(s2.heap, s2.current, y) {
      assert LiveSlot(s.heap, s.current, y);
    }
  }

  lemma SetSlotSweepInv(s: State, o: Ref, i: nat, x: Slot)
    requires Inv(s) && !s.phase.Propagate? && o in s.heap && i < |s.heap[o].slots|
    requires LiveSlot(s.heap, s.current, x)
    ensures Inv(s.(heap := SetSlot(s.heap, o, i, x)))
  {
    SetSlotStructure(s, o, i, x);
    assert SameColors(s.heap, SetSlot(s.heap, o, i, x));
  }

  /** A store that needs no barrier. */
  lemma WritePlainInv(s: State, o: Ref, i: nat, x: Slot)
    requires Inv(s) && o in s.heap && i < |s.heap[o].slots| && LiveSlot(s.heap, s.current, x)
    requires !(s.heap[o].color.Black? && x.To? && IsWhite(s.heap, x.ref))
    ensures Inv(Write(s, o, i, x)) && Write(s, o, i, x).heap.Keys == s.heap.Keys
  {
    assert Write(s, o, i, x) == s.(heap := SetSlot(s.heap, o, i, x));
    if s.phase.Propagate? {
      SetSlotStructure(s, o, i, x);
      SetSlotMarking(s, o, i, x);
    } else {
      SetSlotSweepInv(s, o, i, x);
    }
  }

  /** A barrier outside the propagation phase only repaints the object written to. */
  lemma WriteRepaintInv(s: State, o: Ref, i: nat, x: Slot)
    requires Inv(s) && !s.phase.Propagate? && o in s.heap && i < |s.heap[o].slots| && LiveSlot(s.heap, s.current, x)
    requires s.heap[o].color.Black? && x.To? && IsWhite(s.heap, x.ref)
    ensures Inv(Write(s, o, i, x)) && Write(s, o, i, x).heap.Keys == s.heap.Keys
  {
    assert s.phase.SweepString? || s.phase.Sweep? by {
      assert CurrentWhite(s.heap, o, s.current) || s.phase.SweepString? || s.phase.Sweep?;
    }
    var s1 := s.(heap := SetSlot(s.heap, o, i, x));
    SetSlotSweepInv(s, o, i, x);
    var c, again := RepaintShape(s, o, i, x, s1);
    if s.heap[o].kind.Thread? {
      assert Write(s, o, i, x) == s1;
    } else {
      RepaintInv(s1, o, c, again);
    }
  }

  lemma RepaintShape(s: State, o: Ref, i: nat, x: Slot, s1: State) returns (c: Color, again: seq<Ref>)
    requires !s.phase.Propagate? && o in s.heap && i < |s.heap[o].slots|
    requires s.heap[o].color.Black? && x.To? && x.ref in s.heap && IsWhite(s.heap, x.ref)
    requires s1 == s.(heap := SetSlot(s.heap, o, i, x))
    ensures Write(s, o, i, x) == if s.heap[o].kind.Thread? then s1 else s1.(heap := Paint(s1.heap, o, c),
            grayagain := again)
    ensures c == if s.heap[o].kind.Table? then Gray else White(s.current)
    ensures again == if s.heap[o].kind.Table? then [o] + s.grayagain else s.grayagain
  {
    c := if s.heap[o].kind.Table? then Gray else White(s.current);
    again := if s.heap[o].kind.Table? then [o] + s.grayagain else s.grayagain;
  }

  lemma WriteInv(s: State, o: Ref, i: nat, x: Slot)
    requires Inv(s) && o in s.heap && i < |s.heap[o].slots| && LiveSlot(s.heap, s.current, x)
    ensures Inv(Write(s, o, i, x)) && Write(s, o, i, x).heap.Keys == s.heap.Keys
  {
    if !(s.heap[o].color.Black? && x.To? && IsWhite(s.heap, x.ref)) {
      WritePlainInv(s, o, i, x);
    } else if !s.phase.Propagate? {
      WriteRepaintInv(s, o, i, x);
    } else if s.heap[o].kind.Table? {
      WriteBackInv(s, o, i, x);
    } else {
      WriteForwardInv(s, o, i, x);
    }
  }

  lemma NoDupLink(list: seq<Ref>, r: Ref, at: nat)
    requires NoDup(list) && r !in list && at <= |list|
    ensures NoDup(list[..at] + [r] + list[at..])
    ensures forall q :: q in list[..at] + [r] + list[at..] <==> q == r || q in list
  {
    var out := list[..at] + [r] + list[at..];
    forall j, k | 0 <= j < k < |out| ensures out[j] != out[k] {
      assert j != at ==> out[j] == list[if j < at then j else j - 1];
      assert k != at ==> out[k] == list[if k < at then k else k - 1];
    }
    assert list == list[..at] + list[at..];
  }

  /** A fresh object, not linked anywhere yet, disturbs nothing. */
  lemma FreshObject(s: State, kind: Kind, r: Ref, n: nat)
    requires Inv(s) && r !in s.heap && (kind.String? ==> n == 0)
    ensures var s1 := s.(heap := s.heap[r := Obj(kind, White(s.current), false, seq(n, _ => Plain))]);
      && Typed(s1) && RootsLive(s1) && Closed(s1.heap, s1.current)
      && (s.phase.Propagate? ==>
            Marking(s1) && NoOtherWhite(s1.heap, s1.current) && Clean(s1.heap, [To(s.main), s.registry]))
  {
    var s1 := s.(heap := s.heap[r := Obj(kind, White(s.current), false, seq(n, _ => Plain))]);
    assert forall q | Live(s.heap, s.current, q) :: Live(s1.heap, s1.current, q);
    forall q, y | Live(s1.heap, s1.current, q) && y in s1.heap[q].slots ensures LiveSlot(s1.heap, s1.current, y) {
      if q != r { assert LiveSlot(s.heap, s.current, y); }
    }
    if s.phase.Propagate? {
      forall q | q in s1.heap && s1.heap[q].color.Black? ensures Clean(s1.heap, s1.heap[q].slots)
          && !s1.heap[q].kind.Thread? {
        assert Clean(s.heap, s.heap[q].slots);
      }
    }
  }

  lemma LinkedPhase(s: State, kind: Kind, r: Ref, n: nat, at: nat)
    requires Inv(s) && r !in s.heap && !kind.String? && at <= |s.rootgc|
    ensures PhaseInv(Link(s.(heap := s.heap[r := Obj(kind, White(s.current), false, seq(n, _ => Plain))]), r, at))
  {
    var s2 := Link(s.(heap := s.heap[r := Obj(kind, White(s.current), false, seq(n, _ => Plain))]), r, at);
    match s.phase
    case Propagate => FreshObject(s, kind, r, n);
    case Sweep =>
      forall i | 0 <= i < s2.sweepgc ensures CurrentWhite(s2.heap, s2.rootgc[i], s2.current) {
        if i != at {
          assert CurrentWhite(s.heap, s.rootgc[if i < at then i else i - 1], s.current);
          assert s2.rootgc[i] == s.rootgc[if i < at then i else i - 1];
        }
      }
    case _ =>
  }

  lemma NewLinkedInv(s: State, kind: Kind, r: Ref, n: nat, at: nat)
    requires Inv(s) && r !in s.heap && !kind.String? && at <= |s.rootgc|
    ensures Inv(Link(s.(heap := s.heap[r := Obj(kind, White(s.current), false, seq(n, _ => Plain))]), r, at))
  {
    FreshObject(s, kind, r, n);
    NoDupLink(s.rootgc, r, at);
    LinkedPhase(s, kind, r, n, at);
  }

  lemma BucketGrows(h: Heap, strt: seq<seq<Ref>>, r: Ref, b: nat, o: Obj)
    requires StringTable(h, strt) && r !in h && b < |strt| && o.kind.String?
    ensures StringTable(h[r := o], strt[b := [r] + strt[b]])
    ensures forall q, c | InBucket(strt[b := [r] + strt[b]], q, c) :: (q == r && c == b) || InBucket(strt, q, c)
  {
    var h', strt' := h[r := o], strt[b := [r] + strt[b]];
    assert forall q, c | 0 <= c < |strt| && q in strt[c] :: InBucket(strt, q, c);
    NoDupLink(strt[b], r, 0);
    assert strt[b][..0] + [r] + strt[b][0..] == strt'[b];
    assert forall q, c | InBucket(strt', q, c) :: (q == r && c == b) || InBucket(strt, q, c);
    forall q | q in h' && h'[q].kind.String? ensures exists c :: InBucket(strt', q, c) {
      if q == r {
        assert InBucket(strt', r, b);
      } else {
        var c :| InBucket(strt, q, c);
        assert InBucket(strt', q, c);
      }
    }
  }

  lemma NewStringPhase(s: State, r: Ref, b: nat)
    requires Inv(s) && r !in s.heap && b < |s.strt|
    ensures PhaseInv(New(s, String, r, 0, b))
  {
    var s2 := New(s, String, r, 0, b);
    match s.phase
    case Propagate => FreshObject(s, String, r, 0);
    case SweepString =>
      BucketGrows(s.heap, s.strt, r, b, s2.heap[r]);
      forall q, c: nat | InBucket(s2.strt, q, c) && c < s2.sweepstrgc ensures CurrentWhite(s2.heap, q, s2.current) {
        if q != r { assert InBucket(s.strt, q, c) && CurrentWhite(s.heap, q, s.current); }
      }
    case _ =>
  }

  lemma NewStringInv(s: State, r: Ref, b: nat)
    requires Inv(s) && r !in s.heap && b < |s.strt|
    ensures Inv(New(s, String, r, 0, b))
  {
    var s2 := New(s, String, r, 0, b);
    assert RootsLive(s2) && Closed(s2.heap, s2.current) && Typed(s2) by { FreshObject(s, String, r, 0); }
    assert StringTable(s2.heap, s2.strt) by { BucketGrows(s.heap, s.strt, r, b, s2.heap[r]); }
    assert RootList(s2.heap, s2.rootgc);
    NewStringPhase(s, r, b);
  }

  /** Where the root list takes an object that is no string. */
  lemma NewLinks(s: State, kind: Kind, r: Ref, n: nat, b: nat, o: Obj) returns (at: nat)
    requires !kind.String? && o == Obj(kind, White(s.current), false, seq(n, _ => Plain))
    ensures at <= |s.rootgc| && New(s, kind, r, n, b) == Link(s.(heap := s.heap[r := o]), r, at)
  {
    var k := IndexOf(s.rootgc, s.main);
    at := if !kind.Userdata? then 0 else if k < |s.rootgc| then k + 1 else k;
  }

  lemma NewHeap(s: State, kind: Kind, r: Ref, n: nat, b: nat)
    ensures var s1 := New(s, kind, r, n, b);
      s1.heap == s.heap[r := Obj(kind, White(s.current), false, seq(n, _ => Plain))] && s1.running == s.running
  {
  }

  lemma NewInv(s: State, kind: Kind, r: Ref, n: nat, b: nat)
    requires Inv(s) && r !in s.heap && (kind.String? ==> n == 0 && b < |s.strt|)
    ensures var s1 := New(s, kind, r, n, b);
      Inv(s1) && s1.heap == s.heap[r := Obj(kind, White(s.current), false, seq(n, _ => Plain))]
          && s1.running == s.running
  {
    NewHeap(s, kind, r, n, b);
    if kind.String? {
      NewStringInv(s, r, b);
    } else {
      var at := NewLinks(s, kind, r, n, b, Obj(kind, White(s.current), false, seq(n, _ => Plain)));
      NewLinkedInv(s, kind, r, n, at);
    }
  }

  lemma AllocateInv(s: State, kind: Kind, r: Ref, n: nat, b: nat, dest: nat)
    requires Inv(s) && Enabled(s, Allocate(kind, r, n, b, dest))
    ensures Inv(Apply(s, Allocate(kind, r, n, b, dest)))
    ensures Apply(s, Allocate(kind, r, n, b, dest)).heap.Keys == s.heap.Keys + {r}
  {
    NewInv(s, kind, r, n, b);
    WriteInv(New(s, kind, r, n, b), s.running, dest, To(r));
  }

  /** Replacing an object by one of the same kind and colour that refers to no more than it did. */
  ghost predicate Shrunk(o: Obj, o': Obj) {
    && o'.kind == o.kind && o'.color == o.color
    && (o'.fixed == o.fixed || (o.kind.String? && o'.fixed))
    && (forall x | x in o'.slots && x.To? :: x in o.slots)
    && (o.kind.String? ==> o'.slots == o.slots)
  }

  lemma ReplaceClosed(s: State, r: Ref, o': Obj)
    requires Inv(s) && r in s.heap && Shrunk(s.heap[r], o')
    requires Live(s.heap, s.current, r) || o'.fixed == s.heap[r].fixed
    ensures Closed(s.heap[r := o'], s.current) && RootsLive(s.(heap := s.heap[r := o']))
  {
    var h := s.heap[r := o'];
    assert forall q :: Live(h, s.current, q) <==> Live(s.heap, s.current, q) || (q == r && o'.fixed);
    assert forall q :: Live(s.heap, s.current, q) ==> Live(h, s.current, q);
    forall q, y | Live(h, s.current, q) && y in h[q].slots ensures LiveSlot(h, s.current, y) {
      if y.To? { assert y in s.heap[q].slots && Live(s.heap, s.current, q) && LiveSlot(s.heap, s.current, y); }
    }
  }

  lemma ReplaceMarking(s: State, r: Ref, o': Obj)
    requires Inv(s) && s.phase.Propagate? && r in s.heap && Shrunk(s.heap[r], o')
    ensures PhaseInv(s.(heap := s.heap[r := o']))
  {
    var h := s.heap[r := o'];
    assert SameColors(s.heap, h);
    SameColorsClean(s.heap, h, [To(s.main), s.registry]);
    forall q | q in h && h[q].color.Black? ensures Clean(h, h[q].slots) && !h[q].kind.Thread? {
      SameColorsClean(s.heap, h, s.heap[q].slots);
    }
    ClosedKnown(s);
    assert forall q, y | q in h && y in h[q].slots && y.To? :: y in s.heap[q].slots;
  }

  lemma ReplaceStructure(s: State, r: Ref, o': Obj)
    requires Inv(s) && r in s.heap && Shrunk(s.heap[r], o')
    ensures var s1 := s.(heap := s.heap[r := o']);
            SameColors(s.heap, s1.heap) && Typed(s1) && RootList(s1.heap, s1.rootgc) && StringTable(s1.heap, s1.strt)
  {
    assert SameColors(s.heap, s.heap[r := o']);
  }

  lemma ReplaceInv(s: State, r: Ref, o': Obj)
    requires Inv(s) && r in s.heap && Shrunk(s.heap[r], o')
    requires Live(s.heap, s.current, r) || o'.fixed == s.heap[r].fixed
    ensures Inv(s.(heap := s.heap[r := o']))
  {
    ReplaceClosed(s, r, o');
    ReplaceStructure(s, r, o');
    if s.phase.Propagate? { ReplaceMarking(s, r, o'); }
  }

  lemma InternInv(s: State, r: Ref)
    requires Inv(s) && r in s.heap && s.heap[r].kind.String?
    ensures var s1 := Intern(s, r); Inv(s1) && Live(s1.heap, s1.current, r) && SameShape(s.heap, s1.heap)
  {
    var s1 := Intern(s, r);
    if s1 != s {
      ShapeKeepsStructure(s, s1);
      InternClosed(s, r);
    }
  }

  lemma InternClosed(s: State, r: Ref)
    requires Inv(s) && r in s.heap && s.heap[r].kind.String?
    ensures var s1 := Intern(s, r);
            (forall q | Live(s.heap, s.current, q) :: Live(s1.heap, s1.current, q)) && Closed(s1.heap, s1.current)
  {
    var s1 := Intern(s, r);
    assert forall q | Live(s.heap, s.current, q) :: Live(s1.heap, s1.current, q);
    forall q, y | Live(s1.heap, s1.current, q) && y in s1.heap[q].slots ensures LiveSlot(s1.heap, s1.current, y) {
      assert Live(s.heap, s.current, q) && LiveSlot(s.heap, s.current, y);
    }
  }

  lemma ResizeShrinks(h: Heap, o: Ref, n: nat)
    requires o in h && !h[o].kind.String?
    ensures Shrunk(h[o], Resize(h, o, n)[o]) && Resize(h, o, n) == h[o := Resize(h, o, n)[o]]
  {
  }

  lemma AbandonMarkInv(s: State)
    requires Inv(s)
    ensures Inv(AbandonMark(s))
  {
  }

  /** The registry may be set at any time but while marking lasts, and then to what is marked already. */
  lemma RegistryInv(s: State, x: Slot)
    requires Inv(s) && ReachableSlot(s, x)
    ensures Inv(s.(registry := x)) <==> (s.phase.Propagate? && x.To? ==> !IsWhite(s.heap, x.ref))
  {
    var s1 := s.(registry := x);
    if x.To? { ReachableLive(s, x.ref); }
    if s.phase.Propagate? {
      assert NonWhite(s.heap, To(s.main)) by { assert To(s.main) in [To(s.main), s.registry]; }
      assert [To(s.main), x][1] == x;
      assert Marking(s1) <==> Marking(s);
      if NonWhite(s.heap, x) { assert Clean(s1.heap, [To(s1.main), s1.registry]); }
    }
  }

  /** A thread whose stack holds the only reference to a new table, in the middle of marking. */
  function MarkingState(registry: Slot, kept: Slot): State {
    State(map[0 := Obj(Thread, Gray, true, [kept]), 1 := Obj(Table, White(false), false, [])],
          0, 0, registry, [], Propagate, false, [], [0], [[]], 0, [1, 0], 0)
  }

  /** A collector run from here, to the end of its sweep. */
  function SweptOut(s: State): State {
    SingleStep(SingleStep(SingleStep(s)))
  }

  /** What is moved from the stack to the registry while marking lasts is freed in the same cycle: the registry has
      been marked, the stack no longer refers to it, and atomic does not look at the registry again. */
  lemma RegistryLoses()
    ensures var s := MarkingState(Plain, To(1));
      && Inv(s) && Reachable(s, 1)
      && Write(s.(registry := To(1)), 0, 0, Plain) == MarkingState(To(1), Plain)
      && Reachable(SweptOut(MarkingState(To(1), Plain)), 1) && 1 !in SweptOut(MarkingState(To(1), Plain)).heap
  {
    var s, t := MarkingState(Plain, To(1)), MarkingState(To(1), Plain);
    MarkingLists();
    MarkingPhase();
    RegistryMoved();
    RegistrySwept(t, Atomic(t));
    assert RootPath(s, [0, 1]);
    assert RootPath(SweptOut(t), [1]);
  }

  lemma RegistryMoved()
    ensures Write(MarkingState(Plain, To(1)).(registry := To(1)), 0, 0, Plain) == MarkingState(To(1), Plain)
  {
    assert [To(1)][0 := Plain] == [Plain];
  }

  lemma MarkingLists()
    ensures var s := MarkingState(Plain, To(1)); Typed(s) && RootList(s.heap, s.rootgc) && StringTable(s.heap, s.strt)
  {
    var s := MarkingState(Plain, To(1));
    assert forall r, b: nat :: !InBucket(s.strt, r, b);
  }

  lemma MarkingPhase()
    ensures var s := MarkingState(Plain, To(1)); RootsLive(s) && Closed(s.heap, s.current) && PhaseInv(s)
  {
    var s := MarkingState(Plain, To(1));
    assert [] + [0] == [0];
    assert s.heap.Keys == {0, 1};
  }

  lemma RegistrySwept(t: State, a: State)
    requires t == MarkingState(To(1), Plain) && a == Atomic(t)
    ensures SweptOut(t).registry == To(1) && 1 !in SweptOut(t).heap
  {
    var r := MarkRefs(t, [To(0)]);
    assert MarkAll(Marks(t.heap, []), [To(0)][1..]) == Marks(t.heap, []);
    assert r == t;
    var u := t.(gray := [0], grayagain := []);
    assert PropagateMark(u) == t.(heap := t.heap) by {
      assert [0][1..] == [] && [0] + [] == [0] && Paint(t.heap, 0, Gray) == t.heap;
      assert [Plain][1..] == [] && MarkSlot(Marks(t.heap, []), Plain) == Marks(t.heap, []);
    }
    assert PropagateAll(u) == PropagateAll(t) == t;
    assert [To(0)] + t.mt == [To(0)];
    assert a == Flip(t);
    var b := SingleStep(a);
    assert b == a.(sweepstrgc := 1, phase := Sweep) by { assert a.strt[0] == [] && a.strt[0 := []] == a.strt; }
    assert SingleStep(b) == SweepSome(b);
    assert b.rootgc[..0] + b.rootgc[0 + 1..] == [0];
    assert 1 !in SweepList(b.heap - {1}, [0], 0, GCSWEEPMAX - 1, true).heap by {
      SweepListKeys(b.heap - {1}, [0], 0, GCSWEEPMAX - 1, true);
    }
  }

  lemma {:induction false} SweepListKeys(h: Heap, list: seq<Ref>, pos: nat, count: nat, current: bool)
    ensures SweepList(h, list, pos, count, current).heap.Keys <= h.Keys
    decreases count
  {
    if pos < |list| && count > 0 {
      var r := list[pos];
      if r in h && DeadObj(h[r], current) {
        SweepListKeys(h - {r}, list[..pos] + list[pos + 1..], pos, count - 1, current);
      } else {
        SweepListKeys(if r in h then Paint(h, r, White(current)) else h, list, pos + 1, count - 1, current);
      }
    }
  }

  lemma RegroupedTable(h: Heap, strt: seq<seq<Ref>>, to: seq<seq<Ref>>)
    requires StringTable(h, strt) && Regrouped(strt, to)
    ensures StringTable(h, to)
  {
    forall r, b | InBucket(to, r, b) ensures r in h && h[r].kind.String? {
      var c :| InBucket(strt, r, c);
    }
  }

  // ---------------------------------------------------------------- runs

  /** Every operation keeps the invariant, and frees nothing that can be reached. */
  lemma ApplyInv(s: State, op: Op)
    requires Inv(s) && Enabled(s, op)
    ensures Inv(Apply(s, op))
    ensures forall r | r in s.heap && r !in Apply(s, op).heap :: op.Collect? && Dead(s, r) && !Reachable(s, r)
  {
    match op
    case Collect =>
      SingleStepInv(s);
      forall r | r in s.heap && r !in Apply(s, op).heap ensures !Reachable(s, r) {
        if Reachable(s, r) { ReachableLive(s, r); }
      }
    case FullGcReset => AbandonMarkInv(s);
    case Allocate(kind, r, n, b, dest) => AllocateInv(s, kind, r, n, b, dest);
    case Store(o, i, x) =>
      ReachableLive(s, o);
      if x.To? { ReachableLive(s, x.ref); }
      WriteInv(s, o, i, x);
    case SetMetatable(tag, x) =>
      if x.To? { ReachableLive(s, x.ref); }
      assert forall y | y in s.mt[tag := x] :: y == x || y in s.mt;
    case SetRegistry(x) => RegistryInv(s, x);
    case Resume(th) => ReachableLive(s, th);
    case InternString(r, dest) =>
      InternInv(s, r);
      WriteInv(Intern(s, r), s.running, dest, To(r));
    case FixString(r) =>
      ReachableLive(s, r);
      ReplaceInv(s, r, s.heap[r].(fixed := true));
    case ResizeObject(o, n) =>
      ResizeShrinks(s.heap, o, n);
      ReplaceInv(s, o, Resize(s.heap, o, n)[o]);
    case ResizeStrings(to) => RegroupedTable(s.heap, s.strt, to);
  }

  /** `states` is a run of the operations `ops`. */
  ghost predicate Run(states: seq<State>, ops: seq<Op>) {
    && |states| == |ops| + 1
    && forall i | 0 <= i < |ops| :: Enabled(states[i], ops[i]) && states[i + 1] == Apply(states[i], ops[i])
  }

  lemma {:induction false} RunInv(states: seq<State>, ops: seq<Op>, i: nat)
    requires Run(states, ops) && Inv(states[0]) && i < |states|
    ensures Inv(states[i])
  {
    if i > 0 {
      RunInv(states, ops, i - 1);
      ApplyInv(states[i - 1], ops[i - 1]);
    }
  }

  /** f_luaopen: the table of globals and the registry. */
  function Opening(globals: Ref, registry: Ref): seq<Op> {
    [Allocate(Table, globals, 0, 0, 0), Allocate(Table, registry, 0, 0, 1),
     SetRegistry(To(registry)), Store(0, 1, Plain)]
  }

  lemma RunMore(states: seq<State>, ops: seq<Op>, op: Op)
    requires Run(states, ops) && Enabled(states[|ops|], op)
    ensures Run(states + [Apply(states[|ops|], op)], ops + [op])
  {
    var states', ops' := states + [Apply(states[|ops|], op)], ops + [op];
    forall i | 0 <= i < |ops'| ensures Enabled(states'[i], ops'[i]) && states'[i + 1] == Apply(states'[i], ops'[i]) {
      if i < |ops| { assert Enabled(states[i], ops[i]); }
    }
  }

  /** A new table, anchored in the stack. */
  lemma TableMore(states: seq<State>, ops: seq<Op>, s: State, r: Ref, dest: nat, stack: nat)
    returns (more: seq<State>, t: State)
    requires Run(states, ops) && s == states[|ops|] && InOpening(s, stack) && r !in s.heap && dest < stack
    ensures Run(more, ops + [Allocate(Table, r, 0, 0, dest)]) && t == more[|ops| + 1] && more[0] == states[0]
    ensures InOpening(t, stack) && t.main == s.main && t.heap.Keys == s.heap.Keys + {r}
    ensures t.heap[t.main].slots == s.heap[s.main].slots[dest := To(r)]
  {
    RunMore(states, ops, Allocate(Table, r, 0, 0, dest));
    t := Apply(s, Allocate(Table, r, 0, 0, dest));
    more := states + [t];
  }

  /** While a state is opened, the collector pauses and the main thread runs. */
  ghost predicate InOpening(s: State, stack: nat) {
    && s.phase.Pause? && s.running == s.main && s.main in s.heap
    && s.heap[s.main].kind.Thread? && |s.heap[s.main].slots| == stack
  }

  /** Moving a table from the stack to the registry. */
  lemma RegistryMore(states: seq<State>, ops: seq<Op>, s: State, r: Ref, at: nat, stack: nat)
    returns (more: seq<State>, t: State)
    requires Run(states, ops) && s == states[|ops|] && InOpening(s, stack) && at < stack
    requires s.heap[s.main].slots[at] == To(r)
    ensures Run(more, ops + [SetRegistry(To(r)), Store(s.main, at, Plain)])
    ensures t == more[|ops| + 2] && more[0] == states[0]
    ensures t == s.(registry := To(r), heap := SetSlot(s.heap, s.main, at, Plain))
  {
    var u := s.(registry := To(r));
    assert RootPath(s, [s.main, r]);
    RunMore(states, ops, SetRegistry(To(r)));
    assert RootPath(u, [s.main]);
    RunMore(states + [u], ops + [SetRegistry(To(r))], Store(s.main, at, Plain));
    t := u.(heap := SetSlot(s.heap, s.main, at, Plain));
    more := states + [u] + [t];
    assert ops + [SetRegistry(To(r))] + [Store(s.main, at, Plain)]
        == ops + [SetRegistry(To(r)), Store(s.main, at, Plain)];
  }

  /** The table of globals, and the table that is to be the registry. */
  lemma TablesMade(s0: State, globals: Ref, registry: Ref, stack: nat) returns (states: seq<State>, s: State)
    requires InOpening(s0, stack) && stack >= 2 && globals !in s0.heap && registry !in s0.heap && globals != registry
    ensures Run(states, [Allocate(Table, globals, 0, 0, 0), Allocate(Table, registry, 0, 0, 1)])
    ensures states[0] == s0 && s == states[2] && InOpening(s, stack) && s.main == s0.main
    ensures s.heap[s.main].slots[0] == To(globals) && s.heap[s.main].slots[1] == To(registry)
  {
    var run1, s1 := TableMore([s0], [], s0, globals, 0, stack);
    var op0, op1 := Allocate(Table, globals, 0, 0, 0), Allocate(Table, registry, 0, 0, 1);
    assert [] + [op0] == [op0] && [op0] + [op1] == [op0, op1];
    states, s := TableMore(run1, [op0], s1, registry, 1, stack);
  }

  lemma OpeningEnds(states: seq<State>, ops: seq<Op>, s: State, globals: Ref, registry: Ref)
    requires Run(states, ops) && |ops| == 4 && Inv(states[0]) && s == states[4] && s.registry == To(registry)
    ensures Inv(s) && Reachable(s, registry)
  {
    assert RootPath(s, [registry]);
    RunInv(states, ops, 4);
  }

  /** Opening a new state is a run, and ends with the table of globals and the registry set. */
  lemma OpeningRuns(globals: Ref, registry: Ref, stack: nat, buckets: nat, tags: nat) returns (states: seq<State>)
    requires globals != 0 && registry != 0 && globals != registry && stack >= 2 && buckets > 0
    ensures Run(states, Opening(globals, registry)) && states[0] == InitialState(0, stack, buckets, tags)
    ensures Inv(states[4]) && states[4].registry == To(registry) && Reachable(states[4], registry)
    ensures Globals(states[4].heap, 0) == To(globals)
  {
    var s0 := InitialState(0, stack, buckets, tags);
    InitialInv(0, stack, buckets, tags);
    var made, s := TablesMade(s0, globals, registry, stack);
    var t;
    states, t := RegistryMore(made, Opening(globals, registry)[..2], s, registry, 1, stack);
    OpeningEnds(states, Opening(globals, registry), t, globals, registry);
  }

  /** Safety of the collector over whole runs. In every run from a new state, or from any other with the invariant, no
      step frees an object that can be reached before the step, and everything reachable is allocated. */
  lemma RunSafety(states: seq<State>, ops: seq<Op>)
    requires Run(states, ops) && Inv(states[0])
    ensures forall i, r | 0 <= i < |states| && Reachable(states[i], r) :: r in states[i].heap
    ensures forall i, r | 0 <= i < |ops| && Reachable(states[i], r) :: r in states[i + 1].heap
  {
    forall i, r | 0 <= i < |states| && Reachable(states[i], r)
      ensures r in states[i].heap && (i < |ops| ==> r in states[i + 1].heap)
    {
      RunInv(states, ops, i);
      ReachableLive(states[i], r);
      if i < |ops| { ApplyInv(states[i], ops[i]); }
    }
  }

  /** While marking lasts, no run ever shows a black object that refers to a white one. */
  lemma RunTriColor(states: seq<State>, ops: seq<Op>, i: nat, r: Ref, c: Ref)
    requires Run(states, ops) && Inv(states[0])
    requires i < |states| && states[i].phase.Propagate?
    requires r in states[i].heap && states[i].heap[r].color.Black? && To(c) in states[i].heap[r].slots
    ensures c in states[i].heap && !states[i].heap[c].color.White?
  {
    RunInv(states, ops, i);
    assert NonWhite(states[i].heap, To(c));
  }

  /** The atomic step leaves nothing reachable white: only what it failed to mark can be swept. */
  lemma AtomicMarksReachable(s: State, r: Ref)
    requires Inv(s) && s.phase.Propagate? && s.gray == [] && Reachable(SingleStep(s), r)
    ensures r in SingleStep(s).heap && !SingleStep(s).heap[r].color.White?
  {
    AtomicInv(s);
    var s' := SingleStep(s);
    var path :| RootPath(s', path) && path[|path| - 1] == r;
    AtomicMarksPath(s, path, |path| - 1);
  }

  lemma {:induction false} AtomicMarksPath(s: State, path: seq<Ref>, i: nat)
    requires Inv(s) && s.phase.Propagate? && RootPath(Atomic(s), path) && i < |path|
    ensures NonWhite(AtomicMark(s).heap, To(path[i]))
  {
    ClosedKnown(s);
    AtomicMarkInv(s);
    var h := AtomicMark(s).heap;
    if i == 0 {
      DarkerKeepsClean(s.heap, h, [To(s.main), s.registry]);
      var roots := [To(s.running)] + s.mt;
      assert NonWhite(h, To(s.main)) && NonWhite(h, s.registry) && NonWhite(h, roots[0]);
      assert To(path[0]) in s.mt ==> To(path[0]) in roots;
    } else {
      AtomicMarksPath(s, path, i - 1);
      var q := path[i - 1];
      AtomicInv(s);
      assert Typed(Atomic(s)) && Atomic(s).heap == h;
      assert path[i - 1 + 1] == path[i] && To(path[i]) in h[q].slots;
      assert !h[q].kind.String?;
      assert NonWhite(h, To(path[i]));
    }
  }
}
