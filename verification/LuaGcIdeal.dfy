/** The collector as the program sees it (lua/lgc.c): not at all. Every run does to the objects what the same run does
    in a store where nothing is ever coloured or freed. */
module LuaGcIdeal {
  import opened LuaGcState
  import opened LuaGcSafety
  import opened LuaGcFull

  /** An object without its colour. */
  datatype Bare = Bare(kind: Kind, fixed: bool, slots: seq<Slot>)

  /** A state without a collector. */
  datatype Store = Store(cells: map<Ref, Bare>, main: Ref, running: Ref, registry: Slot, mt: seq<Slot>)

  /** Puts `x` in a slot of an object. */
  function Put(st: Store, o: Ref, i: nat, x: Slot): Store {
    if o in st.cells && i < |st.cells[o].slots| then
      st.(cells := st.cells[o := st.cells[o].(slots := st.cells[o].slots[i := x])])
    else st
  }

  /** As many slots as asked for: the first of those there are, and then empty ones. */
  function Fitted(slots: seq<Slot>, n: nat): (r: seq<Slot>)
    ensures |r| == n && forall k | 0 <= k < n :: r[k] == if k < |slots| then slots[k] else Plain
  {
    seq(n, k requires 0 <= k < n => if k < |slots| then slots[k] else Plain)
  }

  /** What each operation does where there is no collector. */
  function Ideal(st: Store, op: Op): Store {
    match op
    case Collect => st
    case FullGcReset => st
    case ResizeStrings(_) => st
    case Allocate(kind, r, n, _, dest) =>
      Put(st.(cells := st.cells[r := Bare(kind, false, Fitted([], n))]), st.running, dest, To(r))
    case Store(o, i, x) => Put(st, o, i, x)
    case SetMetatable(tag, x) => if tag < |st.mt| then st.(mt := st.mt[tag := x]) else st
    case SetRegistry(x) => st.(registry := x)
    case Resume(th) => st.(running := th)
    case InternString(str, dest) => Put(st, st.running, dest, To(str))
    case FixString(str) =>
      if str in st.cells then st.(cells := st.cells[str := st.cells[str].(fixed := true)]) else st
    case ResizeObject(o, n) =>
      if o in st.cells then st.(cells := st.cells[o := st.cells[o].(slots := Fitted(st.cells[o].slots, n))]) else st
  }

  function IdealRun(st: Store, ops: seq<Op>): Store {
    if ops == [] then st else Ideal(IdealRun(st, ops[..|ops| - 1]), ops[|ops| - 1])
  }

  function BareOf(o: Obj): Bare {
    Bare(o.kind, o.fixed, o.slots)
  }

  /** Every object that is allocated has its content, and the roots are the same. */
  ghost predicate Agrees(s: State, st: Store) {
    && st.main == s.main && st.running == s.running && st.registry == s.registry && st.mt == s.mt
    && forall r | r in s.heap :: r in st.cells && st.cells[r] == BareOf(s.heap[r])
  }

  // ---------------------------------------------------------------- marking and sweeping

  /** Only white objects get another colour, and nothing else of any object changes. */
  ghost predicate Recoloured(h: Heap, h': Heap) {
    && h'.Keys == h.Keys
    && (forall r | r in h :: BareOf(h'[r]) == BareOf(h[r]) && (!h[r].color.White? ==> h'[r] == h[r]))
    && (forall r | r in h && h[r].kind.String? :: h'[r].color == h[r].color || h'[r].color == Gray)
  }

  lemma {:induction false} MarkRecolours(m: Marks, r: Ref)
    requires IsWhite(m.heap, r)
    ensures Recoloured(m.heap, ReallyMark(m, r).heap) && !ReallyMark(m, r).heap[r].color.White?
    decreases WhiteRefs(m.heap), 0, 1
  {
    match m.heap[r].kind
    case Userdata => ThroughRecolours(m, r, Black);
    case UpVal => ThroughRecolours(m, r, Gray);
    case _ =>
  }

  /** Userdata and upvalues are marked through, and end up black. */
  lemma {:induction false} ThroughRecolours(m: Marks, r: Ref, c: Color)
    requires IsWhite(m.heap, r) && !m.heap[r].kind.String? && !c.White?
    ensures var h := MarkAll(Marks(Paint(m.heap, r, c), m.gray), m.heap[r].slots).heap;
      r in h && h[r].color == c && Recoloured(m.heap, h) && Recoloured(m.heap, Paint(h, r, Black))
    decreases WhiteRefs(m.heap), 0, 0
  {
    var h1 := Paint(m.heap, r, c);
    assert r in WhiteRefs(m.heap) - WhiteRefs(h1);
    MarkAllRecolours(Marks(h1, m.gray), m.heap[r].slots);
    assert h1[r].color == c;
  }

  lemma {:induction false} MarkAllRecolours(m: Marks, slots: seq<Slot>)
    ensures Recoloured(m.heap, MarkAll(m, slots).heap)
    decreases WhiteRefs(m.heap), |slots| + 1
  {
    if slots != [] {
      var x := slots[0];
      if x.To? && IsWhite(m.heap, x.ref) { MarkRecolours(m, x.ref); }
      MarkAllRecolours(MarkSlot(m, x), slots[1..]);
    }
  }

  // ---------------------------------------------------------------- stores

  ghost predicate SameBare(h: Heap, h': Heap) {
    h'.Keys == h.Keys && forall r | r in h :: BareOf(h'[r]) == BareOf(h[r])
  }

  lemma ForwardColours(s: State, o: Ref, v: Ref)
    requires o in s.heap && IsWhite(s.heap, v)
    ensures var t := BarrierForward(s, o, v);
      && SameBare(s.heap, t.heap) && t == s.(heap := t.heap, gray := t.gray)
      && (if s.phase.Propagate? then
            Recoloured(s.heap, t.heap) && !t.heap[v].color.White?
          else
            t.heap == s.heap[o := s.heap[o].(color := White(s.current))] && t.gray == s.gray)
  {
    MarkRecolours(Marks(s.heap, s.gray), v);
  }

  /** What a barrier leaves of the state after the store: `s` is the state then. */
  lemma BarrierIs(s: State, o: Ref, i: nat, x: Slot, s1: State) returns (needed: bool)
    requires o in s.heap && i < |s.heap[o].slots| && s1 == s.(heap := SetSlot(s.heap, o, i, x))
    ensures needed <==> !s.heap[o].kind.Thread? && s.heap[o].color.Black? && x.To? && IsWhite(s.heap, x.ref)
    ensures Write(s, o, i, x) ==
      if !needed then s1 else if s.heap[o].kind.Table? then BarrierBack(s1, o) else BarrierForward(s1, o, x.ref)
  {
    needed := !s.heap[o].kind.Thread? && s.heap[o].color.Black? && x.To? && IsWhite(s.heap, x.ref);
    assert x.To? ==> (IsWhite(s1.heap, x.ref) <==> IsWhite(s.heap, x.ref));
  }

  lemma WriteBare(s: State, o: Ref, i: nat, x: Slot, s1: State)
    requires o in s.heap && i < |s.heap[o].slots| && s1 == s.(heap := SetSlot(s.heap, o, i, x))
    ensures var t := Write(s, o, i, x);
      t == s.(heap := t.heap, gray := t.gray, grayagain := t.grayagain) && SameBare(s1.heap, t.heap)
  {
    var needed := BarrierIs(s, o, i, x, s1);
    if needed && !s.heap[o].kind.Table? { ForwardColours(s1, o, x.ref); }
  }

  /** A store puts the value where it is told and nowhere else, whatever barrier it runs. */
  lemma WriteStores(s: State, o: Ref, i: nat, x: Slot)
    requires o in s.heap && i < |s.heap[o].slots|
    ensures var t := Write(s, o, i, x);
      && t == s.(heap := t.heap, gray := t.gray, grayagain := t.grayagain) && t.heap.Keys == s.heap.Keys
      && t.heap[o].slots == s.heap[o].slots[i := x]
      && (forall r | r in s.heap && r != o :: t.heap[r].slots == s.heap[r].slots)
      && (forall r | r in s.heap :: t.heap[r].kind == s.heap[r].kind && t.heap[r].fixed == s.heap[r].fixed)
  {
    var s1 := s.(heap := SetSlot(s.heap, o, i, x));
    WriteBare(s, o, i, x, s1);
    var t := Write(s, o, i, x);
    assert BareOf(t.heap[o]) == BareOf(s1.heap[o]);
    forall r | r in s.heap
      ensures t.heap[r].kind == s.heap[r].kind && t.heap[r].fixed == s.heap[r].fixed
      ensures r != o ==> t.heap[r].slots == s.heap[r].slots
    {
      assert BareOf(t.heap[r]) == BareOf(s1.heap[r]);
    }
  }

  /** The colours after the store of `x` in `o`: a black table becomes gray again and waits for atomic; for another
      black object a white value is marked while marking lasts, and afterwards the object itself is whitened. Threads
      have no barrier, and no other store changes a colour. */
  ghost predicate Barred(s: State, o: Ref, x: Slot, t: State)
    requires o in s.heap && t.heap.Keys == s.heap.Keys
  {
    var kind := s.heap[o].kind;
    if kind.Thread? || !s.heap[o].color.Black? || !x.To? || !IsWhite(s.heap, x.ref) then
      t.gray == s.gray && t.grayagain == s.grayagain && forall r | r in s.heap :: t.heap[r].color == s.heap[r].color
    else if kind.Table? then
      && t.gray == s.gray && t.grayagain == [o] + s.grayagain && t.heap[o].color.Gray?
      && forall r | r in s.heap && r != o :: t.heap[r].color == s.heap[r].color
    else if s.phase.Propagate? then
      && t.grayagain == s.grayagain && !t.heap[x.ref].color.White? && t.heap[o].color.Black?
      && forall r | r in s.heap && !s.heap[r].color.White? :: t.heap[r].color == s.heap[r].color
    else
      && t.gray == s.gray && t.grayagain == s.grayagain && t.heap[o].color == White(s.current)
      && forall r | r in s.heap && r != o :: t.heap[r].color == s.heap[r].color
  }

  lemma WriteColours(s: State, o: Ref, i: nat, x: Slot)
    requires o in s.heap && i < |s.heap[o].slots|
    ensures Write(s, o, i, x).heap.Keys == s.heap.Keys && Barred(s, o, x, Write(s, o, i, x))
  {
    var s1 := s.(heap := SetSlot(s.heap, o, i, x));
    var needed := BarrierIs(s, o, i, x, s1);
    if needed && !s.heap[o].kind.Table? { ForwardColours(s1, o, x.ref); }
    var t := Write(s, o, i, x);
    if needed && s.phase.Propagate? && !s.heap[o].kind.Table? {
      assert t.heap[o] == s1.heap[o];
      forall r | r in s.heap && !s.heap[r].color.White? ensures t.heap[r].color == s.heap[r].color {
        assert !s1.heap[r].color.White?;
      }
    }
  }

  lemma WriteAgrees(s: State, st: Store, o: Ref, i: nat, x: Slot)
    requires Agrees(s, st) && o in s.heap && i < |s.heap[o].slots|
    ensures Agrees(Write(s, o, i, x), Put(st, o, i, x))
  {
    WriteStores(s, o, i, x);
    var t, u := Write(s, o, i, x), Put(st, o, i, x);
    forall r | r in t.heap ensures r in u.cells && u.cells[r] == BareOf(t.heap[r]) {
      assert r in s.heap;
    }
  }

  // ---------------------------------------------------------------- operations and runs

  lemma AllocateAgrees(s: State, st: Store, kind: Kind, r: Ref, n: nat, b: nat, dest: nat)
    requires Agrees(s, st) && Enabled(s, Allocate(kind, r, n, b, dest))
    ensures Agrees(Apply(s, Allocate(kind, r, n, b, dest)), Ideal(st, Allocate(kind, r, n, b, dest)))
  {
    var s1 := New(s, kind, r, n, b);
    var st1 := st.(cells := st.cells[r := Bare(kind, false, Fitted([], n))]);
    assert Fitted([], n) == seq(n, _ => Plain);
    NewHeap(s, kind, r, n, b);
    WriteAgrees(s1, st1, s.running, dest, To(r));
  }

  lemma InternAgrees(s: State, st: Store, r: Ref, dest: nat)
    requires Agrees(s, st) && Enabled(s, InternString(r, dest))
    ensures Agrees(Apply(s, InternString(r, dest)), Ideal(st, InternString(r, dest)))
  {
    WriteAgrees(Intern(s, r), st, s.running, dest, To(r));
  }

  lemma ResizeAgrees(s: State, st: Store, o: Ref, n: nat)
    requires Agrees(s, st) && Enabled(s, ResizeObject(o, n))
    ensures Agrees(Apply(s, ResizeObject(o, n)), Ideal(st, ResizeObject(o, n)))
  {
    assert Resize(s.heap, o, n)[o].slots == Fitted(s.heap[o].slots, n);
  }

  /** A collector step changes colours, and frees. */
  lemma CollectAgrees(s: State, st: Store)
    requires Agrees(s, st) && Inv(s)
    ensures Agrees(SingleStep(s), st)
  {
    StepPruned(s);
    var t := SingleStep(s);
    forall r | r in t.heap ensures r in st.cells && st.cells[r] == BareOf(t.heap[r]) {
      assert r in s.heap && t.heap[r] == s.heap[r].(color := t.heap[r].color);
    }
  }

  lemma StepAgrees(s: State, st: Store, op: Op)
    requires Agrees(s, st) && Inv(s) && Enabled(s, op)
    ensures Agrees(Apply(s, op), Ideal(st, op))
  {
    match op
    case Collect => CollectAgrees(s, st);
    case Allocate(kind, r, n, b, dest) => AllocateAgrees(s, st, kind, r, n, b, dest);
    case Store(o, i, x) => WriteAgrees(s, st, o, i, x);
    case InternString(r, dest) => InternAgrees(s, st, r, dest);
    case ResizeObject(o, n) => ResizeAgrees(s, st, o, n);
    case _ =>
  }

  lemma {:induction false} RunAgrees(states: seq<State>, ops: seq<Op>, st: Store, i: nat)
    requires Run(states, ops) && Inv(states[0]) && Agrees(states[0], st) && i < |states|
    ensures Agrees(states[i], IdealRun(st, ops[..i]))
    decreases i
  {
    if i > 0 {
      RunAgrees(states, ops, st, i - 1);
      RunInv(states, ops, i - 1);
      assert ops[..i][..i - 1] == ops[..i - 1];
      StepAgrees(states[i - 1], IdealRun(st, ops[..i - 1]), ops[i - 1]);
    }
  }

  // ---------------------------------------------------------------- what the program can reach

  predicate IsRootOf(st: Store, r: Ref) {
    r == st.main || r == st.running || st.registry == To(r) || To(r) in st.mt
  }

  ghost predicate PathIn(st: Store, path: seq<Ref>) {
    && path != [] && IsRootOf(st, path[0])
    && forall i | 0 <= i < |path| - 1 :: path[i] in st.cells && To(path[i + 1]) in st.cells[path[i]].slots
  }

  ghost predicate Seen(st: Store, r: Ref) {
    exists path :: PathIn(st, path) && path[|path| - 1] == r
  }

  lemma {:induction false} PathSeen(s: State, st: Store, path: seq<Ref>, k: nat)
    requires Inv(s) && Agrees(s, st) && PathIn(st, path) && k < |path|
    ensures RootPath(s, path[..k + 1]) && path[k] in s.heap
    decreases k
  {
    var front := path[..k + 1];
    if k > 0 {
      PathSeen(s, st, path, k - 1);
      assert forall i | 0 <= i < k :: path[..k][i] == front[i];
      assert st.cells[path[k - 1]] == BareOf(s.heap[path[k - 1]]);
    }
    assert RootPath(s, front) && front[|front| - 1] == path[k];
    ReachableLive(s, path[k]);
  }

  /** The same objects can be reached, whether there is a collector or not, and they have the same contents. */
  lemma SeenAlike(s: State, st: Store, r: Ref)
    requires Inv(s) && Agrees(s, st)
    ensures Seen(st, r) <==> Reachable(s, r)
    ensures Seen(st, r) ==> r in s.heap && r in st.cells && st.cells[r] == BareOf(s.heap[r])
  {
    if Seen(st, r) {
      var path :| PathIn(st, path) && path[|path| - 1] == r;
      PathSeen(s, st, path, |path| - 1);
      assert path[..|path|] == path;
    }
    if Reachable(s, r) {
      var path :| RootPath(s, path) && path[|path| - 1] == r;
      assert PathIn(st, path);
      ReachableLive(s, r);
    }
  }

  /** In every run, collector steps and all, what the program can reach, and what it finds there, is what it would
      find if nothing were ever collected. */
  lemma RunIsIdeal(states: seq<State>, ops: seq<Op>, st: Store, i: nat, r: Ref)
    requires Run(states, ops) && Inv(states[0]) && Agrees(states[0], st) && i < |states|
    ensures var now := IdealRun(st, ops[..i]);
      && (Seen(now, r) <==> Reachable(states[i], r))
      && (Seen(now, r) ==> r in now.cells && r in states[i].heap
                           && now.cells[r] == Bare(states[i].heap[r].kind, states[i].heap[r].fixed,
                                                   states[i].heap[r].slots))
  {
    RunAgrees(states, ops, st, i);
    RunInv(states, ops, i);
    SeenAlike(states[i], IdealRun(st, ops[..i]), r);
  }

  // ---------------------------------------------------------------- where new objects go

  /** A new string goes to the front of its bucket; a userdata behind the main thread, where the finalizers will look
      for it; anything else to the front of the root list. */
  lemma NewPlaces(s: State, kind: Kind, r: Ref, n: nat, b: nat, front: seq<Ref>, back: seq<Ref>)
    requires s.rootgc == front + [s.main] + back && s.main !in front && b < |s.strt|
    ensures var t := New(s, kind, r, n, b);
      && t.rootgc == (if kind.String? then s.rootgc
                      else if kind.Userdata? then front + [s.main, r] + back
                      else [r] + s.rootgc)
      && t.strt == (if kind.String? then s.strt[b := [r] + s.strt[b]] else s.strt)
  {
    FirstIndex(s.rootgc, s.main, |front|);
    assert s.rootgc[..|front| + 1] == front + [s.main] && s.rootgc[|front| + 1..] == back;
    assert front + [s.main] + [r] + back == front + [s.main, r] + back;
    assert s.rootgc[..0] == [] && s.rootgc[0..] == s.rootgc;
  }

  lemma {:induction false} FirstIndex(list: seq<Ref>, r: Ref, k: nat)
    requires k < |list| && list[k] == r && r !in list[..k]
    ensures IndexOf(list, r) == k
  {
    if k > 0 {
      assert list[0] == list[..k][0];
      assert forall x | x in list[1..][..k - 1] :: x in list[..k];
      FirstIndex(list[1..], r, k - 1);
    }
  }
}
