/** The collector as lgc.c has it: mark bits set and cleared in place, lists threaded through the
    global state, loops for sweeping and propagating. Every method computes what the state
    machine of LuaGcState says. */
module LuaGcCollector {
  import opened LuaGcState
  import opened LuaGcInvariant
  import opened LuaGcSafety
  import LuaGcFull
  import LuaGcIdeal

  // ---------------------------------------------------------------- mark bits

  /** The bits of `marked` (and of `currentwhite`) that the model uses, bits 0, 1, 2 and 5. */
  datatype Bits = Bits(white0: bool, white1: bool, black: bool, fixed: bool)

  function Xor(m: Bits, n: Bits): Bits {
    Bits(m.white0 != n.white0, m.white1 != n.white1, m.black != n.black, m.fixed != n.fixed)
  }

  predicate Common(m: Bits, n: Bits) {
    (m.white0 && n.white0) || (m.white1 && n.white1) || (m.black && n.black) || (m.fixed && n.fixed)
  }

  const WHITEBITS := Bits(true, true, false, false)

  function OtherWhite(currentwhite: Bits): Bits { Xor(currentwhite, WHITEBITS) }
  function White2Gray(m: Bits): Bits { m.(white0 := false, white1 := false) }
  function Black2Gray(m: Bits): Bits { m.(black := false) }
  function Gray2Black(m: Bits): Bits { m.(black := true) }
  function MakeWhite(m: Bits, currentwhite: Bits): Bits {
    m.(black := false, white0 := currentwhite.white0, white1 := currentwhite.white1)
  }
  function ChangeWhite(m: Bits): Bits { Xor(m, WHITEBITS) }
  function NewWhite(currentwhite: Bits): Bits { Bits(currentwhite.white0, currentwhite.white1, false, false) }
  predicate WhiteBit(m: Bits) { Common(m, WHITEBITS) }
  predicate IsDead(m: Bits, currentwhite: Bits) {
    var other := OtherWhite(currentwhite);
    (m.white0 && other.white0) || (m.white1 && other.white1)
  }
  /** The test of sweeplist; the fixed bit is part of the current white, so it spares fixed objects. */
  predicate Survives(m: Bits, currentwhite: Bits) { Common(Xor(m, WHITEBITS), OtherWhite(currentwhite)) }

  /** At most one of the two whites and black. */
  predicate ValidMark(m: Bits) {
    !(m.white0 && m.white1) && !(m.white0 && m.black) && !(m.white1 && m.black)
  }

  predicate ValidWhite(currentwhite: Bits) {
    currentwhite.white0 != currentwhite.white1 && !currentwhite.black && currentwhite.fixed
  }

  function ColorOf(m: Bits): Color {
    if m.white0 then White(false) else if m.white1 then White(true) else if m.black then Black else Gray
  }

  /** What the mark macros do to colours; none touches the fixed bit. */
  lemma MarkBits(m: Bits, cw: Bits)
    requires ValidMark(m) && ValidWhite(cw)
    ensures WhiteBit(m) <==> ColorOf(m).White?
    ensures ColorOf(m).White? ==> ValidMark(White2Gray(m)) && ColorOf(White2Gray(m)) == Gray
    ensures ColorOf(m).Gray? ==> ValidMark(Gray2Black(m)) && ColorOf(Gray2Black(m)) == Black
    ensures ColorOf(m).Black? ==> ValidMark(Black2Gray(m)) && ColorOf(Black2Gray(m)) == Gray
    ensures ValidMark(MakeWhite(m, cw)) && ColorOf(MakeWhite(m, cw)) == White(cw.white1)
    ensures ColorOf(m).White? ==> ValidMark(ChangeWhite(m)) && ColorOf(ChangeWhite(m)) == White(!ColorOf(m).bit)
    ensures IsDead(m, cw) <==> ColorOf(m) == White(!cw.white1)
    ensures Survives(m, cw) <==> !(ColorOf(m) == White(!cw.white1) && !m.fixed)
    ensures ValidWhite(OtherWhite(cw)) && OtherWhite(cw).white1 == !cw.white1
    ensures ValidMark(NewWhite(cw)) && ColorOf(NewWhite(cw)) == White(cw.white1)
  {
  }

  // ---------------------------------------------------------------- the state behind the bits

  datatype Cell = Cell(kind: Kind, marked: Bits, slots: seq<Slot>)

  function ObjOf(c: Cell): Obj {
    Obj(c.kind, ColorOf(c.marked), c.marked.fixed, c.slots)
  }

  function HeapOf(cells: map<Ref, Cell>): (h: Heap)
    ensures h.Keys == cells.Keys
  {
    map r | r in cells :: ObjOf(cells[r])
  }

  lemma SetCell(cells: map<Ref, Cell>, r: Ref, c: Cell)
    ensures HeapOf(cells[r := c]) == HeapOf(cells)[r := ObjOf(c)]
  {
  }

  lemma FreeCell(cells: map<Ref, Cell>, r: Ref)
    ensures HeapOf(cells - {r}) == HeapOf(cells) - {r}
  {
  }

  /** What a store does to the objects, it does to the cells. */
  lemma SlotsStored(was: map<Ref, Cell>, now: map<Ref, Cell>, o: Ref, i: nat, x: Slot)
    requires o in was && i < |was[o].slots| && HeapOf(now).Keys == HeapOf(was).Keys
    requires HeapOf(now)[o].slots == HeapOf(was)[o].slots[i := x]
    requires forall r | r in was && r != o :: HeapOf(now)[r].slots == HeapOf(was)[r].slots
    requires forall r | r in was ::
      HeapOf(now)[r].kind == HeapOf(was)[r].kind && HeapOf(now)[r].fixed == HeapOf(was)[r].fixed
    ensures now.Keys == was.Keys && now[o].slots == was[o].slots[i := x]
    ensures forall r | r in was && r != o :: now[r].slots == was[r].slots
    ensures forall r | r in was :: now[r].kind == was[r].kind && now[r].marked.fixed == was[r].marked.fixed
  {
    assert HeapOf(now)[o] == ObjOf(now[o]) && HeapOf(was)[o] == ObjOf(was[o]);
    forall r | r in was
      ensures now[r].kind == was[r].kind && now[r].marked.fixed == was[r].marked.fixed
      ensures r != o ==> now[r].slots == was[r].slots
    {
      assert HeapOf(now)[r] == ObjOf(now[r]) && HeapOf(was)[r] == ObjOf(was[r]);
    }
  }

  /** Marking follows no dangling pointer and lists allocated objects only. */
  ghost predicate Traversable(h: Heap, gray: seq<Ref>) {
    SlotsAllocated(h) && forall r | r in gray :: r in h
  }

  /** Only white objects are recoloured. */
  ghost predicate WhitesMarked(h: Heap, h': Heap) {
    SameShape(h, h') && forall r | r in h && !h[r].color.White? :: h'[r] == h[r]
  }

  lemma {:induction false} ReallyMarkShape(m: Marks, r: Ref)
    requires IsWhite(m.heap, r) && Traversable(m.heap, m.gray)
    ensures var m' := ReallyMark(m, r); WhitesMarked(m.heap, m'.heap) && Traversable(m'.heap, m'.gray)
    decreases WhiteRefs(m.heap), 0
  {
    var slots := m.heap[r].slots;
    if m.heap[r].kind.Userdata? || m.heap[r].kind.UpVal? {
      var m1 := Marks(Paint(m.heap, r, if m.heap[r].kind.Userdata? then Black else Gray), m.gray);
      assert r in WhiteRefs(m.heap) - WhiteRefs(m1.heap);
      assert WhitesMarked(m.heap, m1.heap);
      MarkAllShape(m1, slots);
    }
  }

  lemma {:induction false} MarkAllShape(m: Marks, slots: seq<Slot>)
    requires Traversable(m.heap, m.gray)
    ensures var m' := MarkAll(m, slots); WhitesMarked(m.heap, m'.heap) && Traversable(m'.heap, m'.gray)
    decreases WhiteRefs(m.heap), |slots| + 1
  {
    if slots != [] {
      var x := slots[0];
      if x.To? && IsWhite(m.heap, x.ref) { ReallyMarkShape(m, x.ref); }
      MarkAllShape(MarkSlot(m, x), slots[1..]);
    }
  }

  lemma MarkSlotShape(m: Marks, x: Slot)
    requires Traversable(m.heap, m.gray)
    ensures var m' := MarkSlot(m, x); WhitesMarked(m.heap, m'.heap) && Traversable(m'.heap, m'.gray)
  {
    if x.To? && IsWhite(m.heap, x.ref) { ReallyMarkShape(m, x.ref); }
  }

  class Collector {
    var heap: map<Ref, Cell>
    var main: Ref
    var running: Ref
    var registry: Slot
    var mt: seq<Slot>
    var gcstate: Phase
    var currentwhite: Bits
    var gray: seq<Ref>
    var grayagain: seq<Ref>
    var strt: seq<seq<Ref>>
    var sweepstrgc: nat
    var rootgc: seq<Ref>
    var sweepgc: nat

    ghost predicate Valid()
      reads this
    {
      ValidWhite(currentwhite) && forall r | r in heap :: ValidMark(heap[r].marked)
    }

    ghost function Abs(): State
      reads this
    {
      State(HeapOf(heap), main, running, registry, mt, gcstate, currentwhite.white1,
            gray, grayagain, strt, sweepstrgc, rootgc, sweepgc)
    }

    /** lua_newstate */
    constructor (main: Ref, stack: nat, buckets: nat, tags: nat)
      requires buckets > 0
      ensures Valid() && Inv(Abs()) && Abs() == InitialState(main, stack, buckets, tags)
    {
      this.heap := map[main := Cell(Thread, Bits(true, false, false, true), seq(stack, _ => Plain))];
      this.main, this.running, this.registry, this.mt := main, main, Plain, seq(tags, _ => Plain);
      this.gcstate, this.currentwhite := Pause, Bits(true, false, false, true);
      this.gray, this.grayagain, this.strt, this.sweepstrgc := [], [], seq(buckets, _ => []), 0;
      this.rootgc, this.sweepgc := [main], 0;
      new;
      assert HeapOf(heap) == InitialState(main, stack, buckets, tags).heap;
      InitialInv(main, stack, buckets, tags);
    }

    /** Overwrites the mark bits of one object. */
    method SetMark(r: Ref, marked: Bits)
      requires Valid() && r in heap && ValidMark(marked) && marked.fixed == heap[r].marked.fixed
      modifies this`heap
      ensures Valid() && Abs() == old(Abs()).(heap := Paint(old(Abs()).heap, r, ColorOf(marked)))
      ensures heap == old(heap)[r := old(heap[r]).(marked := marked)]
    {
      SetCell(heap, r, heap[r].(marked := marked));
      heap := heap[r := heap[r].(marked := marked)];
    }

    ghost function Now(): Marks
      reads this
    {
      Marks(HeapOf(heap), gray)
    }

    /** white2gray */
    method GrayOut(r: Ref)
      requires Valid() && IsWhite(HeapOf(heap), r)
      modifies this`heap
      ensures Valid() && HeapOf(heap) == Paint(old(HeapOf(heap)), r, Gray)
      ensures r in heap && heap[r] == old(heap[r]).(marked := heap[r].marked) && ColorOf(heap[r].marked).Gray?
      ensures WhiteRefs(HeapOf(heap)) < old(WhiteRefs(HeapOf(heap)))
    {
      MarkBits(heap[r].marked, currentwhite);
      SetMark(r, White2Gray(heap[r].marked));
      assert r in old(WhiteRefs(HeapOf(heap))) - WhiteRefs(HeapOf(heap));
    }

    /** reallymarkobject */
    method ReallyMarkObject(r: Ref)
      requires Valid() && IsWhite(HeapOf(heap), r) && Traversable(HeapOf(heap), gray)
      modifies this`heap, this`gray
      ensures Valid() && Now() == ReallyMark(old(Now()), r)
      decreases WhiteRefs(HeapOf(heap)), 0
    {
      ghost var m := Now();
      GrayOut(r);
      match heap[r].kind
      case String =>
      case Userdata =>
        MarkUserdata(r);
        assert Paint(Paint(m.heap, r, Gray), r, Black) == Paint(m.heap, r, Black);
      case UpVal => MarkUpValue(r);
      case _ => gray := [r] + gray;
    }

    /** The userdata case of reallymarkobject: black at once, then its metatable and environment. */
    method MarkUserdata(r: Ref)
      requires Valid() && r in heap && ColorOf(heap[r].marked).Gray? && Traversable(HeapOf(heap), gray)
      modifies this`heap, this`gray
      ensures Valid() && Now() == MarkAll(Marks(Paint(old(HeapOf(heap)), r, Black), old(gray)), old(heap[r].slots))
      decreases WhiteRefs(HeapOf(heap)), 3
    {
      MarkBits(heap[r].marked, currentwhite);
      assert WhiteRefs(Paint(HeapOf(heap), r, Black)) == WhiteRefs(HeapOf(heap));
      SetMark(r, Gray2Black(heap[r].marked));
      MarkSlots(heap[r].slots);
    }

    /** The upvalue case: black only once its value is marked. */
    method MarkUpValue(r: Ref)
      requires Valid() && r in heap && ColorOf(heap[r].marked).Gray? && Traversable(HeapOf(heap), gray)
      modifies this`heap, this`gray
      ensures Valid() && var m := MarkAll(old(Now()), old(heap[r].slots));
        r in m.heap && Now() == Marks(Paint(m.heap, r, Black), m.gray)
      decreases WhiteRefs(HeapOf(heap)), 3
    {
      MarkAllShape(Now(), heap[r].slots);
      assert HeapOf(heap)[r].color == Gray;
      MarkSlots(heap[r].slots);
      assert HeapOf(heap)[r].color == Gray;
      MarkBits(heap[r].marked, currentwhite);
      SetMark(r, Gray2Black(heap[r].marked));
    }

    /** markvalue and markobject */
    method MarkValue(x: Slot)
      requires Valid() && Traversable(HeapOf(heap), gray) && (x.To? ==> x.ref in heap)
      modifies this`heap, this`gray
      ensures Valid() && Now() == MarkSlot(old(Now()), x)
      decreases WhiteRefs(HeapOf(heap)), 1
    {
      if x.To? {
        MarkBits(heap[x.ref].marked, currentwhite);
        if WhiteBit(heap[x.ref].marked) {
          ReallyMarkObject(x.ref);
        }
      }
    }

    /** The marking loops of the traverse functions. */
    method MarkSlots(slots: seq<Slot>)
      requires Valid() && Traversable(HeapOf(heap), gray) && forall x | x in slots && x.To? :: x.ref in heap
      modifies this`heap, this`gray
      ensures Valid() && Now() == MarkAll(old(Now()), slots)
      ensures Traversable(HeapOf(heap), gray) && heap.Keys == old(heap.Keys)
      decreases WhiteRefs(HeapOf(heap)), 2
    {
      ghost var m0 := Now();
      var i := 0;
      while i < |slots|
        invariant 0 <= i <= |slots|
        invariant Valid() && Traversable(HeapOf(heap), gray) && heap.Keys == old(heap.Keys)
        invariant MarkAll(Now(), slots[i..]) == MarkAll(m0, slots)
        invariant Now() == m0 || WhiteRefs(HeapOf(heap)) < WhiteRefs(m0.heap)
      {
        assert slots[i..][0] == slots[i] && slots[i..][1..] == slots[i + 1..];
        ghost var m := Now();
        MarkSlotShape(m, slots[i]);
        MarkValue(slots[i]);
        assert HeapOf(heap).Keys == m.heap.Keys;
        i := i + 1;
      }
    }

    /** What following the first gray object relies on. */
    ghost predicate GrayReady()
      reads this
    {
      gray != [] && Traversable(HeapOf(heap), gray) && ColorOf(heap[gray[0]].marked).Gray?
    }

    /** The head of propagatemark: the first gray object turns black, or, if it is a thread, stays
        gray and moves to `grayagain`. */
    method TakeGray() returns (r: Ref)
      requires Valid() && GrayReady()
      modifies this`heap, this`gray, this`grayagain
      ensures Valid() && r == old(gray[0]) && gray == old(gray[1..])
      ensures r in heap && heap[r] == old(heap)[r].(marked := heap[r].marked)
      ensures grayagain == if heap[r].kind.Thread? then [r] + old(grayagain) else old(grayagain)
      ensures HeapOf(heap) == Paint(old(HeapOf(heap)), r, if heap[r].kind.Thread? then Gray else Black)
    {
      r := gray[0];
      MarkBits(heap[r].marked, currentwhite);
      gray := gray[1..];
      SetMark(r, Gray2Black(heap[r].marked));
      if heap[r].kind.Thread? {
        KeepThread(r);
      }
    }

    /** A thread stays gray, in `grayagain`. */
    method KeepThread(r: Ref)
      requires Valid() && r in heap && ColorOf(heap[r].marked).Black?
      modifies this`heap, this`grayagain
      ensures Valid() && r in heap && heap[r] == old(heap)[r].(marked := heap[r].marked)
              && grayagain == [r] + old(grayagain)
      ensures HeapOf(heap) == Paint(old(HeapOf(heap)), r, Gray)
    {
      grayagain := [r] + grayagain;
      MarkBits(heap[r].marked, currentwhite);
      SetMark(r, Black2Gray(heap[r].marked));
    }

    /** propagatemark */
    method PropagateStep()
      requires Valid() && GrayReady()
      modifies this`heap, this`gray, this`grayagain
      ensures Valid() && Abs() == PropagateMark(old(Abs()))
    {
      var r := TakeGray();
      assert Traversable(HeapOf(heap), gray);
      assert HeapOf(heap)[r].slots == heap[r].slots;
      MarkSlots(heap[r].slots);
    }

    lemma MarkingReady()
      requires Marking(Abs()) && gray != []
      ensures GrayReady() && Marking(PropagateMark(Abs()))
    {
      PropagateMarkInv(Abs());
    }

    /** propagateall */
    method PropagateRest()
      requires Valid() && Marking(Abs())
      modifies this`heap, this`gray, this`grayagain
      ensures Valid() && Abs() == PropagateAll(old(Abs()))
      ensures MarkInv(HeapOf(heap), [], grayagain, {}) && gray == [] && heap.Keys == old(heap.Keys)
    {
      PropagateAllInv(Abs());
      while gray != []
        invariant Valid() && Marking(Abs())
        invariant PropagateAll(Abs()) == PropagateAll(old(Abs()))
        decreases WhiteRefs(HeapOf(heap)), |gray|
      {
        PropagateMarkShrinks(Abs());
        MarkingReady();
        PropagateStep();
      }
    }

    /** The first half of markroot: the main thread. */
    method MarkMain()
      requires Valid() && SlotsAllocated(HeapOf(heap)) && main in heap
      modifies this`heap, this`gray, this`grayagain
      ensures Valid() && Abs() == MarkRefs(old(Abs()).(gray := [], grayagain := []), [To(main)])
      ensures Traversable(HeapOf(heap), gray) && heap.Keys == old(heap.Keys)
    {
      gray, grayagain := [], [];
      MarkSlots([To(main)]);
    }

    /** markroot */
    method Begin()
      requires Valid() && SlotsAllocated(HeapOf(heap)) && main in heap
      requires forall x | x in [registry] + mt && x.To? :: x.ref in heap
      modifies this`heap, this`gray, this`grayagain, this`gcstate
      ensures Valid() && Abs() == MarkRoot(old(Abs()))
    {
      MarkMain();
      MarkGlobals();
      gcstate := Propagate;
    }

    /** The second half of markroot: the table of globals, the registry and the basic metatables. */
    method MarkGlobals()
      requires Valid() && Traversable(HeapOf(heap), gray) && main in heap
      requires forall x | x in [registry] + mt && x.To? :: x.ref in heap
      modifies this`heap, this`gray
      ensures Valid() && Abs() == MarkRefs(old(Abs()), [Globals(old(HeapOf(heap)), main), registry] + mt)
    {
      var gt := if heap[main].slots != [] then heap[main].slots[0] else Plain;
      assert gt == Globals(HeapOf(heap), main);
      assert gt.To? ==> gt in HeapOf(heap)[main].slots && gt.ref in heap;
      assert [gt, registry] + mt == [gt] + ([registry] + mt);
      MarkSlots([gt, registry] + mt);
    }

    /** The second stage of atomic: the running thread and the basic metatables again. */
    method MarkRootsAgain()
      requires Valid() && Marking(Abs()) && SlotsKnown(Abs(), [To(running)] + mt)
      modifies this`heap, this`gray, this`grayagain
      ensures Valid() && Abs() == PropagateAll(MarkRefs(old(Abs()), [To(running)] + mt))
      ensures MarkInv(HeapOf(heap), [], grayagain, {})
    {
      MarkRootsOnly();
      PropagateRest();
    }

    method MarkRootsOnly()
      requires Valid() && Marking(Abs()) && SlotsKnown(Abs(), [To(running)] + mt)
      modifies this`heap, this`gray, this`grayagain
      ensures Valid() && Marking(Abs()) && Abs() == MarkRefs(old(Abs()), [To(running)] + mt)
    {
      MarkRefsInv(Abs(), [To(running)] + mt);
      MarkSlots([To(running)] + mt);
    }

    /** The last stage of atomic: threads, and tables caught by the backward barrier. */
    method MarkAgain()
      requires Valid() && MarkInv(HeapOf(heap), [], grayagain, {})
      modifies this`heap, this`gray, this`grayagain
      ensures Valid() && Abs() == PropagateAll(old(Abs()).(gray := old(grayagain), grayagain := []))
    {
      SwapLists(HeapOf(heap), grayagain);
      gray, grayagain := grayagain, [];
      PropagateRest();
    }

    /** atomic up to the flip of the white */
    method MarkRest()
      requires Valid() && Marking(Abs()) && SlotsKnown(Abs(), [To(running)] + mt)
      modifies this`heap, this`gray, this`grayagain
      ensures Valid() && Abs() == AtomicMark(old(Abs()))
    {
      PropagateRest();
      MarkRootsAgain();
      MarkAgain();
    }

    /** atomic */
    method Finish()
      requires Valid() && Marking(Abs()) && SlotsKnown(Abs(), [To(running)] + mt)
      modifies this`heap, this`gray, this`grayagain, this`currentwhite, this`sweepstrgc, this`sweepgc, this`gcstate
      ensures Valid() && Abs() == Atomic(old(Abs()))
    {
      MarkRest();
      FlipWhite();
    }

    /** The last lines of atomic. */
    method FlipWhite()
      requires Valid()
      modifies this`currentwhite, this`sweepstrgc, this`sweepgc, this`gcstate
      ensures Valid() && Abs() == Flip(old(Abs()))
    {
      MarkBits(Bits(false, false, false, false), currentwhite);
      currentwhite := OtherWhite(currentwhite);
      sweepstrgc, sweepgc := 0, 0;
      gcstate := SweepString;
    }

    // -------------------------------------------------------------- sweeping

    /** freeobj */
    method FreeObject(r: Ref)
      requires Valid()
      modifies this`heap
      ensures Valid() && HeapOf(heap) == old(HeapOf(heap)) - {r}
    {
      FreeCell(heap, r);
      heap := heap - {r};
    }

    /** The body of sweeplist's loop. */
    method SweepOne(list: seq<Ref>, pos: nat, ghost left: nat) returns (rest: seq<Ref>, next: nat)
      requires Valid() && SweptPrefix(HeapOf(heap), list, pos, currentwhite.white1) && pos < |list| && left > 0
      modifies this`heap
      ensures Valid() && SweptPrefix(HeapOf(heap), rest, next, currentwhite.white1)
      ensures SweepList(HeapOf(heap), rest, next, left - 1, currentwhite.white1)
           == SweepList(old(HeapOf(heap)), list, pos, left, currentwhite.white1)
    {
      var curr := list[pos];
      MarkBits(heap[curr].marked, currentwhite);
      if Survives(heap[curr].marked, currentwhite) {
        WhitenOne(HeapOf(heap), list, pos, currentwhite.white1);
        SetMark(curr, MakeWhite(heap[curr].marked, currentwhite));
        rest, next := list, pos + 1;
      } else {
        rest, next := list[..pos] + list[pos + 1..], pos;
        EraseOne(HeapOf(heap), list, pos, currentwhite.white1, HeapOf(heap) - {curr}, rest);
        FreeObject(curr);
      }
    }

    /** sweeplist, over the list that starts at `list[start]` */
    method SweepOver(list: seq<Ref>, start: nat, count: nat) returns (rest: seq<Ref>, pos: nat)
      requires Valid() && SweptPrefix(HeapOf(heap), list, start, currentwhite.white1)
      modifies this`heap
      ensures Valid()
              && Swept(HeapOf(heap), rest, pos) == SweepList(old(HeapOf(heap)), list, start, count, currentwhite.white1)
    {
      rest, pos := list, start;
      var left := count;
      while pos < |rest| && left > 0
        invariant Valid() && SweptPrefix(HeapOf(heap), rest, pos, currentwhite.white1)
        invariant SweepList(HeapOf(heap), rest, pos, left, currentwhite.white1)
               == SweepList(old(HeapOf(heap)), list, start, count, currentwhite.white1)
        decreases left
      {
        rest, pos := SweepOne(rest, pos, left);
        left := left - 1;
      }
    }

    /** The GCSsweepstring step: one whole bucket. */
    method SweepStrings()
      requires Valid() && sweepstrgc < |strt|
      requires SweptPrefix(HeapOf(heap), strt[sweepstrgc], 0, currentwhite.white1)
      modifies this`heap, this`strt, this`sweepstrgc, this`gcstate
      ensures Valid() && Abs() == SweepBucket(old(Abs()))
    {
      var bucket := strt[sweepstrgc];
      var rest, _ := SweepOver(bucket, 0, |bucket|);
      strt := strt[sweepstrgc := rest];
      sweepstrgc := sweepstrgc + 1;
      gcstate := if sweepstrgc >= |strt| then Sweep else SweepString;
    }

    /** The GCSsweep step. */
    method SweepRoots()
      requires Valid() && SweptPrefix(HeapOf(heap), rootgc, sweepgc, currentwhite.white1)
      modifies this`heap, this`rootgc, this`sweepgc, this`gcstate
      ensures Valid() && Abs() == SweepSome(old(Abs()))
    {
      rootgc, sweepgc := SweepOver(rootgc, sweepgc, GCSWEEPMAX);
      gcstate := if sweepgc >= |rootgc| then Finalize else Sweep;
    }

    // -------------------------------------------------------------- the mutator's side

    /** The mutator stores a live value: the barrier keeps the collector's invariant. */
    method StoreSlot(o: Ref, i: nat, x: Slot)
      requires Valid() && Inv(Abs()) && o in heap && i < |heap[o].slots|
               && LiveSlot(HeapOf(heap), currentwhite.white1, x)
      modifies this`heap, this`gray, this`grayagain
      ensures Valid() && Abs() == Write(old(Abs()), o, i, x) && Inv(Abs())
      ensures heap.Keys == old(heap.Keys) && heap[o].slots == old(heap)[o].slots[i := x]
      ensures forall r | r in heap && r != o :: heap[r].slots == old(heap)[r].slots
      ensures forall r | r in heap ::
                heap[r].kind == old(heap)[r].kind && heap[r].marked.fixed == old(heap)[r].marked.fixed
    {
      WriteInv(Abs(), o, i, x);
      LuaGcIdeal.WriteStores(Abs(), o, i, x);
      ghost var before := heap;
      if gcstate.Propagate? { MarkingStateReady(); }
      WriteSlot(o, i, x);
      SlotsStored(before, heap, o, i, x);
    }

    /** Stores into a slot and runs the barrier macro for the kind of object written to. */
    method WriteSlot(o: Ref, i: nat, x: Slot)
      requires Valid() && (gcstate.Propagate? ==> Traversable(HeapOf(heap), gray))
      requires o in heap && i < |heap[o].slots| && (x.To? ==> x.ref in heap)
      modifies this`heap, this`gray, this`grayagain
      ensures Valid() && Abs() == Write(old(Abs()), o, i, x)
    {
      PutSlot(o, i, x);
      assert HeapOf(heap)[o] == ObjOf(heap[o]);
      MarkBits(heap[o].marked, currentwhite);
      if x.To? {
        assert HeapOf(heap)[x.ref] == ObjOf(heap[x.ref]);
        MarkBits(heap[x.ref].marked, currentwhite);
        if WhiteBit(heap[x.ref].marked) && heap[o].marked.black && !heap[o].kind.Thread? {
          if heap[o].kind.Table? { BarrierBackward(o); } else { BarrierForth(o, x.ref); }
        }
      }
    }

    method PutSlot(o: Ref, i: nat, x: Slot)
      requires Valid() && o in heap && i < |heap[o].slots| && (x.To? ==> x.ref in heap)
      modifies this`heap
      ensures Valid() && Abs() == old(Abs()).(heap := SetSlot(old(HeapOf(heap)), o, i, x))
      ensures old(SlotsAllocated(HeapOf(heap))) ==> SlotsAllocated(HeapOf(heap))
      ensures heap == old(heap)[o := old(heap)[o].(slots := old(heap)[o].slots[i := x])]
    {
      SetCell(heap, o, heap[o].(slots := heap[o].slots[i := x]));
      heap := heap[o := heap[o].(slots := heap[o].slots[i := x])];
    }

    /** luaC_barrierback */
    method BarrierBackward(t: Ref)
      requires Valid() && t in heap && ColorOf(heap[t].marked).Black?
      modifies this`heap, this`grayagain
      ensures Valid() && Abs() == BarrierBack(old(Abs()), t)
    {
      MarkBits(heap[t].marked, currentwhite);
      SetMark(t, Black2Gray(heap[t].marked));
      grayagain := [t] + grayagain;
    }

    /** luaC_barrierf */
    method BarrierForth(o: Ref, v: Ref)
      requires Valid() && (gcstate.Propagate? ==> Traversable(HeapOf(heap), gray)) && o in heap
               && IsWhite(HeapOf(heap), v)
      modifies this`heap, this`gray
      ensures Valid() && Abs() == BarrierForward(old(Abs()), o, v)
    {
      if gcstate.Propagate? {
        ReallyMarkObject(v);
      } else {
        MarkBits(heap[o].marked, currentwhite);
        SetMark(o, MakeWhite(heap[o].marked, currentwhite));
      }
    }

    /** luaC_link and luaS_newudata: a new object at the head of the root list or behind the main thread. */
    method NewObject(kind: Kind, r: Ref, n: nat, bucket: nat)
      requires Valid() && r !in heap && (kind.String? ==> n == 0 && bucket < |strt|)
      modifies this`heap, this`strt, this`rootgc, this`sweepgc
      ensures Valid() && Abs() == New(old(Abs()), kind, r, n, bucket)
    {
      MarkBits(Bits(false, false, false, false), currentwhite);
      var cell := Cell(kind, NewWhite(currentwhite), seq(n, _ => Plain));
      SetCell(heap, r, cell);
      heap := heap[r := cell];
      match kind
      case String => strt := strt[bucket := [r] + strt[bucket]];
      case Userdata =>
        var k := IndexOf(rootgc, main);
        LinkAt(r, if k < |rootgc| then k + 1 else k);
      case _ => LinkAt(r, 0);
    }

    method LinkAt(r: Ref, at: nat)
      requires at <= |rootgc|
      modifies this`rootgc, this`sweepgc
      ensures Abs() == Link(old(Abs()), r, at)
    {
      rootgc := rootgc[..at] + [r] + rootgc[at..];
      if sweepgc > at { sweepgc := sweepgc + 1; }
    }

    /** The branch of luaS_newlstr that finds the string already there. */
    method ReuseString(r: Ref)
      requires Valid() && r in heap
      modifies this`heap
      ensures Valid() && Abs() == LuaGcState.Intern(old(Abs()), r)
    {
      MarkBits(heap[r].marked, currentwhite);
      assert HeapOf(heap)[r] == ObjOf(heap[r]);
      if IsDead(heap[r].marked, currentwhite) {
        SetMark(r, ChangeWhite(heap[r].marked));
      }
    }

    /** The start of luaC_fullgc. */
    method GiveUpMarking()
      requires Valid()
      modifies this`gray, this`grayagain, this`sweepstrgc, this`sweepgc, this`gcstate
      ensures Valid() && Abs() == AbandonMark(old(Abs()))
    {
      if gcstate.Pause? || gcstate.Propagate? {
        sweepstrgc, sweepgc := 0, 0;
        gray, grayagain := [], [];
        gcstate := SweepString;
      }
    }

    // -------------------------------------------------------------- steps

    lemma BucketReady()
      requires Inv(Abs()) && gcstate.SweepString?
      ensures sweepstrgc < |strt| && SweptPrefix(HeapOf(heap), strt[sweepstrgc], 0, currentwhite.white1)
    {
      assert forall r | r in strt[sweepstrgc] :: InBucket(strt, r, sweepstrgc);
    }

    lemma MarkingStateReady()
      requires Inv(Abs()) && (gcstate.Pause? || gcstate.Propagate? || gcstate.Finalize?)
      ensures SlotsAllocated(HeapOf(heap)) && main in heap
      ensures forall x | x in [registry] + mt && x.To? :: x.ref in heap
      ensures gcstate.Propagate? ==> Marking(Abs()) && SlotsKnown(Abs(), [To(running)] + mt)
    {
      ClosedKnown(Abs());
      var roots := [To(main), To(running), registry] + mt;
      assert forall x | x in mt || x == registry || x == To(running) :: x in roots by {
        assert roots[1] == To(running) && roots[2] == registry;
      }
    }

    /** singlestep: what it computes, and that nothing reachable is freed. */
    method Step()
      requires Valid() && Inv(Abs())
      modifies this
      ensures Valid() && Abs() == SingleStep(old(Abs())) && Inv(Abs())
      ensures forall r | old(Reachable(Abs(), r)) :: r in heap
    {
      ghost var s := Abs();
      StepSafe(s);
      match gcstate
      case Pause =>
        MarkingStateReady();
        Begin();
      case Propagate =>
        MarkingStateReady();
        if gray != [] {
          MarkingReady();
          PropagateStep();
        } else {
          Finish();
        }
      case SweepString =>
        BucketReady();
        SweepStrings();
      case Sweep => SweepRoots();
      case Finalize => gcstate := Pause;
    }

    /** The loops of luaC_fullgc. */
    method StepUntil(stop: Phase)
      requires Valid() && Inv(Abs()) && (stop.Pause? || (stop.Finalize? && !gcstate.Pause?))
      modifies this
      ensures Valid() && Inv(Abs()) && Abs() == LuaGcFull.RunUntil(old(Abs()), stop)
    {
      while gcstate != stop
        invariant Valid() && Inv(Abs()) && (stop.Finalize? ==> !gcstate.Pause?)
        invariant LuaGcFull.RunUntil(Abs(), stop) == LuaGcFull.RunUntil(old(Abs()), stop)
        decreases LuaGcFull.PhasesLeft(gcstate, stop), LuaGcFull.WhiteLeft(Abs()), LuaGcFull.Left(Abs())
      {
        LuaGcFull.StepNearer(Abs(), stop);
        Step();
      }
    }

    /** luaC_fullgc, as far as collecting goes: what is left is what can be reached, and what is fixed. */
    method FullGc()
      requires Valid() && Inv(Abs())
      modifies this
      ensures Valid() && Inv(Abs()) && Abs() == LuaGcFull.FullGc(old(Abs()))
      ensures forall r :: r in heap <==> old(r in heap && (Reachable(Abs(), r) || heap[r].marked.fixed))
    {
      ghost var s := Abs();
      LuaGcFull.FullGcExact(s);
      AbandonMarkInv(s);
      GiveUpMarking();
      StepUntil(Finalize);
      MarkingStateReady();
      ghost var clean := Abs().(phase := Pause);
      MarkRootInv(clean);
      Begin();
      assert Abs() == MarkRoot(clean);
      StepUntil(Pause);
    }
  }

  lemma StepSafe(s: State)
    requires Inv(s)
    ensures Inv(SingleStep(s)) && forall r | Reachable(s, r) :: r in SingleStep(s).heap
  {
    SingleStepInv(s);
    forall r | Reachable(s, r) ensures r in SingleStep(s).heap {
      ReachableLive(s, r);
    }
  }
}
