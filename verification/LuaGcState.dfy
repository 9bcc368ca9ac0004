/** The Lua 5.1 incremental collector as a state machine: what each collector step and each
    mutator operation computes (lua/lgc.c, lua/lgc.h). */
module LuaGcState {
  /** The address of a collectable object. */
  type Ref = nat

  /** `UpVal` is a closed upvalue; a thread's slot 0 is its table of globals. */
  datatype Kind = String | Table | Function | Userdata | Thread | Proto | UpVal

  /** The three colours, with the two whites of lgc.h told apart by `bit`. */
  datatype Color = White(bit: bool) | Gray | Black

  /** A stack slot, table entry, upvalue or field: a plain value or a reference. */
  datatype Slot = Plain | To(ref: Ref)

  datatype Obj = Obj(kind: Kind, color: Color, fixed: bool, slots: seq<Slot>)

  type Heap = map<Ref, Obj>

  datatype Phase = Pause | Propagate | SweepString | Sweep | Finalize

  datatype State = State(
    heap: Heap,
    main: Ref, running: Ref, registry: Slot, mt: seq<Slot>,
    phase: Phase, current: bool,
    gray: seq<Ref>, grayagain: seq<Ref>,
    strt: seq<seq<Ref>>, sweepstrgc: nat,
    rootgc: seq<Ref>, sweepgc: nat)

  const GCSWEEPMAX: nat := 40

  // ---------------------------------------------------------------- marking

  predicate IsWhite(h: Heap, r: Ref) {
    r in h && h[r].color.White?
  }

  function WhiteRefs(h: Heap): set<Ref> {
    set r | r in h && h[r].color.White?
  }

  function Paint(h: Heap, r: Ref, c: Color): Heap
    requires r in h
  {
    h[r := h[r].(color := c)]
  }

  /** The part of the state that marking changes. */
  datatype Marks = Marks(heap: Heap, gray: seq<Ref>)

  /** reallymarkobject */
  function ReallyMark(m: Marks, r: Ref): (m': Marks)
    requires IsWhite(m.heap, r)
    ensures WhiteRefs(m'.heap) < WhiteRefs(m.heap)
    decreases WhiteRefs(m.heap), 0
  {
    match m.heap[r].kind
    case String =>
      assert r in WhiteRefs(m.heap) - WhiteRefs(Paint(m.heap, r, Gray));
      Marks(Paint(m.heap, r, Gray), m.gray)
    case Userdata =>
      assert r in WhiteRefs(m.heap) - WhiteRefs(Paint(m.heap, r, Black));
      MarkAll(Marks(Paint(m.heap, r, Black), m.gray), m.heap[r].slots)
    case UpVal =>
      assert r in WhiteRefs(m.heap) - WhiteRefs(Paint(m.heap, r, Gray));
      var m1 := MarkAll(Marks(Paint(m.heap, r, Gray), m.gray), m.heap[r].slots);
      if r in m1.heap then Marks(Paint(m1.heap, r, Black), m1.gray) else m1
    case _ =>
      assert r in WhiteRefs(m.heap) - WhiteRefs(Paint(m.heap, r, Gray));
      Marks(Paint(m.heap, r, Gray), [r] + m.gray)
  }

  /** markvalue and markobject: only white objects are marked. */
  function MarkSlot(m: Marks, x: Slot): (m': Marks)
    ensures m' == m || WhiteRefs(m'.heap) < WhiteRefs(m.heap)
    decreases WhiteRefs(m.heap), 1
  {
    if x.To? && IsWhite(m.heap, x.ref) then ReallyMark(m, x.ref) else m
  }

  /** The marking loops over array entries, stack slots, constants, upvalues and metatables. */
  function MarkAll(m: Marks, slots: seq<Slot>): (m': Marks)
    ensures m' == m || WhiteRefs(m'.heap) < WhiteRefs(m.heap)
    decreases WhiteRefs(m.heap), |slots| + 1
  {
    if slots == [] then m else MarkAll(MarkSlot(m, slots[0]), slots[1..])
  }

  function MarkRefs(s: State, slots: seq<Slot>): State {
    var m := MarkAll(Marks(s.heap, s.gray), slots);
    s.(heap := m.heap, gray := m.gray)
  }

  /** propagatemark: a thread is traversed but kept gray, to be traversed again in atomic. */
  function PropagateMark(s: State): State
    requires s.gray != []
  {
    var r := s.gray[0];
    if r !in s.heap then s.(gray := s.gray[1..])
    else if s.heap[r].kind.Thread? then
      var s1 := s.(heap := Paint(s.heap, r, Gray), gray := s.gray[1..], grayagain := [r] + s.grayagain);
      MarkRefs(s1, s.heap[r].slots)
    else
      var s1 := s.(heap := Paint(s.heap, r, Black), gray := s.gray[1..]);
      MarkRefs(s1, s.heap[r].slots)
  }

  lemma PropagateMarkShrinks(s: State)
    requires s.gray != []
    ensures WhiteRefs(PropagateMark(s).heap) < WhiteRefs(s.heap)
         || (WhiteRefs(PropagateMark(s).heap) == WhiteRefs(s.heap) && |PropagateMark(s).gray| < |s.gray|)
  {
    var r := s.gray[0];
    if r in s.heap {
      var c := if s.heap[r].kind.Thread? then Gray else Black;
      assert WhiteRefs(Paint(s.heap, r, c)) == WhiteRefs(s.heap) - {r};
    }
  }

  /** propagateall */
  function PropagateAll(s: State): State
    decreases WhiteRefs(s.heap), |s.gray|
  {
    if s.gray == [] then s
    else
      PropagateMarkShrinks(s);
      PropagateAll(PropagateMark(s))
  }

  /** gt(l): the global table of a thread. */
  function Globals(h: Heap, th: Ref): Slot {
    if th in h && h[th].slots != [] then h[th].slots[0] else Plain
  }

  /** markroot, started in GCSpause */
  function MarkRoot(s: State): State {
    var s1 := MarkRefs(s.(gray := [], grayagain := []), [To(s.main)]);
    MarkRefs(s1, [Globals(s1.heap, s.main), s.registry] + s.mt).(phase := Propagate)
  }

  /** The marking done by atomic, before the white is flipped. */
  function AtomicMark(s: State): State {
    var s1 := PropagateAll(s);
    var s2 := PropagateAll(MarkRefs(s1, [To(s.running)] + s.mt));
    PropagateAll(s2.(gray := s2.grayagain, grayagain := []))
  }

  function Flip(s: State): State {
    s.(current := !s.current, sweepstrgc := 0, sweepgc := 0, phase := SweepString)
  }

  function Atomic(s: State): State {
    Flip(AtomicMark(s))
  }

  // ---------------------------------------------------------------- sweeping

  /** Carries the other white and is not fixed: what sweeplist erases. */
  predicate DeadObj(o: Obj, current: bool) {
    o.color == White(!current) && !o.fixed
  }

  predicate Dead(s: State, r: Ref) {
    r in s.heap && DeadObj(s.heap[r], s.current)
  }

  /** A collector list with the position its sweep has reached. */
  datatype Swept = Swept(heap: Heap, list: seq<Ref>, pos: nat)

  /** sweeplist from `pos`, at most `count` objects. */
  function SweepList(heap: Heap, list: seq<Ref>, pos: nat, count: nat, current: bool): Swept
    decreases count
  {
    if pos >= |list| || count == 0 then Swept(heap, list, pos)
    else
      var r := list[pos];
      if r in heap && DeadObj(heap[r], current) then
        SweepList(heap - {r}, list[..pos] + list[pos + 1..], pos, count - 1, current)
      else
        SweepList(if r in heap then Paint(heap, r, White(current)) else heap, list, pos + 1, count - 1, current)
  }

  /** One GCSsweepstring step: the whole of one bucket of the string table. */
  function SweepBucket(s: State): State
    requires s.sweepstrgc < |s.strt|
  {
    var b := s.strt[s.sweepstrgc];
    var w := SweepList(s.heap, b, 0, |b|, s.current);
    var next := s.sweepstrgc + 1;
    s.(heap := w.heap, strt := s.strt[s.sweepstrgc := w.list], sweepstrgc := next,
       phase := if next >= |s.strt| then Sweep else SweepString)
  }

  /** One GCSsweep step over the root list. */
  function SweepSome(s: State): State {
    var w := SweepList(s.heap, s.rootgc, s.sweepgc, GCSWEEPMAX, s.current);
    s.(heap := w.heap, rootgc := w.list, sweepgc := w.pos,
       phase := if w.pos >= |w.list| then Finalize else Sweep)
  }

  function SingleStep(s: State): State {
    match s.phase
    case Pause => MarkRoot(s)
    case Propagate => if s.gray != [] then PropagateMark(s) else Atomic(s)
    case SweepString => if s.sweepstrgc < |s.strt| then SweepBucket(s) else s
    case Sweep => SweepSome(s)
    case Finalize => s.(phase := Pause)
  }

  /** The first branch of luaC_fullgc: give up marking and sweep everything back to white. */
  function AbandonMark(s: State): State {
    if s.phase.Pause? || s.phase.Propagate? then
      s.(sweepstrgc := 0, sweepgc := 0, gray := [], grayagain := [], phase := SweepString)
    else s
  }

  // ---------------------------------------------------------------- the mutator

  function SetSlot(h: Heap, o: Ref, i: nat, x: Slot): Heap
    requires o in h && i < |h[o].slots|
  {
    h[o := h[o].(slots := h[o].slots[i := x])]
  }

  /** luaC_barrierf */
  function BarrierForward(s: State, o: Ref, v: Ref): State
    requires o in s.heap && IsWhite(s.heap, v)
  {
    if s.phase.Propagate? then
      var m := ReallyMark(Marks(s.heap, s.gray), v);
      s.(heap := m.heap, gray := m.gray)
    else s.(heap := Paint(s.heap, o, White(s.current)))
  }

  /** luaC_barrierback */
  function BarrierBack(s: State, t: Ref): State
    requires t in s.heap
  {
    s.(heap := Paint(s.heap, t, Gray), grayagain := [t] + s.grayagain)
  }

  /** Stores `x` in a slot of `o` and runs the barrier its kind calls for: luaC_barriert for a
      table, luaC_barrier for everything else but a thread, whose stack has none. */
  function Write(s: State, o: Ref, i: nat, x: Slot): State
    requires o in s.heap && i < |s.heap[o].slots|
  {
    var s1 := s.(heap := SetSlot(s.heap, o, i, x));
    if s1.heap[o].kind.Thread? || !(x.To? && IsWhite(s1.heap, x.ref)) || !s1.heap[o].color.Black? then s1
    else if s1.heap[o].kind.Table? then BarrierBack(s1, o)
    else BarrierForward(s1, o, x.ref)
  }

  function IndexOf(list: seq<Ref>, r: Ref): (k: nat)
    ensures k <= |list|
    ensures r in list ==> k < |list| && list[k] == r
  {
    if list == [] || list[0] == r then 0 else 1 + IndexOf(list[1..], r)
  }

  /** Links `r` into the root list at `at`; the sweep pointer stays with the cell it points at. */
  function Link(s: State, r: Ref, at: nat): State
    requires at <= |s.rootgc|
  {
    s.(rootgc := s.rootgc[..at] + [r] + s.rootgc[at..], sweepgc := if s.sweepgc <= at then s.sweepgc else s.sweepgc + 1)
  }

  /** Allocates `r` with `n` empty slots, white: a string goes into bucket `b` of the string
      table, a userdata behind the main thread, everything else to the head of the root list. */
  function New(s: State, kind: Kind, r: Ref, n: nat, b: nat): State {
    var s1 := s.(heap := s.heap[r := Obj(kind, White(s.current), false, seq(n, _ => Plain))]);
    match kind
    case String => if b < |s.strt| then s1.(strt := s.strt[b := [r] + s.strt[b]]) else s1
    case Userdata =>
      var k := IndexOf(s.rootgc, s.main);
      Link(s1, r, if k < |s.rootgc| then k + 1 else k)
    case _ => Link(s1, r, 0)
  }

  /** The reuse of an interned string by luaS_newlstr: a dead one is resurrected. */
  function Intern(s: State, r: Ref): State
    requires r in s.heap
  {
    if s.heap[r].color == White(!s.current) then s.(heap := Paint(s.heap, r, White(s.current))) else s
  }

  function Resize(h: Heap, o: Ref, n: nat): Heap
    requires o in h
  {
    var was := h[o].slots;
    h[o := h[o].(slots := if n <= |was| then was[..n] else was + seq(n - |was|, _ => Plain))]
  }

  ghost predicate NoDup(s: seq<Ref>) {
    forall i, j | 0 <= i < j < |s| :: s[i] != s[j]
  }

  ghost predicate InBucket(strt: seq<seq<Ref>>, r: Ref, b: nat) {
    b < |strt| && r in strt[b]
  }

  /** The same strings in other buckets, each once: what luaS_resize makes of the string table. */
  ghost predicate Regrouped(strt: seq<seq<Ref>>, to: seq<seq<Ref>>) {
    && |to| > 0
    && (forall b | 0 <= b < |to| :: NoDup(to[b]))
    && (forall r, b, c | InBucket(to, r, b) && InBucket(to, r, c) :: b == c)
    && (forall r, b | InBucket(to, r, b) :: exists c :: InBucket(strt, r, c))
    && (forall r, c | InBucket(strt, r, c) :: exists b :: InBucket(to, r, b))
  }

  /** What can happen between two instructions of the virtual machine. */
  datatype Op =
    | Collect
    | FullGcReset
    | Allocate(kind: Kind, r: Ref, n: nat, bucket: nat, dest: nat)
    | Store(o: Ref, i: nat, x: Slot)
    | SetMetatable(tag: nat, x: Slot)
    | SetRegistry(x: Slot)
    | Resume(thread: Ref)
    | InternString(str: Ref, dest: nat)
    | FixString(str: Ref)
    | ResizeObject(o: Ref, n: nat)
    | ResizeStrings(to: seq<seq<Ref>>)

  // ---------------------------------------------------------------- reachability

  predicate IsRoot(s: State, r: Ref) {
    r == s.main || r == s.running || s.registry == To(r) || To(r) in s.mt
  }

  /** `path` leads from a root, following slots of objects that are still allocated. */
  ghost predicate RootPath(s: State, path: seq<Ref>) {
    && path != []
    && IsRoot(s, path[0])
    && forall i | 0 <= i < |path| - 1 :: path[i] in s.heap && To(path[i + 1]) in s.heap[path[i]].slots
  }

  ghost predicate Reachable(s: State, r: Ref) {
    exists path :: RootPath(s, path) && path[|path| - 1] == r
  }

  ghost predicate ReachableSlot(s: State, x: Slot) {
    x.To? ==> Reachable(s, x.ref)
  }

  /** The mutator only handles values it can reach; an allocation gets an unused address. The registry has no
      barrier: lua_newstate sets it before any marking. */
  ghost predicate Enabled(s: State, op: Op) {
    match op
    case Collect => true
    case FullGcReset => true
    case Allocate(kind, r, n, b, dest) =>
      && r !in s.heap
      && (kind.String? ==> n == 0 && b < |s.strt|)
      && s.running in s.heap && dest < |s.heap[s.running].slots|
    case Store(o, i, x) =>
      Reachable(s, o) && o in s.heap && i < |s.heap[o].slots| && ReachableSlot(s, x)
    case SetMetatable(tag, x) => tag < |s.mt| && ReachableSlot(s, x)
    case SetRegistry(x) => ReachableSlot(s, x) && (s.phase.Propagate? && x.To? ==> !IsWhite(s.heap, x.ref))
    case Resume(th) => Reachable(s, th) && th in s.heap && s.heap[th].kind.Thread?
    case InternString(r, dest) =>
      && r in s.heap && s.heap[r].kind.String?
      && s.running in s.heap && dest < |s.heap[s.running].slots|
    case FixString(r) => Reachable(s, r) && r in s.heap && s.heap[r].kind.String?
    case ResizeObject(o, n) => Reachable(s, o) && o in s.heap && !s.heap[o].kind.String?
    case ResizeStrings(to) => Regrouped(s.strt, to)
  }

  ghost function Apply(s: State, op: Op): State
    requires Enabled(s, op)
  {
    match op
    case Collect => SingleStep(s)
    case FullGcReset => AbandonMark(s)
    case Allocate(kind, r, n, b, dest) =>
      // the new object is anchored in the running thread's stack before anything else happens
      var s1 := New(s, kind, r, n, b);
      Write(s1, s.running, dest, To(r))
    case Store(o, i, x) => Write(s, o, i, x)
    case SetMetatable(tag, x) => s.(mt := s.mt[tag := x])
    case SetRegistry(x) => s.(registry := x)
    case Resume(th) => s.(running := th)
    case InternString(r, dest) => Write(Intern(s, r), s.running, dest, To(r))
    case FixString(r) => s.(heap := s.heap[r := s.heap[r].(fixed := true)])
    case ResizeObject(o, n) => s.(heap := Resize(s.heap, o, n))
    case ResizeStrings(to) => if s.phase.SweepString? then s else s.(strt := to)
  }
}
