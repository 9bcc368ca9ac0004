/** The jump lists of Lua's code generator (lua/lcode.c): jumps whose target is not known yet
    are chained through their own operands, appended to one another and patched in place. */
module LuaJumpLists {
  /** The operators that matter here; the rest by number. */
  datatype Op = JMP | FORLOOP | FORPREP | EQ | LT | LE | TEST | TESTSET | TFORLOOP | PLAIN(id: nat)

  type Reg = x: int | 0 <= x < 256

  type Arg = x: int | 0 <= x < 0x4_0000

  /** An instruction; bx holds b in its upper and c in its lower nine bits. */
  datatype Instr = Instr(op: Op, a: Reg, bx: Arg) {
    function B(): nat {
      bx / 512
    }

    function C(): nat {
      bx % 512
    }

    /** The signed operand, kept in excess MAX_SBX. */
    function SBx(): int {
      bx - MAX_SBX
    }
  }

  const NO_JUMP: int := -1
  const NO_REG: Reg := 255
  const MAX_SBX: int := 0x1_FFFF

  /** Operators with a signed operand. */
  predicate IsJump(op: Op) {
    op == JMP || op == FORLOOP || op == FORPREP
  }

  /** testTMode: operators that are followed by a jump. */
  predicate IsTest(op: Op) {
    op == EQ || op == LT || op == LE || op == TEST || op == TESTSET || op == TFORLOOP
  }

  predicate Fits(offset: int) {
    -MAX_SBX <= offset <= MAX_SBX
  }

  function WithSBx(i: Instr, offset: int): Instr
    requires Fits(offset)
  {
    i.(bx := offset + MAX_SBX)
  }

  /** Where the jump at pc goes. */
  function Dest(code: seq<Instr>, pc: nat): int
    requires pc < |code|
  {
    pc + 1 + code[pc].SBx()
  }

  /** getjump: the jump after this one in its list; a jump to itself is the last. */
  function GetJump(code: seq<Instr>, pc: nat): int
    requires pc < |code|
  {
    if code[pc].SBx() == NO_JUMP then NO_JUMP else pc + 1 + code[pc].SBx()
  }

  /** getjumpcontrol */
  function Control(code: seq<Instr>, pc: nat): nat
    requires pc < |code|
  {
    if pc >= 1 && IsTest(code[pc - 1].op) then pc - 1 else pc
  }

  // ---------------------------------------------------------------- lists

  function Head(l: seq<int>): int {
    if l == [] then NO_JUMP else l[0]
  }

  predicate ChainAt(code: seq<Instr>, l: seq<int>, k: nat)
    requires k < |l|
  {
    && 0 <= l[k] < |code| && IsJump(code[l[k]].op)
    && GetJump(code, l[k]) == if k + 1 < |l| then l[k + 1] else NO_JUMP
  }

  /** The jumps of l are chained in this order. */
  ghost predicate Chain(code: seq<Instr>, l: seq<int>) {
    forall k | 0 <= k < |l| :: ChainAt(code, l, k)
  }

  /** A chain that ends has no cycle. */
  lemma {:induction false} ChainAcyclic(code: seq<Instr>, l: seq<int>, i: nat, j: nat)
    requires Chain(code, l) && i < j < |l|
    ensures l[i] != l[j]
    decreases |l| - j
  {
    if l[i] == l[j] {
      assert ChainAt(code, l, i) && ChainAt(code, l, j) && ChainAt(code, l, i + 1);
      if j + 1 < |l| {
        ChainAcyclic(code, l, i + 1, j + 1);
      }
    }
  }

  /** The first jump determines the list. */
  lemma {:induction false} ChainUnique(code: seq<Instr>, l: seq<int>, m: seq<int>)
    requires Chain(code, l) && Chain(code, m) && Head(l) == Head(m)
    ensures l == m
  {
    assert (l != [] ==> ChainAt(code, l, 0)) && (m != [] ==> ChainAt(code, m, 0));
    if l != [] && m != [] {
      ChainTail(code, l);
      ChainTail(code, m);
      ChainUnique(code, l[1..], m[1..]);
      assert l == [l[0]] + l[1..] && m == [m[0]] + m[1..];
    }
  }

  lemma ChainTail(code: seq<Instr>, l: seq<int>)
    requires Chain(code, l) && l != []
    ensures ChainAt(code, l, 0) && Chain(code, l[1..]) && Head(l[1..]) == GetJump(code, l[0])
  {
    assert ChainAt(code, l, 0);
    forall k | 0 <= k < |l[1..]| ensures ChainAt(code, l[1..], k) {
      assert ChainAt(code, l, k + 1);
    }
  }

  lemma ChainJumps(code: seq<Instr>, l: seq<int>)
    requires Chain(code, l)
    ensures forall m | m in l :: 0 <= m < |code| && IsJump(code[m].op)
  {
    forall m | m in l ensures 0 <= m < |code| && IsJump(code[m].op) {
      var k :| 0 <= k < |l| && l[k] == m;
      assert ChainAt(code, l, k);
    }
  }

  /** Changes elsewhere leave a chain alone. */
  lemma ChainKept(code: seq<Instr>, after: seq<Instr>, l: seq<int>)
    requires Chain(code, l) && |code| <= |after|
    requires forall m | m in l && 0 <= m < |code| :: after[m] == code[m]
    ensures Chain(after, l)
  {
    forall k | 0 <= k < |l| ensures ChainAt(after, l, k) {
      assert ChainAt(code, l, k) && l[k] in l;
    }
  }

  // ---------------------------------------------------------------- appending

  /** Two lists can be joined if the last jump of the first reaches the second. */
  predicate CanLink(l: seq<int>, m: seq<int>) {
    l != [] && m != [] ==> Fits(m[0] - (l[|l| - 1] + 1))
  }

  /** The code after the last jump of l has been made to point to m. */
  ghost function Linked(code: seq<Instr>, l: seq<int>, m: seq<int>): (r: seq<Instr>)
    requires CanLink(l, m) && Chain(code, l)
    ensures |r| == |code|
  {
    if l == [] || m == [] then code
    else
      assert ChainAt(code, l, |l| - 1);
      code[l[|l| - 1] := WithSBx(code[l[|l| - 1]], m[0] - (l[|l| - 1] + 1))]
  }

  /** Linking two lists without a common jump appends them. */
  lemma LinkAppends(code: seq<Instr>, l: seq<int>, m: seq<int>)
    requires Chain(code, l) && Chain(code, m) && CanLink(l, m)
    requires forall x | x in l :: x !in m
    ensures Chain(Linked(code, l, m), l + m)
  {
    if l == [] {
      assert l + m == m;
    } else if m == [] {
      assert l + m == l;
    } else {
      var after := Linked(code, l, m);
      var last := l[|l| - 1];
      assert last in l && m[0] in m && m[0] != last;
      forall k | 0 <= k < |l + m| ensures ChainAt(after, l + m, k) {
        if k < |l| {
          assert ChainAt(code, l, k);
        }
        if k < |l| - 1 {
          ChainAcyclic(code, l, k, |l| - 1);
        } else if k >= |l| {
          assert ChainAt(code, m, k - |l|) && m[k - |l|] in m;
        }
      }
    }
  }

  // ---------------------------------------------------------------- patching

  /** patchtestreg on a TESTSET: it stores into reg, or becomes a TEST. */
  function PatchTest(i: Instr, reg: Reg): Instr
    requires i.B() < 256
  {
    if reg != NO_REG && reg != i.B() then i.(a := reg) else Instr(TEST, i.B(), i.C())
  }

  /** The new target of the jump at m: the first one if a TESTSET controls it. */
  function Target(code: seq<Instr>, m: nat, vtarget: int, dtarget: int): int
    requires m < |code|
  {
    if code[Control(code, m)].op == TESTSET then vtarget else dtarget
  }

  predicate CanPatch(code: seq<Instr>, l: seq<int>, vtarget: int, dtarget: int) {
    forall m | m in l && 0 <= m < |code| :: Fits(Target(code, m, vtarget, dtarget) - (m + 1))
  }

  predicate TestsStoreRegisters(code: seq<Instr>) {
    forall p | 0 <= p < |code| :: code[p].op == TESTSET ==> code[p].B() < 256
  }

  /** The instruction at p once the jumps of l are patched: only these and their tests change. */
  function PatchedAt(code: seq<Instr>, l: seq<int>, vtarget: int, reg: Reg, dtarget: int, p: nat): Instr
    requires p < |code| && CanPatch(code, l, vtarget, dtarget) && TestsStoreRegisters(code)
  {
    if p in l then WithSBx(code[p], Target(code, p, vtarget, dtarget) - (p + 1))
    else if p + 1 in l && code[p].op == TESTSET then PatchTest(code[p], reg)
    else code[p]
  }

  function Patched(code: seq<Instr>, l: seq<int>, vtarget: int, reg: Reg, dtarget: int): (r: seq<Instr>)
    requires CanPatch(code, l, vtarget, dtarget) && TestsStoreRegisters(code)
    ensures |r| == |code| && forall p | 0 <= p < |code| :: r[p] == PatchedAt(code, l, vtarget, reg, dtarget, p)
  {
    seq(|code|, p requires 0 <= p < |code| => PatchedAt(code, l, vtarget, reg, dtarget, p))
  }

  /** The patched TESTSET stores into reg, or tests its own register if there is no reg or it is that one. */
  ghost predicate TestPatched(was: Instr, reg: Reg, now: Instr) {
    if reg == NO_REG || reg == was.B() then
      now.op == TEST && now.a == was.B() && now.B() == 0 && now.C() == was.C()
    else
      now.op == TESTSET && now.a == reg && now.B() == was.B() && now.C() == was.C()
  }

  /** A jump behind a TESTSET goes to vtarget, and that stores as it should; any other one goes to dtarget. */
  ghost predicate JumpPatched(code: seq<Instr>, after: seq<Instr>, m: int, vtarget: int, reg: Reg, dtarget: int) {
    && 0 <= m < |code| && |after| == |code| && after[m].op == code[m].op && after[m].a == code[m].a
    && (if m >= 1 && code[m - 1].op == TESTSET then
          Dest(after, m) == vtarget && TestPatched(code[m - 1], reg, after[m - 1])
        else
          Dest(after, m) == dtarget)
  }

  /** Patching leads every listed jump where it belongs, and changes nothing else but the TESTSETs before them. */
  lemma PatchedLands(code: seq<Instr>, l: seq<int>, vtarget: int, reg: Reg, dtarget: int)
    requires CanPatch(code, l, vtarget, dtarget) && TestsStoreRegisters(code)
    requires forall x | x in l :: 0 <= x < |code| && IsJump(code[x].op)
    ensures var after := Patched(code, l, vtarget, reg, dtarget);
      && (forall m | m in l :: JumpPatched(code, after, m, vtarget, reg, dtarget))
      && (forall p | 0 <= p < |code| && p !in l && !(p + 1 in l && code[p].op == TESTSET) :: after[p] == code[p])
  {
    var after := Patched(code, l, vtarget, reg, dtarget);
    forall m | m in l ensures JumpPatched(code, after, m, vtarget, reg, dtarget) {
      assert after[m] == PatchedAt(code, l, vtarget, reg, dtarget, m);
      if m >= 1 && code[m - 1].op == TESTSET {
        var p := m - 1;
        assert p + 1 in l && p !in l && after[p] == PatchedAt(code, l, vtarget, reg, dtarget, p);
        PatchesTest(code[p], reg);
      }
    }
  }

  lemma PatchesTest(i: Instr, reg: Reg)
    requires i.op == TESTSET && i.B() < 256
    ensures TestPatched(i, reg, PatchTest(i, reg))
  {
  }

  /** Patching fails exactly if one of these targets is out of reach. */
  lemma CanPatchIff(code: seq<Instr>, l: seq<int>, vtarget: int, dtarget: int)
    requires forall x | x in l :: 0 <= x < |code| && IsJump(code[x].op)
    ensures CanPatch(code, l, vtarget, dtarget) <==>
      forall m | m in l ::
        -MAX_SBX <= (if m >= 1 && code[m - 1].op == TESTSET then vtarget else dtarget) - (m + 1) <= MAX_SBX
  {
    forall m | m in l
      ensures Fits(Target(code, m, vtarget, dtarget) - (m + 1)) <==>
        -MAX_SBX <= (if m >= 1 && code[m - 1].op == TESTSET then vtarget else dtarget) - (m + 1) <= MAX_SBX
    {
    }
    if !CanPatch(code, l, vtarget, dtarget) {
      var m :| m in l && 0 <= m < |code| && !Fits(Target(code, m, vtarget, dtarget) - (m + 1));
      assert m in l;
    }
  }

  /** patchtestreg followed by fixjump on the jump at m. */
  function PatchOne(code: seq<Instr>, m: nat, vtarget: int, reg: Reg, dtarget: int): seq<Instr>
    requires m < |code| && TestsStoreRegisters(code) && Fits(Target(code, m, vtarget, dtarget) - (m + 1))
  {
    var c := Control(code, m);
    var tested := if code[c].op == TESTSET then code[c := PatchTest(code[c], reg)] else code;
    tested[m := WithSBx(tested[m], Target(code, m, vtarget, dtarget) - (m + 1))]
  }

  /** The next jump of a chain is still as it was while those before it have been patched. */
  lemma PatchStep(code: seq<Instr>, l: seq<int>, k: nat, vtarget: int, reg: Reg, dtarget: int)
    requires Chain(code, l) && k < |l| && TestsStoreRegisters(code) && CanPatch(code, l[..k], vtarget, dtarget)
    ensures var now := Patched(code, l[..k], vtarget, reg, dtarget);
            && ChainAt(code, l, k)
            && TestsStoreRegisters(now) && GetJump(now, l[k]) == GetJump(code, l[k])
            && Target(now, l[k], vtarget, dtarget) == Target(code, l[k], vtarget, dtarget)
            && (CanPatch(code, l[..k + 1], vtarget, dtarget) <==>
                Fits(Target(code, l[k], vtarget, dtarget) - (l[k] + 1)))
  {
    var now := Patched(code, l[..k], vtarget, reg, dtarget);
    var m := l[k];
    ChainJumps(code, l);
    assert ChainAt(code, l, k) && forall x | x in l[..k] :: x in l;
    assert m !in l[..k] by {
      forall i | 0 <= i < k ensures l[i] != m {
        ChainAcyclic(code, l, i, k);
      }
    }
    assert l[..k + 1] == l[..k] + [m];
    assert now[m] == code[m];
    if m > 0 {
      assert now[m - 1].op == code[m - 1].op by {
        assert m - 1 in l[..k] ==> m - 1 in l;
      }
    }
    assert m in l[..k + 1];
  }

  lemma PatchMore(code: seq<Instr>, l: seq<int>, k: nat, vtarget: int, reg: Reg, dtarget: int)
    requires Chain(code, l) && k < |l| && TestsStoreRegisters(code) && CanPatch(code, l[..k + 1], vtarget, dtarget)
    ensures CanPatch(code, l[..k], vtarget, dtarget)
    ensures var now := Patched(code, l[..k], vtarget, reg, dtarget);
            && TestsStoreRegisters(now) && ChainAt(code, l, k)
            && Fits(Target(now, l[k], vtarget, dtarget) - (l[k] + 1))
            && PatchOne(now, l[k], vtarget, reg, dtarget) == Patched(code, l[..k + 1], vtarget, reg, dtarget)
  {
    assert l[..k + 1] == l[..k] + [l[k]];
    PatchStep(code, l, k, vtarget, reg, dtarget);
    var now := Patched(code, l[..k], vtarget, reg, dtarget);
    var m := l[k];
    ChainJumps(code, l);
    assert ChainAt(code, l, k) && forall x | x in l[..k] :: x in l;
    assert m !in l[..k] by {
      forall i | 0 <= i < k ensures l[i] != m {
        ChainAcyclic(code, l, i, k);
      }
    }
    PatchOneMore(code, l[..k], m, vtarget, reg, dtarget);
  }

  /** Patching one jump more than before. */
  lemma PatchOneMore(code: seq<Instr>, l: seq<int>, m: nat, vtarget: int, reg: Reg, dtarget: int)
    requires m < |code| && IsJump(code[m].op) && m !in l && TestsStoreRegisters(code)
    requires CanPatch(code, l, vtarget, dtarget) && CanPatch(code, l + [m], vtarget, dtarget)
    requires forall x | x in l && 0 <= x < |code| :: IsJump(code[x].op)
    ensures var now := Patched(code, l, vtarget, reg, dtarget);
            && TestsStoreRegisters(now) && Fits(Target(now, m, vtarget, dtarget) - (m + 1))
            && PatchOne(now, m, vtarget, reg, dtarget) == Patched(code, l + [m], vtarget, reg, dtarget)
  {
    var now := Patched(code, l, vtarget, reg, dtarget);
    assert m in l + [m];
    assert m > 0 ==> now[m - 1].op == code[m - 1].op;
    assert Target(now, m, vtarget, dtarget) == Target(code, m, vtarget, dtarget);
    var next := PatchOne(now, m, vtarget, reg, dtarget);
    var goal := Patched(code, l + [m], vtarget, reg, dtarget);
    forall p | 0 <= p < |code| ensures next[p] == goal[p] {
      assert now[p] == PatchedAt(code, l, vtarget, reg, dtarget, p);
    }
  }

  // ---------------------------------------------------------------- the lists of a function under construction

  /** What has become of the jump at a position: in a list, by number, or patched for good. */
  datatype Place = Nowhere | In(id: nat) | At(target: int)

  /** Every jump is in exactly one list, or goes where it was last made to go. */
  ghost predicate Placed(code: seq<Instr>, lists: map<nat, seq<int>>, place: seq<Place>) {
    && |place| == |code| && TestsStoreRegisters(code)
    && (forall p | 0 <= p < |code| :: IsJump(code[p].op) <==> place[p] != Nowhere)
    && (forall p | 0 <= p < |code| :: place[p].In? ==> place[p].id in lists && p in lists[place[p].id])
    && (forall p | 0 <= p < |code| :: place[p].At? ==> Dest(code, p) == place[p].target)
    && (forall id | id in lists :: Chain(code, lists[id]) && InList(lists[id], id, place))
  }

  ghost predicate InList(l: seq<int>, id: nat, place: seq<Place>) {
    forall m | m in l :: 0 <= m < |place| && place[m] == In(id)
  }

  /** The places after list i has been given all jumps of l. */
  function Moved(place: seq<Place>, l: seq<int>, to: Place): (r: seq<Place>)
    ensures |r| == |place| && forall p | 0 <= p < |place| :: r[p] == if p in l then to else place[p]
  {
    seq(|place|, p requires 0 <= p < |place| => if p in l then to else place[p])
  }

  lemma ListsDisjoint(code: seq<Instr>, lists: map<nat, seq<int>>, place: seq<Place>, i: nat, j: nat)
    requires Placed(code, lists, place) && i in lists && j in lists && i != j
    ensures forall x | x in lists[i] :: x !in lists[j]
  {
  }

  lemma LinkedPlaced(code: seq<Instr>, lists: map<nat, seq<int>>, place: seq<Place>, i: nat, j: nat)
    requires Placed(code, lists, place) && i in lists && j in lists && i != j && CanLink(lists[i], lists[j])
    ensures Placed(Linked(code, lists[i], lists[j]), lists[i := lists[i] + lists[j]][j := []],
            Moved(place, lists[j], In(i)))
  {
    var l, m := lists[i], lists[j];
    var after := Linked(code, l, m);
    ListsDisjoint(code, lists, place, i, j);
    LinkAppends(code, l, m);
    assert l != [] ==> ChainAt(code, l, |l| - 1) && l[|l| - 1] in l;
    forall id | id in lists && id != i && id != j ensures Chain(after, lists[id]) {
      ListsDisjoint(code, lists, place, id, i);
      ChainKept(code, after, lists[id]);
    }
  }

  lemma PatchedPlaced(code: seq<Instr>, lists: map<nat, seq<int>>, place: seq<Place>, i: nat, target: int, reg: Reg)
    requires Placed(code, lists, place) && i in lists && CanPatch(code, lists[i], target, target)
    ensures Placed(Patched(code, lists[i], target, reg, target), lists[i := []], Moved(place, lists[i], At(target)))
  {
    var l := lists[i];
    var after := Patched(code, l, target, reg, target);
    ChainJumps(code, l);
    PatchedLands(code, l, target, reg, target);
    forall id | id in lists && id != i ensures Chain(after, lists[id]) {
      ListsDisjoint(code, lists, place, id, i);
      ChainJumps(code, lists[id]);
      ChainKept(code, after, lists[id]);
    }
  }

  lemma AppendedPlaced(code: seq<Instr>, lists: map<nat, seq<int>>, place: seq<Place>, i: Instr, id: nat)
    requires Placed(code, lists, place) && id !in lists
    requires IsJump(i.op) ==> i.SBx() == NO_JUMP
    requires i.op == TESTSET ==> i.B() < 256
    ensures Placed(code + [i], if IsJump(i.op) then lists[id := [|code|]] else lists,
                   place + [if IsJump(i.op) then In(id) else Nowhere])
  {
    var after := code + [i];
    forall k | k in lists ensures Chain(after, lists[k]) && InList(lists[k], k, place + [In(id)]) {
      ChainJumps(code, lists[k]);
      ChainKept(code, after, lists[k]);
    }
    if IsJump(i.op) {
      assert ChainAt(after, [|code|], 0);
    }
  }

  /** FuncState: the code so far, the jumps to the next instruction and the last position that is a target;
      the lists the parser holds are known by number, the pending one has number 0. */
  class FuncState {
    var code: seq<Instr>
    var jpc: int
    var lasttarget: int
    ghost var lists: map<nat, seq<int>>
    ghost var place: seq<Place>

    ghost predicate Valid()
      reads this
    {
      0 in lists && jpc == Head(lists[0]) && Placed(code, lists, place)
    }

    constructor ()
      ensures Valid() && code == [] && lists == map[0 := []]
    {
      code := [];
      jpc := NO_JUMP;
      lasttarget := -1;
      lists := map[0 := []];
      place := [];
    }

    /** fixjump; false for a structure that is too long. */
    method FixJump(pc: nat, dest: int) returns (ok: bool)
      requires pc < |code|
      modifies this`code
      ensures ok <==> Fits(dest - (pc + 1))
      ensures code == if ok then old(code[pc := WithSBx(code[pc], dest - (pc + 1))]) else old(code)
    {
      var offset := dest - (pc + 1);
      if offset > MAX_SBX || -offset > MAX_SBX {
        return false;
      }
      code := code[pc := WithSBx(code[pc], offset)];
      return true;
    }

    /** The walk of luaK_concat to the last jump of a list. */
    method FindLast(list: int, ghost l: seq<int>) returns (last: nat)
      requires Chain(code, l) && l != [] && list == Head(l)
      ensures last == l[|l| - 1] && last < |code|
    {
      assert ChainAt(code, l, 0);
      last := list;
      var next := GetJump(code, last);
      ghost var k := 0;
      while next != NO_JUMP
        invariant k < |l| && last == l[k] && ChainAt(code, l, k) && next == GetJump(code, last)
        decreases |l| - k
      {
        assert ChainAt(code, l, k + 1);
        last := next;
        k := k + 1;
        next := GetJump(code, last);
      }
      assert k + 1 < |l| ==> ChainAt(code, l, k + 1);
    }

    /** luaK_concat on the code alone. */
    method Link(l1: int, l2: int, ghost first: seq<int>, ghost second: seq<int>) returns (ok: bool, l: int)
      requires Chain(code, first) && Chain(code, second) && l1 == Head(first) && l2 == Head(second)
      modifies this`code
      ensures ok <==> CanLink(first, second)
      ensures ok ==> code == old(Linked(code, first, second)) && l == Head(first + second)
    {
      l := l1;
      assert first != [] ==> ChainAt(code, first, 0);
      assert second != [] ==> ChainAt(code, second, 0);
      if l2 == NO_JUMP {
        ok := true;
      } else if l1 == NO_JUMP {
        ok, l := true, l2;
      } else {
        var last := FindLast(l1, first);
        ok := FixJump(last, l2);
      }
    }

    /** luaK_concat: the first list, then the second. */
    method Concat(l1: int, l2: int, ghost i: nat, ghost j: nat) returns (ok: bool, l: int)
      requires Placed(code, lists, place) && i in lists && j in lists && i != j
      requires l1 == Head(lists[i]) && l2 == Head(lists[j])
      modifies this`code, this`lists, this`place
      ensures ok <==> old(CanLink(lists[i], lists[j]))
      ensures ok ==> code == old(Linked(code, lists[i], lists[j]))
      ensures ok ==> lists == old(lists[i := lists[i] + lists[j]][j := []]) && l == Head(lists[i])
      ensures ok ==> place == old(Moved(place, lists[j], In(i))) && Placed(code, lists, place)
    {
      ghost var first, second := lists[i], lists[j];
      ok, l := Link(l1, l2, first, second);
      if ok {
        LinkedPlaced(old(code), lists, place, i, j);
        place := Moved(place, second, In(i));
        lists := lists[i := first + second][j := []];
      }
    }

    /** patchtestreg and fixjump on one jump. */
    method PatchJump(m: nat, vtarget: int, reg: Reg, dtarget: int) returns (ok: bool)
      requires m < |code| && TestsStoreRegisters(code) && IsJump(code[m].op)
      modifies this`code
      ensures ok <==> old(Fits(Target(code, m, vtarget, dtarget) - (m + 1)))
      ensures ok ==> code == old(PatchOne(code, m, vtarget, reg, dtarget))
    {
      var c := Control(code, m);
      if code[c].op != TESTSET {
        ok := FixJump(m, dtarget);
      } else {
        code := code[c := PatchTest(code[c], reg)];
        ok := FixJump(m, vtarget);
      }
    }

    /** patchlistaux: jumps that produce a value go to vtarget, the others to dtarget. */
    method PatchListAux(list: int, vtarget: int, reg: Reg, dtarget: int, ghost l: seq<int>) returns (ok: bool)
      requires Chain(code, l) && list == Head(l) && TestsStoreRegisters(code)
      modifies this`code
      ensures ok <==> old(CanPatch(code, l, vtarget, dtarget))
      ensures ok ==> code == old(Patched(code, l, vtarget, reg, dtarget))
      ensures ok ==> forall m | m in l :: JumpPatched(old(code), code, m, vtarget, reg, dtarget)
    {
      ChainJumps(code, l);
      ghost var before := code;
      ghost var k := 0;
      var jump := list;
      assert l[..0] == [] && Patched(code, [], vtarget, reg, dtarget) == code;
      assert l != [] ==> ChainAt(code, l, 0);
      while jump != NO_JUMP
        invariant k <= |l| && jump == Head(l[k..])
        invariant CanPatch(before, l[..k], vtarget, dtarget)
        invariant code == Patched(before, l[..k], vtarget, reg, dtarget)
        invariant k < |l| ==> ChainAt(before, l, k)
        decreases |l| - k
      {
        PatchStep(before, l, k, vtarget, reg, dtarget);
        var next := GetJump(code, jump);
        ok := PatchJump(jump, vtarget, reg, dtarget);
        if !ok {
          assert l[k] in l;
          return;
        }
        PatchMore(before, l, k, vtarget, reg, dtarget);
        jump := next;
        k := k + 1;
        assert k < |l| ==> ChainAt(before, l, k);
      }
      assert l[..k] == l;
      PatchedLands(before, l, vtarget, reg, dtarget);
      ok := true;
    }

    /** luaK_code: the jumps that were waiting for the next instruction go to the one that is added. */
    method Code(i: Instr, ghost id: nat) returns (ok: bool, pos: nat)
      requires Valid() && id !in lists
      requires IsJump(i.op) ==> i.SBx() == NO_JUMP
      requires i.op == TESTSET ==> i.B() < 256
      modifies this`code, this`jpc, this`lists, this`place
      ensures ok <==> old(CanPatch(code, lists[0], |code|, |code|))
      ensures ok ==> Valid() && pos == old(|code|)
      ensures ok ==> code == old(Patched(code, lists[0], |code|, NO_REG, |code|)) + [i]
      ensures ok ==> lists == old(lists[0 := []]) + if IsJump(i.op) then map[id := [pos]] else map[]
      ensures ok ==> place == old(Moved(place, lists[0], At(|code|))) + [if IsJump(i.op) then In(id) else Nowhere]
    {
      pos := |code|;
      PatchedPlacedIf(code, lists, place, 0, pos, NO_REG);
      ok := PatchListAux(jpc, pos, NO_REG, pos, lists[0]);
      jpc := NO_JUMP;
      if !ok {
        return;
      }
      place := Moved(place, lists[0], At(pos));
      lists := lists[0 := []];
      AppendedPlaced(code, lists, place, i, id);
      code := code + [i];
      place := place + [if IsJump(i.op) then In(id) else Nowhere];
      lists := if IsJump(i.op) then lists[id := [pos]] else lists;
    }

    /** luaK_jump: a new jump, and behind it in its list those that were to lead here. */
    method Jump(ghost id: nat) returns (ok: bool, j: int)
      requires Valid() && id !in lists
      modifies this`code, this`jpc, this`lists, this`place
      ensures ok <==> CanLink([old(|code|)], old(lists[0]))
      ensures ok ==> Valid() && j == old(|code|) && |code| == old(|code|) + 1
      ensures ok ==> lists == old(lists[0 := []])[id := [j] + old(lists[0])]
      ensures ok ==> forall p | 0 <= p < old(|code|) :: code[p] == old(code[p])
      ensures ok ==> place == old(Moved(place, lists[0], In(id))) + [In(id)]
    {
      var waiting := jpc;
      ghost var held := lists[0];
      // The pending list is kept aside: it is no longer pending when the jump is added.
      jpc := NO_JUMP;
      j := |code|;
      AppendedPlaced(code, lists, place, Instr(JMP, 0, NO_JUMP + MAX_SBX), id);
      code := code + [Instr(JMP, 0, NO_JUMP + MAX_SBX)];
      place := place + [In(id)];
      lists := lists[id := [j]];
      ok, j := Concat(j, waiting, id, 0);
    }

    /** luaK_patchtohere: the jumps of a list are to lead to the next instruction. */
    method PatchToHere(list: int, ghost id: nat) returns (ok: bool)
      requires Valid() && id in lists && id != 0 && list == Head(lists[id])
      modifies this
      ensures ok <==> old(CanLink(lists[0], lists[id]))
      ensures ok ==> Valid() && lasttarget == |code| == old(|code|)
      ensures ok ==> lists == old(lists[0 := lists[0] + lists[id]][id := []])
      ensures ok ==> code == old(Linked(code, lists[0], lists[id])) && place == old(Moved(place, lists[id], In(0)))
    {
      lasttarget := |code|;
      ok, jpc := Concat(jpc, list, 0, id);
    }

    /** luaK_patchlist: the jumps of a list go to a position up to the next. */
    method PatchList(list: int, target: nat, ghost id: nat) returns (ok: bool)
      requires Valid() && id in lists && id != 0 && list == Head(lists[id]) && target <= |code|
      modifies this
      ensures ok ==> Valid()
      ensures target == old(|code|) ==> (ok <==> old(CanLink(lists[0], lists[id])))
      ensures target == old(|code|) && ok ==> lists == old(lists[0 := lists[0] + lists[id]][id := []])
      ensures target < old(|code|) ==> (ok <==> old(CanPatch(code, lists[id], target, target)))
      ensures target < old(|code|) && ok ==>
                && code == old(Patched(code, lists[id], target, NO_REG, target)) && lists == old(lists[id := []])
                && place == old(Moved(place, lists[id], At(target)))
    {
      if target == |code| {
        ok := PatchToHere(list, id);
      } else {
        PatchedPlacedIf(code, lists, place, id, target, NO_REG);
        ok := PatchListAux(list, target, NO_REG, target, lists[id]);
        if ok {
          place := Moved(place, lists[id], At(target));
          lists := lists[id := []];
        }
      }
    }
  }

  lemma PatchedPlacedIf(code: seq<Instr>, lists: map<nat, seq<int>>, place: seq<Place>, i: nat, target: int, reg: Reg)
    requires Placed(code, lists, place) && i in lists
    ensures CanPatch(code, lists[i], target, target) ==>
              Placed(Patched(code, lists[i], target, reg, target), lists[i := []], Moved(place, lists[i], At(target)))
  {
    if CanPatch(code, lists[i], target, target) {
      PatchedPlaced(code, lists, place, i, target, reg);
    }
  }

  /** After luaK_patchtohere and the next instruction, every jump of the list, and every one that was waiting
      already, lands on that instruction; of the rest at most a TESTSET in front of such a jump has changed. */
  lemma PatchToHereLands(code: seq<Instr>, lists: map<nat, seq<int>>, place: seq<Place>, id: nat, i: Instr)
    requires Placed(code, lists, place) && 0 in lists && id in lists && id != 0 && CanLink(lists[0], lists[id])
    requires var all := lists[0] + lists[id]; CanPatch(Linked(code, lists[0], lists[id]), all, |code|, |code|)
    ensures var all := lists[0] + lists[id];
            var held := Linked(code, lists[0], lists[id]);
            && TestsStoreRegisters(held)
            && var after := Patched(held, all, |code|, NO_REG, |code|) + [i];
               && (forall m | m in all :: 0 <= m < |code| && Dest(after, m) == |code|)
               && (forall p | 0 <= p < |code| && p !in all && !(p + 1 in all && code[p].op == TESTSET) ::
                     after[p] == code[p])
  {
    var all := lists[0] + lists[id];
    var held := Linked(code, lists[0], lists[id]);
    ListsDisjoint(code, lists, place, 0, id);
    LinkAppends(code, lists[0], lists[id]);
    ChainJumps(held, all);
    assert lists[0] != [] ==> ChainAt(code, lists[0], |lists[0]| - 1) && lists[0][|lists[0]| - 1] in lists[0];
  }

  /** Every jump goes where it was last made to go, or stands at one place of one list without cycles. */
  lemma EveryJump(code: seq<Instr>, lists: map<nat, seq<int>>, place: seq<Place>, p: nat)
    requires Placed(code, lists, place) && p < |code| && IsJump(code[p].op)
    ensures place[p].At? ==> Dest(code, p) == place[p].target && forall id | id in lists :: p !in lists[id]
    ensures !place[p].At? ==> exists id | id in lists :: p in lists[id] && forall other | other in lists
            && other != id :: p !in lists[other]
    ensures forall id, i, j | id in lists && 0 <= i < j < |lists[id]| :: lists[id][i] != lists[id][j]
  {
    forall id, i, j | id in lists && 0 <= i < j < |lists[id]| ensures lists[id][i] != lists[id][j] {
      ChainAcyclic(code, lists[id], i, j);
    }
    if place[p].In? {
      var id := place[p].id;
      assert id in lists && p in lists[id];
      forall other | other in lists && other != id ensures p !in lists[other] {
        ListsDisjoint(code, lists, place, id, other);
      }
    }
  }
}
