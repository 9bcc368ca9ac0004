/** Stack heights along the control paths of straight and forward-jumping code, for instructions
    known only by their effect. */
module StackFlow {
  /** What an instruction takes and leaves, and where control may go from it. */
  datatype Effect =
    | Falls(needs: nat, delta: int)
    | Jumps(target: nat)
    | Tests(target: nat)
    | Stops

  /** How many values lie above the entry height before the instruction at each place. */
  type Heights = int -> int

  /** The instruction at place `pos` has the values it needs, and every way on from it leads strictly
      forward, at most to `end`, to a place of the height it leaves. */
  ghost predicate FlowAt(i: Effect, pos: nat, end: nat, h: Heights) {
    match i
    case Falls(needs, delta) => h(pos) >= needs && h(pos + 1) == h(pos) + delta
    case Jumps(target) => pos < target <= end && h(pos) >= 0 && h(target) == h(pos)
    case Tests(target) =>
      pos < target <= end && h(pos) >= 1 && h(target) == h(pos) - 1 && h(pos + 1) == h(pos) - 1
    case Stops => false
  }

  ghost predicate Flows(code: seq<Effect>, base: nat, end: nat, h: Heights) {
    forall k: nat | k < |code| :: FlowAt(code[k], base + k, end, h)
  }

  /** Code that leaves exactly `net` values on every path and never reaches below its entry height. */
  ghost predicate Leaves(code: seq<Effect>, base: nat, net: int, h: Heights) {
    Flows(code, base, base + |code|, h) && h(base) == 0 && h(base + |code|) == net
  }

  ghost predicate Balanced(code: seq<Effect>, base: nat, net: int) {
    exists h: Heights :: Leaves(code, base, net, h)
  }

  ghost predicate Agree(h: Heights, g: Heights, d: int, lo: nat, hi: nat) {
    forall k | lo <= k <= hi :: g(k) == h(k) + d
  }

  /** Code flows as well on raised heights, in a longer piece of code. */
  lemma FlowsRaised(code: seq<Effect>, base: nat, top: nat, end: nat, h: Heights, g: Heights, d: nat)
    requires top == base + |code| <= end && Flows(code, base, top, h) && Agree(h, g, d, base, top)
    ensures Flows(code, base, end, g)
  {
    forall k: nat | k < |code| ensures FlowAt(code[k], base + k, end, g) {
      assert FlowAt(code[k], base + k, top, h);
    }
  }

  lemma FlowsJoin(c: seq<Effect>, d: seq<Effect>, base: nat, mid: nat, end: nat, h: Heights)
    requires mid == base + |c| && Flows(c, base, end, h) && Flows(d, mid, end, h)
    ensures Flows(c + d, base, end, h)
  {
    forall k: nat | k < |c + d| ensures FlowAt((c + d)[k], base + k, end, h) {
      if k >= |c| { assert FlowAt(d[k - |c|], mid + (k - |c|), end, h); }
    }
  }

  lemma FlowsOne(i: Effect, pos: nat, end: nat, h: Heights)
    requires FlowAt(i, pos, end, h)
    ensures Flows([i], pos, end, h)
  {
  }

  /** Heights that witness a balanced piece of code. */
  lemma Witness(code: seq<Effect>, base: nat, end: nat, net: int) returns (h: Heights)
    requires Balanced(code, base, net) && end == base + |code|
    ensures Flows(code, base, end, h) && h(base) == 0 && h(end) == net
  {
    h :| Leaves(code, base, net, h);
  }

  lemma IsBalanced(code: seq<Effect>, base: nat, end: nat, net: int, h: Heights)
    requires end == base + |code| && Flows(code, base, end, h) && h(base) == 0 && h(end) == net
    ensures Balanced(code, base, net)
  {
    assert Leaves(code, base, net, h);
  }

  function Splice(h: Heights, g: Heights, m: int, mid: int): Heights {
    k => if k < mid then h(k) else g(k) + m
  }

  lemma SpliceAgrees(h: Heights, g: Heights, m: int, lo: nat, mid: nat, hi: nat)
    requires lo <= mid <= hi && h(mid) == m && g(mid) == 0
    ensures Agree(h, Splice(h, g, m, mid), 0, lo, mid) && Agree(g, Splice(h, g, m, mid), m, mid, hi)
  {
  }

  /** Two pieces of code, one after the other. */
  lemma Sequence(c: seq<Effect>, d: seq<Effect>, base: nat, m: nat, n: int)
    requires Balanced(c, base, m) && Balanced(d, base + |c|, n)
    ensures Balanced(c + d, base, m + n)
  {
    var mid, end := base + |c|, base + |c| + |d|;
    var h := Witness(c, base, mid, m);
    var g := Witness(d, mid, end, n);
    var r := Splice(h, g, m, mid);
    SpliceAgrees(h, g, m, base, mid, end);
    FlowsRaised(c, base, mid, end, h, r, 0);
    FlowsRaised(d, mid, end, end, g, r, m);
    FlowsJoin(c, d, base, mid, end, r);
    IsBalanced(c + d, base, end, m + n, r);
  }

  lemma Nothing(base: nat)
    ensures Balanced([], base, 0)
  {
    IsBalanced([], base, base, 0, _ => 0);
  }

  /** Code followed by an instruction that its values are enough for. */
  lemma Then(c: seq<Effect>, i: Effect, base: nat, m: nat)
    requires Balanced(c, base, m) && i.Falls? && i.needs <= m
    ensures Balanced(c + [i], base, m + i.delta)
  {
    var mid, end := base + |c|, base + |c| + 1;
    var h := Witness(c, base, mid, m);
    var r: Heights := k => if k < end then h(k) else m + i.delta;
    FlowsRaised(c, base, mid, end, h, r, 0);
    FlowsOne(i, mid, end, r);
    FlowsJoin(c, [i], base, mid, end, r);
    IsBalanced(c + [i], base, end, m + i.delta, r);
  }

  function Conditional(c: seq<Effect>, f: seq<Effect>, t: seq<Effect>, jmp: nat, end: nat): seq<Effect> {
    c + [Tests(jmp + 1)] + f + [Jumps(end)] + t
  }

  function Pieces(h: Heights, g: Heights, e: Heights, test: nat, jmp: nat): Heights {
    k => if k <= test then h(k) else if k <= jmp then g(k) else e(k)
  }

  lemma PiecesAgree(h: Heights, g: Heights, e: Heights, base: nat, test: nat, jmp: nat, end: nat)
    requires base <= test < jmp < end
    ensures var r := Pieces(h, g, e, test, jmp);
      Agree(h, r, 0, base, test) && Agree(g, r, 0, test + 1, jmp) && Agree(e, r, 0, jmp + 1, end)
  {
  }

  /** The shape of a conditional, whatever its three parts are. */
  lemma Branch(c: seq<Effect>, f: seq<Effect>, t: seq<Effect>, base: nat, n: nat)
    requires Balanced(c, base, 1) && Balanced(f, base + |c| + 1, n) && Balanced(t, base + |c| + |f| + 2, n)
    ensures var jmp := base + |c| + 1 + |f|; Balanced(Conditional(c, f, t, jmp, jmp + 1 + |t|), base, n)
  {
    var test := base + |c|;
    var jmp := test + 1 + |f|;
    var end := jmp + 1 + |t|;
    var h := Witness(c, base, test, 1);
    var g := Witness(f, test + 1, jmp, n);
    var e := Witness(t, jmp + 1, end, n);
    var r := BranchFlows(c, f, t, base, test, jmp, end, h, g, e);
    IsBalanced(Conditional(c, f, t, jmp, end), base, end, n, r);
  }

  lemma BranchFlows(c: seq<Effect>, f: seq<Effect>, t: seq<Effect>, base: nat, test: nat, jmp: nat, end: nat,
                    h: Heights, g: Heights, e: Heights) returns (r: Heights)
    requires test == base + |c| && jmp == test + 1 + |f| && end == jmp + 1 + |t|
    requires Flows(c, base, test, h) && Flows(f, test + 1, jmp, g) && Flows(t, jmp + 1, end, e)
    requires h(test) == 1 && g(test + 1) == 0 && g(jmp) == e(end) >= 0 && e(jmp + 1) == 0
    ensures Flows(Conditional(c, f, t, jmp, end), base, end, r) && r(base) == h(base) && r(end) == e(end)
  {
    r := Pieces(h, g, e, test, jmp);
    PiecesAgree(h, g, e, base, test, jmp, end);
    FlowsRaised(c, base, test, end, h, r, 0);
    FlowsRaised(f, test + 1, jmp, end, g, r, 0);
    FlowsRaised(t, jmp + 1, end, end, e, r, 0);
    BranchJoin(c, f, t, base, test, jmp, end, r);
  }

  lemma BranchJoin(c: seq<Effect>, f: seq<Effect>, t: seq<Effect>, base: nat, test: nat, jmp: nat, end: nat, r: Heights)
    requires test == base + |c| && jmp == test + 1 + |f| && end == jmp + 1 + |t|
    requires Flows(c, base, end, r) && Flows(f, test + 1, end, r) && Flows(t, jmp + 1, end, r)
    requires r(test) == 1 && r(test + 1) == 0 && r(jmp) == r(end) >= 0 && r(jmp + 1) == 0
    ensures Flows(Conditional(c, f, t, jmp, end), base, end, r)
  {
    FlowsOne(Tests(jmp + 1), test, end, r);
    FlowsJoin(c, [Tests(jmp + 1)], base, test, end, r);
    FlowsJoin(c + [Tests(jmp + 1)], f, base, test + 1, end, r);
    FlowsOne(Jumps(end), jmp, end, r);
    FlowsJoin(c + [Tests(jmp + 1)] + f, [Jumps(end)], base, jmp, end, r);
    FlowsJoin(c + [Tests(jmp + 1)] + f + [Jumps(end)], t, base, jmp + 1, end, r);
  }
}
