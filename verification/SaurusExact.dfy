/** The exact condition for the stack discipline of generated code: two-operand `not`, whose
    instruction takes one of the two values its form pushes, always breaks it (src/compiler/gen.lua). */
module SaurusExact {
  import opened Options
  import opened SaurusGen
  import opened StackFlow
  import opened SaurusStack

  /** The function made by the instruction, if it makes one, keeps the discipline. */
  ghost predicate InnerOk(i: Inst, prots: seq<Proto>) {
    i.op == Lambda ==> i.a < |prots| && ProtoOk(prots[i.a], Slots(i.b))
  }

  /** Code with consistent heights on its control paths, whatever they are, that makes only such functions. */
  ghost predicate Consistent(code: seq<Inst>, base: nat, end: nat, h: Heights, prots: seq<Proto>)
    decreases code
  {
    code == [] || (&& FlowAt(EffectOf(code[0]), base, end, h) && InnerOk(code[0], prots)
                   && Consistent(code[1..], base + 1, end, h, prots))
  }

  /** Consistency, by another name that hides what it is made of. */
  type Check = (seq<Inst>, nat) -> bool

  ghost predicate IsCheck(ok: Check, end: nat, h: Heights, prots: seq<Proto>) {
    forall code, base {:trigger Consistent(code, base, end, h, prots)} ::
      ok(code, base) <==> Consistent(code, base, end, h, prots)
  }

  lemma {:induction false} ConsistentParts(c: seq<Inst>, d: seq<Inst>, base: nat, mid: nat, end: nat, h: Heights,
                                           prots: seq<Proto>)
    requires mid == base + |c| && Consistent(c + d, base, end, h, prots)
    ensures Consistent(c, base, end, h, prots) && Consistent(d, mid, end, h, prots)
    decreases c
  {
    if c == [] {
      assert c + d == d;
    } else {
      assert (c + d)[1..] == c[1..] + d;
      ConsistentParts(c[1..], d, base + 1, mid, end, h, prots);
    }
  }

  lemma Splits(ok: Check, c: seq<Inst>, d: seq<Inst>, base: nat, mid: nat, end: nat, h: Heights, prots: seq<Proto>)
    requires IsCheck(ok, end, h, prots) && mid == base + |c| && ok(c + d, base)
    ensures ok(c, base) && ok(d, mid)
  {
    assert Consistent(c + d, base, end, h, prots);
    ConsistentParts(c, d, base, mid, end, h, prots);
  }

  /** The effect of the one instruction. */
  lemma OneFlows(ok: Check, i: Inst, pos: nat, end: nat, h: Heights, prots: seq<Proto>)
    requires IsCheck(ok, end, h, prots) && ok([i], pos)
    ensures FlowAt(EffectOf(i), pos, end, h) && InnerOk(i, prots)
  {
    assert Consistent([i], pos, end, h, prots);
  }

  /** Code that keeps the discipline and names only what exists is consistent. */
  lemma {:induction false} IsConsistent(code: seq<Inst>, base: nat, end: nat, h: Heights,
                                        labels: nat, consts: seq<Const>, ups: nat, prots: seq<Proto>)
    requires Flows(Effects(code), base, end, h) && OperandsOk(code, labels, consts, ups, prots)
    ensures Consistent(code, base, end, h, prots)
    decreases code
  {
    if code != [] {
      assert FlowAt(Effects(code)[0], base + 0, end, h) && OperandOk(code[0], labels, consts, ups, prots);
      forall k: nat | k < |code[1..]| ensures FlowAt(Effects(code[1..])[k], base + 1 + k, end, h) {
        assert FlowAt(Effects(code)[1 + k], base + (1 + k), end, h);
      }
      forall k | 0 <= k < |code[1..]| ensures OperandOk(code[1..][k], labels, consts, ups, prots) {
        assert OperandOk(code[1 + k], labels, consts, ups, prots);
      }
      IsConsistent(code[1..], base + 1, end, h, labels, consts, ups, prots);
    }
  }

  /** Some expressions leave `n` values or more, and exactly `n` only if they are clean. */
  ghost predicate Rises(h: Heights, base: nat, end: nat, n: nat, clean: bool) {
    h(end) >= h(base) + n && (h(end) == h(base) + n ==> clean)
  }

  lemma RisesTogether(h: Heights, base: nat, mid: nat, end: nat, m: nat, n: nat, left: bool, right: bool)
    requires Rises(h, base, mid, m, left) && Rises(h, mid, end, n, right)
    ensures Rises(h, base, end, m + n, left && right)
  {
  }

  /** An instruction that replaces the topmost value. */
  lemma UnaryRises(i: Inst, base: nat, mid: nat, ok: Check, end: nat, h: Heights, prots: seq<Proto>, clean: bool)
    requires IsCheck(ok, end, h, prots) && ok([i], mid) && EffectOf(i) == Falls(1, 0) && Rises(h, base, mid, 1, clean)
    ensures Rises(h, base, mid + 1, 1, clean)
  {
    OneFlows(ok, i, mid, end, h, prots);
  }

  /** The function itself, and `n` values above it. */
  lemma CopyRises(base: nat, at: nat, mid: nat, n: nat, ok: Check, end: nat, h: Heights, prots: seq<Proto>, clean: bool)
    requires IsCheck(ok, end, h, prots) && at == base + 1 && ok(One(Copy, 0), base) && Rises(h, at, mid, n, clean)
    ensures Rises(h, base, mid, n + 1, clean)
  {
    OneFlows(ok, Inst(Copy, 0, 0), base, end, h, prots);
  }

  lemma {:induction false} GenRises(e: Sexp, tail: bool, quoted: bool, base: nat, lists: Lists, scopes: seq<Scope>,
                                    x: Out, ok: Check, end: nat, h: Heights, prots: seq<Proto>)
    requires scopes != [] && Gen(e, tail, quoted, base, lists, scopes) == Some(x)
    requires IsCheck(ok, end, h, prots) && x.lists.prots <= prots && ok(x.code, base)
    ensures lists.prots <= x.lists.prots && Rises(h, base, base + |x.code|, 1, Clean(e, quoted))
    decreases e, 1
  {
    match e
    case Number(n) => OneFlows(ok, x.code[0], base, end, h, prots);
    case Symbol(name) => OneFlows(ok, x.code[0], base, end, h, prots);
    case List(items) =>
      if quoted {
        GenListRises(items, tail, base, lists, scopes, x, ok, end, h, prots);
      } else if items[0].Symbol? {
        GenFormRises(items[0].name, items, tail, base, lists, scopes, x, ok, end, h, prots);
      } else {
        GenCallRises(items, tail, base, lists, scopes, x, ok, end, h, prots);
      }
  }

  lemma {:induction false} GenFormRises(name: string, items: seq<Sexp>, tail: bool, base: nat, lists: Lists,
                                        scopes: seq<Scope>,
                                        x: Out, ok: Check, end: nat, h: Heights, prots: seq<Proto>)
    requires scopes != [] && items != [] && items[0] == Symbol(name)
    requires GenForm(name, items, tail, base, lists, scopes) == Some(x)
    requires IsCheck(ok, end, h, prots) && x.lists.prots <= prots && ok(x.code, base)
    ensures lists.prots <= x.lists.prots && Rises(h, base, base + |x.code|, 1, CleanForm(name, items))
    decreases items, 3
  {
    if name == "if" {
      GenIfRises(items, tail, base, lists, scopes, x, ok, end, h, prots);
    } else if name == "do" {
      GenDoRises(items, base, lists, scopes, x, ok, end, h, prots);
    } else if name == "quote" {
      GenRises(items[1], tail, true, base, lists, scopes, x, ok, end, h, prots);
    } else if name == "lambda" {
      GenLambdaRises(items, base, lists, scopes, x, ok, end, h, prots);
    } else if name == "let" {
      GenLetRises(items, tail, base, lists, scopes, x, ok, end, h, prots);
    } else if name == "rec" {
      GenRecRises(items, tail, base, lists, scopes, x, ok, end, h, prots);
    } else if name == "define" {
      GenDefineRises(items, base, lists, scopes, x, ok, end, h, prots);
    } else if name == "-" && |items| == 2 {
      GenUnaryRises(items, base, lists, scopes, x, ok, end, h, prots);
    } else if BinaryOp(name).Some? && |items| == 3 {
      var gen, clean := Hidden();
      var i := if IsReversed(name) then 2 else 1;
      var y, z := BinaryParts(gen, clean, name, items, i, base, lists, scopes, x);
      GenOperatorRises(gen, clean, name, BinaryOp(name).value, items, i, 3 - i, base, lists, scopes, y, z, ok, end,
          h, prots);
    } else {
      GenCallRises(items, tail
          && !(BinaryOp(name).Some? && IsReversed(name)), base, lists, scopes, x, ok, end, h, prots);
    }
  }

  lemma {:induction false} GenUnaryRises(items: seq<Sexp>, base: nat, lists: Lists, scopes: seq<Scope>,
                                         x: Out, ok: Check, end: nat, h: Heights, prots: seq<Proto>)
    requires scopes != [] && |items| == 2 && items[0].Symbol? && Gen(items[1], false, false, base, lists, scopes).Some?
    requires var y := Gen(items[1], false, false, base, lists, scopes).value; x == Out(y.code + One(Unm, 0), y.lists)
    requires IsCheck(ok, end, h, prots) && x.lists.prots <= prots && ok(x.code, base)
    ensures lists.prots <= x.lists.prots && Rises(h, base, base + |x.code|, 1, CleanEach(items, false))
    decreases items, 1
  {
    var y := Gen(items[1], false, false, base, lists, scopes).value;
    var mid := base + |y.code|;
    Splits(ok, y.code, One(Unm, 0), base, mid, end, h, prots);
    GenRises(items[1], false, false, base, lists, scopes, y, ok, end, h, prots);
    UnaryRises(Inst(Unm, 0, 0), base, mid, ok, end, h, prots, Clean(items[1], false));
    CleanFirst(items);
    assert items[1..] == [items[1]];
    CleanOne(items[1]);
  }

  /** gen and what is clean, by names that hide what they are made of. */
  type Maker = (Sexp, bool, bool, nat, Lists, seq<Scope>) -> Option<Out>

  type Cleaner = (Sexp, bool) -> bool

  ghost predicate IsGen(gen: Maker, clean: Cleaner) {
    && (forall e, tail, quoted, base, lists, scopes {:trigger Gen(e, tail, quoted, base, lists, scopes)} ::
          scopes != [] ==>
          gen(e, tail, quoted, base, lists, scopes) == Gen(e, tail, quoted, base, lists, scopes))
    && (forall e, quoted {:trigger Clean(e, quoted)} :: clean(e, quoted) == Clean(e, quoted))
  }

  lemma Hidden() returns (gen: Maker, clean: Cleaner)
    ensures IsGen(gen, clean)
  {
    gen := (e: Sexp, tail: bool, quoted: bool, base: nat, lists: Lists, scopes: seq<Scope>) =>
      if scopes == [] then None else Gen(e, tail, quoted, base, lists, scopes);
    clean := (e: Sexp, quoted: bool) => Clean(e, quoted);
  }

  lemma {:induction false} OperandRises(gen: Maker, clean: Cleaner, e: Sexp, base: nat, lists: Lists,
                                        scopes: seq<Scope>,
                                        x: Out, ok: Check, end: nat, h: Heights, prots: seq<Proto>)
    requires scopes != [] && IsGen(gen, clean) && gen(e, false, false, base, lists, scopes) == Some(x)
    requires IsCheck(ok, end, h, prots) && x.lists.prots <= prots && ok(x.code, base)
    ensures lists.prots <= x.lists.prots && Rises(h, base, base + |x.code|, 1, clean(e, false))
    decreases e, 2
  {
    assert Gen(e, false, false, base, lists, scopes) == Some(x) && clean(e, false) == Clean(e, false);
    GenRises(e, false, false, base, lists, scopes, x, ok, end, h, prots);
  }

  /** Two operands, one after the other. */
  lemma {:induction false} OperandsRise(gen: Maker, clean: Cleaner, items: seq<Sexp>, i: nat, j: nat,
                                        base: nat, mid: nat, last: nat, lists: Lists, scopes: seq<Scope>,
                                        y: Out, z: Out, ok: Check, end: nat, h: Heights, prots: seq<Proto>)
    requires scopes != [] && i < |items| && j < |items| && IsGen(gen, clean)
    requires gen(items[i], false, false, base, lists, scopes) == Some(y) && mid == base + |y.code|
    requires gen(items[j], false, false, mid, y.lists, scopes) == Some(z) && last == mid + |z.code|
    requires IsCheck(ok, end, h, prots) && z.lists.prots <= prots && ok(y.code, base) && ok(z.code, mid)
    ensures lists.prots <= z.lists.prots
    ensures Rises(h, base, mid, 1, clean(items[i], false)) && Rises(h, mid, last, 1, clean(items[j], false))
    decreases items, 1
  {
    OperandRises(gen, clean, items[j], mid, y.lists, scopes, z, ok, end, h, prots);
    OperandRises(gen, clean, items[i], base, lists, scopes, y, ok, end, h, prots);
  }

  lemma SplitsThree(ok: Check, c: seq<Inst>, d: seq<Inst>, op: Op, base: nat, mid: nat, last: nat, end: nat,
                    h: Heights, prots: seq<Proto>)
    requires IsCheck(ok, end, h, prots) && mid == base + |c| && last == mid + |d| && ok(c + d + One(op, 0), base)
    ensures ok(c, base) && ok(d, mid) && ok([Inst(op, 0, 0)], last)
  {
    Splits(ok, c + d, One(op, 0), base, last, end, h, prots);
    Splits(ok, c, d, base, mid, end, h, prots);
  }

  /** The forms with two operands. */
  lemma {:induction false} GenOperatorRises(gen: Maker, clean: Cleaner, name: string, op: Op, items: seq<Sexp>,
                                            i: nat, j: nat,
                                            base: nat, lists: Lists, scopes: seq<Scope>,
                                            y: Out, z: Out, ok: Check, end: nat, h: Heights, prots: seq<Proto>)
    requires scopes != [] && i < |items| && j < |items| && IsGen(gen, clean)
    requires gen(items[i], false, false, base, lists, scopes) == Some(y)
    requires gen(items[j], false, false, base + |y.code|, y.lists, scopes) == Some(z)
    requires EffectOf(Inst(op, 0, 0)) == if name == "not" then Falls(1, 0) else Falls(2, -1)
    requires IsCheck(ok, end, h, prots) && z.lists.prots <= prots && ok(y.code + z.code + One(op, 0), base)
    ensures lists.prots <= z.lists.prots
    ensures Rises(h, base, base + |y.code| + |z.code| + 1, 1, name != "not" && clean(items[i], false)
            && clean(items[j], false))
    decreases items, 2
  {
    var mid := base + |y.code|;
    var last := mid + |z.code|;
    var delta := if name == "not" then 0 else -1;
    SplitsThree(ok, y.code, z.code, op, base, mid, last, end, h, prots);
    OperandsRise(gen, clean, items, i, j, base, mid, last, lists, scopes, y, z, ok, end, h, prots);
    BinaryRises(op, delta, base, mid, last, ok, end, h, prots, clean(items[i], false), clean(items[j], false));
  }

  lemma BinaryRises(op: Op, delta: int, base: nat, mid: nat, last: nat, ok: Check, end: nat, h: Heights,
                    prots: seq<Proto>,
                    left: bool, right: bool)
    requires -1 <= delta <= 0 && EffectOf(Inst(op, 0, 0)) == Falls(1 - delta, delta)
    requires IsCheck(ok, end, h, prots) && ok([Inst(op, 0, 0)], last)
    requires Rises(h, base, mid, 1, left) && Rises(h, mid, last, 1, right)
    ensures Rises(h, base, last + 1, 2 + delta, left && right)
  {
    OneFlows(ok, Inst(op, 0, 0), last, end, h, prots);
  }

  lemma BinaryParts(gen: Maker, clean: Cleaner, name: string, items: seq<Sexp>, i: nat,
                    base: nat, lists: Lists, scopes: seq<Scope>, x: Out)
    returns (y: Out, z: Out)
    requires scopes != [] && |items| == 3 && items[0].Symbol? && BinaryOp(name).Some? && IsGen(gen, clean)
    requires i == (if IsReversed(name) then 2 else 1) && GenForm(name, items, false, base, lists, scopes) == Some(x)
    ensures gen(items[i], false, false, base, lists, scopes) == Some(y)
    ensures gen(items[3 - i], false, false, base + |y.code|, y.lists, scopes) == Some(z)
    ensures x == Out(y.code + z.code + One(BinaryOp(name).value, 0), z.lists)
    ensures EffectOf(Inst(BinaryOp(name).value, 0, 0)) == if name == "not" then Falls(1, 0) else Falls(2, -1)
    ensures CleanForm(name, items) <==> name != "not" && clean(items[i], false) && clean(items[3 - i], false)
  {
    BinaryShape(name, items, i, base, lists, scopes);
    y := Gen(items[i], false, false, base, lists, scopes).value;
    z := Gen(items[3 - i], false, false, base + |y.code|, y.lists, scopes).value;
    BinaryEffect(name);
    CleanOperator(name, items);
  }

  lemma BinaryShape(name: string, items: seq<Sexp>, i: nat, base: nat, lists: Lists, scopes: seq<Scope>)
    requires scopes != [] && |items| == 3 && BinaryOp(name).Some? && i == (if IsReversed(name) then 2 else 1)
    ensures GenForm(name, items, false, base, lists, scopes) ==
            GenBinary(BinaryOp(name).value, items, i, 3 - i, base, lists, scopes)
  {
    SpecialNames(name);
  }

  /** An operator is none of the other forms. */
  lemma SpecialNames(name: string)
    requires BinaryOp(name).Some?
    ensures name != "if" && name != "do" && name != "quote" && name != "lambda" && name != "let" && name != "rec"
    ensures name != "define" && name != "macro" && name != "undef"
  {
  }

  lemma BinaryEffect(name: string)
    requires BinaryOp(name).Some?
    ensures EffectOf(Inst(BinaryOp(name).value, 0, 0)) == if name == "not" then Falls(1, 0) else Falls(2, -1)
  {
    OperatorOps(name);
    TwoOperands(BinaryOp(name).value);
  }

  lemma OperatorOps(name: string)
    requires BinaryOp(name).Some?
    ensures BinaryOp(name).value in {Add, Sub, Mul, Div, Mod, Pow, Eq, Less, LessEqual, Not, And, Or}
    ensures BinaryOp(name).value == Not <==> name == "not"
  {
  }

  lemma TwoOperands(op: Op)
    requires op in {Add, Sub, Mul, Div, Mod, Pow, Eq, Less, LessEqual, Not, And, Or}
    ensures EffectOf(Inst(op, 0, 0)) == if op == Not then Falls(1, 0) else Falls(2, -1)
  {
  }

  lemma CleanOperator(name: string, items: seq<Sexp>)
    requires |items| == 3 && items[0].Symbol? && BinaryOp(name).Some?
    ensures CleanForm(name, items) <==> name != "not" && Clean(items[1], false) && Clean(items[2], false)
  {
    CleanTwo(items);
  }

  lemma CleanTwo(items: seq<Sexp>)
    requires |items| == 3 && items[0].Symbol?
    ensures CleanEach(items, false) <==> Clean(items[1], false) && Clean(items[2], false)
  {
    CleanFirst(items);
    assert items[1..][0] == items[1] && items[1..][1..] == [items[2]];
    CleanOne(items[2]);
  }

  lemma CleanFirst(items: seq<Sexp>)
    requires items != [] && items[0].Symbol?
    ensures CleanEach(items, false) <==> CleanEach(items[1..], false)
  {
    assert Clean(items[0], false);
  }

  lemma CleanOne(e: Sexp)
    ensures CleanEach([e], false) <==> Clean(e, false)
  {
    assert [e][1..] == [];
  }

  lemma {:induction false} GenEachRises(items: seq<Sexp>, quoted: bool, base: nat, lists: Lists, scopes: seq<Scope>,
                                        x: Out, ok: Check, end: nat, h: Heights, prots: seq<Proto>)
    requires scopes != [] && GenEach(items, quoted, base, lists, scopes) == Some(x)
    requires IsCheck(ok, end, h, prots) && x.lists.prots <= prots && ok(x.code, base)
    ensures lists.prots <= x.lists.prots && Rises(h, base, base + |x.code|, |items|, CleanEach(items, quoted))
    decreases items, 0, 0
  {
    if items != [] {
      var y := Gen(items[0], false, quoted, base, lists, scopes).value;
      var mid := base + |y.code|;
      var rest := GenEach(items[1..], quoted, mid, y.lists, scopes).value;
      Splits(ok, y.code, rest.code, base, mid, end, h, prots);
      GenEachRises(items[1..], quoted, mid, y.lists, scopes, rest, ok, end, h, prots);
      GenRises(items[0], false, quoted, base, lists, scopes, y, ok, end, h, prots);
    }
  }

  /** A call takes its arguments and the callee, and leaves the result. */
  lemma CallRises(tail: bool, scopes: seq<Scope>, n: nat, base: nat, mid: nat,
                  ok: Check, end: nat, h: Heights, prots: seq<Proto>, clean: bool)
    requires IsCheck(ok, end, h, prots) && ok(CallOrTail(tail, scopes, n), mid) && Rises(h, base, mid, n + 1, clean)
    ensures Rises(h, base, mid + 1, 1, clean)
  {
    OneFlows(ok, CallOrTail(tail, scopes, n)[0], mid, end, h, prots);
  }

  lemma {:induction false} GenCallRises(items: seq<Sexp>, tail: bool, base: nat, lists: Lists, scopes: seq<Scope>,
                                        x: Out, ok: Check, end: nat, h: Heights, prots: seq<Proto>)
    requires scopes != [] && items != [] && GenCall(items, tail, base, lists, scopes) == Some(x)
    requires IsCheck(ok, end, h, prots) && x.lists.prots <= prots && ok(x.code, base)
    ensures lists.prots <= x.lists.prots && Rises(h, base, base + |x.code|, 1, CleanEach(items, false))
    decreases items, 1
  {
    var all := GenEach(items, false, base, lists, scopes).value;
    var mid := base + |all.code|;
    Splits(ok, all.code, CallOrTail(tail, scopes, |items| - 1), base, mid, end, h, prots);
    GenEachRises(items, false, base, lists, scopes, all, ok, end, h, prots);
    CallRises(tail, scopes, |items| - 1, base, mid, ok, end, h, prots, CleanEach(items, false));
  }

  lemma {:induction false} GenRecRises(items: seq<Sexp>, tail: bool, base: nat, lists: Lists, scopes: seq<Scope>,
                                       x: Out, ok: Check, end: nat, h: Heights, prots: seq<Proto>)
    requires scopes != [] && items != [] && items[0].Symbol? && GenRec(items, tail, base, lists, scopes) == Some(x)
    requires IsCheck(ok, end, h, prots) && x.lists.prots <= prots && ok(x.code, base)
    ensures lists.prots <= x.lists.prots && Rises(h, base, base + |x.code|, 1, CleanEach(items, false))
    decreases items, 1
  {
    var args := GenEach(items[1..], false, base + 1, lists, scopes).value;
    var at := base + 1;
    var mid := at + |args.code|;
    Splits(ok, One(Copy, 0) + args.code, CallOrTail(tail, scopes, |items| - 1), base, mid, end, h, prots);
    Splits(ok, One(Copy, 0), args.code, base, at, end, h, prots);
    GenEachRises(items[1..], false, at, lists, scopes, args, ok, end, h, prots);
    CopyRises(base, at, mid, |items| - 1, ok, end, h, prots, CleanEach(items[1..], false));
    CleanFirst(items);
    CallRises(tail, scopes, |items| - 1, base, mid, ok, end, h, prots, CleanEach(items, false));
  }

  lemma FetchIsOne(name: string, lists: Lists, scopes: seq<Scope>)
    requires scopes != []
    ensures var f := GenFetch(name, lists, scopes);
            |f.code| == 1 && f.code == [f.code[0]] && EffectOf(f.code[0]) == Falls(0, 1) && f.lists.prots == lists.prots
  {
  }

  lemma {:induction false} GenListRises(items: seq<Sexp>, tail: bool, base: nat, lists: Lists, scopes: seq<Scope>,
                                        x: Out, ok: Check, end: nat, h: Heights, prots: seq<Proto>)
    requires scopes != [] && items != [] && GenList(items, tail, base, lists, scopes) == Some(x)
    requires IsCheck(ok, end, h, prots) && x.lists.prots <= prots && ok(x.code, base)
    ensures lists.prots <= x.lists.prots && Rises(h, base, base + |x.code|, 1, Clean(List(items), true))
    decreases items, 1
  {
    if IsName(items[0], "unquote") {
      GenRises(items[1], tail, false, base, lists, scopes, x, ok, end, h, prots);
    } else {
      var f := GenFetch("list", lists, scopes);
      FetchIsOne("list", lists, scopes);
      var all := GenEach(items, true, base + 1, f.lists, scopes).value;
      ListRises(items, tail, base, base + 1, f, all, scopes, ok, end, h, prots);
    }
  }

  /** A quoted list: the function `list`, the quoted items, and the call. */
  lemma {:induction false} ListRises(items: seq<Sexp>, tail: bool, base: nat, at: nat, f: Out, all: Out,
                                     scopes: seq<Scope>,
                                     ok: Check, end: nat, h: Heights, prots: seq<Proto>)
    requires scopes != [] && items != [] && at == base + 1 && GenEach(items, true, at, f.lists, scopes) == Some(all)
    requires |f.code| == 1 && f.code == [f.code[0]] && EffectOf(f.code[0]) == Falls(0, 1)
    requires IsCheck(ok, end, h, prots) && all.lists.prots <= prots
    requires ok(f.code + all.code + CallOrTail(tail, scopes, |items|), base)
    ensures f.lists.prots <= all.lists.prots && Rises(h, base, at + |all.code| + 1, 1, CleanEach(items, true))
    decreases items, 0, 1
  {
    var mid := at + |all.code|;
    Splits(ok, f.code + all.code, CallOrTail(tail, scopes, |items|), base, mid, end, h, prots);
    Splits(ok, f.code, all.code, base, at, end, h, prots);
    OneFlows(ok, f.code[0], base, end, h, prots);
    GenEachRises(items, true, at, f.lists, scopes, all, ok, end, h, prots);
    CallRises(tail, scopes, |items|, base, mid, ok, end, h, prots, CleanEach(items, true));
  }

  /** One value is dropped before the rest begins. */
  lemma DropRises(base: nat, mid: nat, last: nat, ok: Check, end: nat, h: Heights, prots: seq<Proto>, first: bool,
                  rest: bool)
    requires IsCheck(ok, end, h, prots) && ok(One(Pop, 1), mid)
    requires Rises(h, base, mid, 1, first) && Rises(h, mid + 1, last, 1, rest)
    ensures Rises(h, base, last, 1, first && rest)
  {
    OneFlows(ok, Inst(Pop, 1, 0), mid, end, h, prots);
  }

  lemma {:induction false} GenBodyRises(items: seq<Sexp>, base: nat, lists: Lists, scopes: seq<Scope>,
                                        x: Out, ok: Check, end: nat, h: Heights, prots: seq<Proto>)
    requires scopes != [] && items != [] && GenBody(items, base, lists, scopes) == Some(x)
    requires IsCheck(ok, end, h, prots) && x.lists.prots <= prots && ok(x.code, base)
    ensures lists.prots <= x.lists.prots && Rises(h, base, base + |x.code|, 1, CleanEach(items, false))
    decreases items, 0
  {
    if |items| == 1 {
      GenRises(items[0], true, false, base, lists, scopes, x, ok, end, h, prots);
    } else {
      var y := Gen(items[0], false, false, base, lists, scopes).value;
      var mid := base + |y.code|;
      var rest := GenBody(items[1..], mid + 1, y.lists, scopes).value;
      Splits(ok, y.code + One(Pop, 1), rest.code, base, mid + 1, end, h, prots);
      Splits(ok, y.code, One(Pop, 1), base, mid, end, h, prots);
      GenBodyRises(items[1..], mid + 1, y.lists, scopes, rest, ok, end, h, prots);
      GenRises(items[0], false, false, base, lists, scopes, y, ok, end, h, prots);
      DropRises(base, mid, base + |x.code|, ok, end, h, prots, Clean(items[0], false), CleanEach(items[1..], false));
    }
  }

  lemma {:induction false} GenDoRises(items: seq<Sexp>, base: nat, lists: Lists, scopes: seq<Scope>,
                                      x: Out, ok: Check, end: nat, h: Heights, prots: seq<Proto>)
    requires scopes != [] && items != [] && items[0].Symbol? && GenDo(items, base, lists, scopes) == Some(x)
    requires IsCheck(ok, end, h, prots) && x.lists.prots <= prots && ok(x.code, base)
    ensures lists.prots <= x.lists.prots && Rises(h, base, base + |x.code|, 1, CleanEach(items, false))
    decreases items, 1
  {
    CleanFirst(items);
    GenBodyRises(if |items| == 1 then items else items[1..], base, lists, scopes, x, ok, end, h, prots);
  }

  lemma {:induction false} GenIfRises(items: seq<Sexp>, tail: bool, base: nat, lists: Lists, scopes: seq<Scope>,
                                      x: Out, ok: Check, end: nat, h: Heights, prots: seq<Proto>)
    requires scopes != [] && items != [] && items[0].Symbol? && GenIf(items, tail, base, lists, scopes) == Some(x)
    requires IsCheck(ok, end, h, prots) && x.lists.prots <= prots && ok(x.code, base)
    ensures lists.prots <= x.lists.prots && Rises(h, base, base + |x.code|, 1, CleanForm("if", items))
    decreases items, 1
  {
    var c := Gen(items[1], false, false, base, lists, scopes).value;
    var test := base + |c.code|;
    var f := GenElse(items, tail, test + 1, c.lists, scopes).value;
    var jmp := test + 1 + |f.code|;
    var t := Gen(items[2], tail, false, jmp + 1, f.lists, scopes).value;
    assert x == Branches(c, f, t, jmp + 1);
    BranchSplits(ok, c.code, f.code, t.code, base, test, jmp, end, h, prots);
    GenRises(items[2], tail, false, jmp + 1, f.lists, scopes, t, ok, end, h, prots);
    GenElseRises(items, tail, test + 1, c.lists, scopes, f, ok, end, h, prots);
    GenRises(items[1], false, false, base, lists, scopes, c, ok, end, h, prots);
    IfClean(items, h, base, test, jmp, jmp + 1 + |t.code|);
  }

  lemma IfClean(items: seq<Sexp>, h: Heights, base: nat, test: nat, jmp: nat, last: nat)
    requires |items| >= 3 && items[0].Symbol?
    requires Rises(h, base, test, 1, Clean(items[1], false)) && Rises(h, jmp + 1, last, 1, Clean(items[2], false))
    requires Rises(h, test + 1, jmp, 1, |items| > 3 ==> Clean(items[3], false))
    requires h(test + 1) == h(test) - 1 && h(jmp + 1) == h(test) - 1 && h(last) == h(jmp)
    ensures Rises(h, base, last, 1, CleanForm("if", items))
  {
    CleanIf(items);
    IfRises(h, base, test, jmp, last, Clean(items[1], false), |items| > 3
        ==> Clean(items[3], false), Clean(items[2], false));
  }

  /** Both branches start where the condition was taken, and meet at one height. */
  lemma IfRises(h: Heights, base: nat, test: nat, jmp: nat, last: nat, c: bool, f: bool, t: bool)
    requires Rises(h, base, test, 1, c) && Rises(h, test + 1, jmp, 1, f) && Rises(h, jmp + 1, last, 1, t)
    requires h(test + 1) == h(test) - 1 && h(jmp + 1) == h(test) - 1 && h(last) == h(jmp)
    ensures Rises(h, base, last, 1, c && f && t)
  {
  }

  lemma BranchSplits(ok: Check, c: seq<Inst>, f: seq<Inst>, t: seq<Inst>, base: nat, test: nat, jmp: nat, end: nat,
                     h: Heights, prots: seq<Proto>)
    requires test == base + |c| && jmp == test + 1 + |f|
    requires IsCheck(ok, end, h, prots) && ok(c + One(Test, jmp + 1) + f + One(Jmp, jmp + 1 + |t|) + t, base)
    ensures ok(c, base) && ok(f, test + 1) && ok(t, jmp + 1)
    ensures h(test + 1) == h(test) - 1 && h(jmp + 1) == h(test) - 1 && h(jmp + 1 + |t|) == h(jmp)
  {
    var c1 := c + One(Test, jmp + 1);
    var c2 := c1 + f;
    var c3 := c2 + One(Jmp, jmp + 1 + |t|);
    Splits(ok, c3, t, base, jmp + 1, end, h, prots);
    Splits(ok, c2, One(Jmp, jmp + 1 + |t|), base, jmp, end, h, prots);
    Splits(ok, c1, f, base, test + 1, end, h, prots);
    Splits(ok, c, One(Test, jmp + 1), base, test, end, h, prots);
    OneFlows(ok, Inst(Jmp, jmp + 1 + |t|, 0), jmp, end, h, prots);
    OneFlows(ok, Inst(Test, jmp + 1, 0), test, end, h, prots);
  }

  lemma CleanIf(items: seq<Sexp>)
    requires |items| >= 3 && items[0].Symbol?
    ensures CleanForm("if", items) <==>
              Clean(items[1], false) && Clean(items[2], false) && (|items| > 3 ==> Clean(items[3], false))
  {
    var used := if |items| > 4 then items[..4] else items;
    CleanFirst(used);
    assert used[1..][0] == items[1] && used[1..][1..] == used[2..] && used[2..][0] == items[2];
    if |items| > 3 {
      assert used[2..][1..] == [items[3]];
      CleanOne(items[3]);
    } else {
      assert used[2..] == [items[2]];
      CleanOne(items[2]);
    }
  }

  lemma {:induction false} GenElseRises(items: seq<Sexp>, tail: bool, base: nat, lists: Lists, scopes: seq<Scope>,
                                        x: Out, ok: Check, end: nat, h: Heights, prots: seq<Proto>)
    requires scopes != [] && GenElse(items, tail, base, lists, scopes) == Some(x)
    requires IsCheck(ok, end, h, prots) && x.lists.prots <= prots && ok(x.code, base)
    ensures lists.prots <= x.lists.prots
    ensures Rises(h, base, base + |x.code|, 1, |items| > 3 ==> Clean(items[3], false))
    decreases items, 0
  {
    if |items| > 3 {
      GenRises(items[3], tail, false, base, lists, scopes, x, ok, end, h, prots);
    } else {
      OneFlows(ok, x.code[0], base, end, h, prots);
    }
  }

  /** A closure over a body that keeps the discipline. */
  lemma {:induction false} GenClosureRises(labels: seq<string>, narg: int, body: seq<Sexp>, base: nat, lists: Lists,
                                           scopes: seq<Scope>,
                                           x: Out, ok: Check, end: nat, h: Heights, prots: seq<Proto>)
    requires body != [] && GenClosure(labels, narg, body, lists, scopes) == Some(x)
    requires IsCheck(ok, end, h, prots) && x.lists.prots <= prots && ok(x.code, base)
    ensures lists.prots <= x.lists.prots && |x.code| == 1 && h(base + 1) == h(base) + 1 && CleanEach(body, false)
    decreases body, 1
  {
    var inner := [Scope(labels, false)] + scopes;
    var b := GenBody(body, 0, NOTHING, inner).value;
    var proto := Proto(b.code + One(Return, 0), b.lists.consts, b.lists.ups, b.lists.prots);
    assert x.code[0] == Inst(Lambda, |lists.prots|, narg) && prots[|lists.prots|] == proto;
    OneFlows(ok, x.code[0], base, end, h, prots);
    var inside, g := ProtoChecks(b, proto, narg);
    GenBodyRises(body, 0, NOTHING, inner, b, inside, |b.code|, g, b.lists.prots);
  }

  /** A prototype in order: its body leaves one value. */
  lemma ProtoChecks(b: Out, p: Proto, narg: int) returns (ok: Check, g: Heights)
    requires p == Proto(b.code + One(Return, 0), b.lists.consts, b.lists.ups, b.lists.prots) && ProtoOk(p, Slots(narg))
    ensures IsCheck(ok, |b.code|, g, b.lists.prots) && ok(b.code, 0) && g(0) == 0 && g(|b.code|) == 1
  {
    assert p.insts[..|p.insts| - 1] == b.code;
    ok, g := CodeChecks(b.code, Slots(narg), p.consts, |p.ups|, p.prots);
  }

  lemma CodeChecks(code: seq<Inst>, labels: nat, consts: seq<Const>, ups: nat, prots: seq<Proto>) returns (ok: Check,
                   g: Heights)
    requires SaurusStack.Leaves(code, 0, 1) && OperandsOk(code, labels, consts, ups, prots)
    ensures IsCheck(ok, |code|, g, prots) && ok(code, 0) && g(0) == 0 && g(|code|) == 1
  {
    g := Witness(Effects(code), 0, |code|, 1);
    IsConsistent(code, 0, |code|, g, labels, consts, ups, prots);
    ok := MakeCheck(|code|, g, prots);
    assert Consistent(code, 0, |code|, g, prots);
  }

  lemma MakeCheck(end: nat, h: Heights, prots: seq<Proto>) returns (ok: Check)
    ensures IsCheck(ok, end, h, prots)
  {
    ok := (code: seq<Inst>, base: nat) => Consistent(code, base, end, h, prots);
  }

  lemma {:induction false} GenLambdaRises(items: seq<Sexp>, base: nat, lists: Lists, scopes: seq<Scope>,
                                          x: Out, ok: Check, end: nat, h: Heights, prots: seq<Proto>)
    requires scopes != [] && GenLambda(items, base, lists, scopes) == Some(x)
    requires IsCheck(ok, end, h, prots) && x.lists.prots <= prots && ok(x.code, base)
    ensures lists.prots <= x.lists.prots && Rises(h, base, base + |x.code|, 1, CleanEach(items[2..], false))
    decreases items, 1
  {
    match items[1]
    case List(args) => GenClosureRises(Names(args).value, |args|, items[2..], base, lists, scopes, x, ok, end, h,
        prots);
    case Symbol(name) => GenClosureRises([name], -1, items[2..], base, lists, scopes, x, ok, end, h, prots);
  }

  lemma {:induction false} GenValuesRises(args: seq<Sexp>, base: nat, lists: Lists, scopes: seq<Scope>,
                                          x: Out, ok: Check, end: nat, h: Heights, prots: seq<Proto>)
    requires scopes != [] && |args| % 2 == 0 && Keys(args).Some? && GenValues(args, base, lists, scopes) == Some(x)
    requires IsCheck(ok, end, h, prots) && x.lists.prots <= prots && ok(x.code, base)
    ensures lists.prots <= x.lists.prots && Rises(h, base, base + |x.code|, |args| / 2, CleanEach(args, false))
    decreases args, 0
  {
    if args != [] {
      var y := Gen(args[1], false, false, base, lists, scopes).value;
      var mid := base + |y.code|;
      var rest := GenValues(args[2..], mid, y.lists, scopes).value;
      Splits(ok, y.code, rest.code, base, mid, end, h, prots);
      GenValuesRises(args[2..], mid, y.lists, scopes, rest, ok, end, h, prots);
      GenRises(args[1], false, false, base, lists, scopes, y, ok, end, h, prots);
      CleanPair(args);
      RisesTogether(h, base, mid, base + |x.code|, 1, |args| / 2 - 1, Clean(args[1], false),
          CleanEach(args[2..], false));
    }
  }

  lemma CleanPair(args: seq<Sexp>)
    requires |args| >= 2 && args[0].Symbol?
    ensures CleanEach(args, false) <==> Clean(args[1], false) && CleanEach(args[2..], false)
  {
    CleanFirst(args);
    assert args[1..][1..] == args[2..] && args[1..][0] == args[1];
  }

  lemma {:induction false} GenLetRises(items: seq<Sexp>, tail: bool, base: nat, lists: Lists, scopes: seq<Scope>,
                                       x: Out, ok: Check, end: nat, h: Heights, prots: seq<Proto>)
    requires scopes != [] && items != [] && GenLet(items, tail, base, lists, scopes) == Some(x)
    requires IsCheck(ok, end, h, prots) && x.lists.prots <= prots && ok(x.code, base)
    ensures lists.prots <= x.lists.prots && Rises(h, base, base + |x.code|, 1, CleanForm("let", items))
    decreases items, 1
  {
    var args := items[1].items;
    var labels := Keys(args).value;
    KeysCount(args);
    var f := GenClosure(labels, |labels|, items[2..], lists, scopes).value;
    var mid := base + |f.code|;
    var values := GenValues(args, mid, f.lists, scopes).value;
    var last := mid + |values.code|;
    Splits(ok, f.code + values.code, CallOrTail(tail, scopes, |labels|), base, last, end, h, prots);
    Splits(ok, f.code, values.code, base, mid, end, h, prots);
    GenValuesRises(args, mid, f.lists, scopes, values, ok, end, h, prots);
    GenClosureRises(labels, |labels|, items[2..], base, lists, scopes, f, ok, end, h, prots);
    CallRises(tail, scopes, |labels|, base, last, ok, end, h, prots, CleanForm("let", items));
  }

  lemma {:induction false} GenDefineRises(items: seq<Sexp>, base: nat, lists: Lists, scopes: seq<Scope>,
                                          x: Out, ok: Check, end: nat, h: Heights, prots: seq<Proto>)
    requires scopes != [] && GenDefine(items, base, lists, scopes) == Some(x)
    requires IsCheck(ok, end, h, prots) && x.lists.prots <= prots && ok(x.code, base)
    ensures lists.prots <= x.lists.prots && Rises(h, base, base + |x.code|, 1, CleanForm("define", items))
    decreases items, 1
  {
    var y := Gen(items[2], false, false, base, lists, scopes).value;
    var mid := base + |y.code|;
    var store := Inst(SetGlobal, ConstIndex(y.lists.consts, StrConst(items[1].name)), 0);
    Splits(ok, y.code, [store], base, mid, end, h, prots);
    GenRises(items[2], false, false, base, lists, scopes, y, ok, end, h, prots);
    UnaryRises(store, base, mid, ok, end, h, prots, Clean(items[2], false));
  }

  /** Compiled code, and that of every function in it, leaves exactly one value on every control path, never
      reaches below its entry height and jumps strictly forward inside itself, if and only if the source has
      no two-operand `not` that is evaluated. */
  lemma CompiledIsOkIff(e: Sexp)
    requires GenTop(e).Some?
    ensures ProtoOk(GenTop(e).value, Slots(-1)) <==> Clean(e, false)
  {
    var p := GenTop(e).value;
    var scopes := [Scope([], true)];
    var x := Gen(e, false, false, 0, NOTHING, scopes).value;
    if Clean(e, false) {
      CompiledIsOk(e);
    } else if ProtoOk(p, 1) {
      TopRises(e, x, p, scopes);
    }
  }

  /** The program is called with one argument, and leaves what it leaves. */
  lemma CallAtEnd(ok: Check, code: seq<Inst>, at: nat, end: nat, h: Heights, prots: seq<Proto>)
    requires IsCheck(ok, end, h, prots) && at == |code| && end == at + 2 && ok(code + One(Load, 0) + One(Call, 1), 0)
    ensures ok(code, 0) && h(at) == h(end)
  {
    Splits(ok, code + One(Load, 0), One(Call, 1), 0, at + 1, end, h, prots);
    Splits(ok, code, One(Load, 0), 0, at, end, h, prots);
    OneFlows(ok, Inst(Call, 1, 0), at + 1, end, h, prots);
    OneFlows(ok, Inst(Load, 0, 0), at, end, h, prots);
  }

  lemma TopRises(e: Sexp, x: Out, p: Proto, scopes: seq<Scope>)
    requires scopes == [Scope([], true)] && Gen(e, false, false, 0, NOTHING, scopes) == Some(x)
    requires p == TopProto(x) && ProtoOk(p, 1)
    ensures Clean(e, false)
  {
    var code := x.code + One(Load, 0) + One(Call, 1);
    assert p.insts[..|p.insts| - 1] == code;
    var at, end := |x.code|, |x.code| + 2;
    var ok, h := CodeChecks(code, 1, p.consts, |p.ups|, p.prots);
    CallAtEnd(ok, x.code, at, end, h, p.prots);
    GenRises(e, false, false, 0, NOTHING, scopes, x, ok, end, h, p.prots);
  }

  /** (not 1 2) compiles, but to code that does not keep the discipline. */
  lemma NotBreaks()
    ensures var e := List([Symbol("not"), Number(1.0), Number(2.0)]);
            GenTop(e).Some? && !ProtoOk(GenTop(e).value, Slots(-1))
  {
    var items := [Symbol("not"), Number(1.0), Number(2.0)];
    var scopes := [Scope([], true)];
    assert GenForm("not", items, false, 0, NOTHING, scopes) == GenBinary(Not, items, 1, 2, 0, NOTHING, scopes);
    assert GenBinary(Not, items, 1, 2, 0, NOTHING, scopes).Some?;
    CompiledIsOkIff(List(items));
  }
}
