/** The stack discipline of generated code: what every expression leaves on the stack, on every
    control path, and where its jumps may go (src/compiler/gen.lua). */
module SaurusStack {
  import opened SaurusGen
  import opened StackFlow

  // ---------------------------------------------------------------- effects

  function EffectOf(i: Inst): Effect {
    match i.op
    case Push | Copy | Lambda | GetGlobal | Load => Falls(0, 1)
    case Unm | Not | SetGlobal => Falls(1, 0)
    case Pop => Falls(i.a, -(i.a as int))
    case Call | TailCall => Falls(i.a + 1, -(i.a as int))
    case Test => Tests(i.a)
    case Jmp => Jumps(i.a)
    case Return => Stops
    case Add | Sub | Mul | Div | Mod | Pow | Eq | Less | LessEqual | And | Or => Falls(2, -1)
  }

  function Effects(code: seq<Inst>): (r: seq<Effect>)
    ensures |r| == |code| && forall k | 0 <= k < |code| :: r[k] == EffectOf(code[k])
  {
    seq(|code|, k requires 0 <= k < |code| => EffectOf(code[k]))
  }

  /** Code that leaves exactly `net` values on every control path, never reaches below its entry height,
      and jumps only strictly forward, inside itself or to just after itself. */
  ghost predicate Leaves(code: seq<Inst>, base: nat, net: int) {
    Balanced(Effects(code), base, net)
  }

  lemma LeavesSequence(c: seq<Inst>, d: seq<Inst>, base: nat, m: nat, n: int)
    requires Leaves(c, base, m) && Leaves(d, base + |c|, n)
    ensures Leaves(c + d, base, m + n)
  {
    assert Effects(c + d) == Effects(c) + Effects(d);
    Sequence(Effects(c), Effects(d), base, m, n);
  }

  lemma LeavesThen(c: seq<Inst>, i: Inst, base: nat, m: nat)
    requires Leaves(c, base, m) && EffectOf(i).Falls? && EffectOf(i).needs <= m
    ensures Leaves(c + [i], base, m + EffectOf(i).delta)
  {
    assert Effects(c + [i]) == Effects(c) + [EffectOf(i)];
    Then(Effects(c), EffectOf(i), base, m);
  }

  lemma LeavesOne(i: Inst, base: nat)
    requires EffectOf(i) == Falls(0, 1)
    ensures Leaves([i], base, 1)
  {
    Nothing(base);
    assert Effects([]) == [];
    LeavesThen([], i, base, 0);
    assert [] + [i] == [i];
  }

  lemma LeavesBranch(c: seq<Inst>, f: seq<Inst>, t: seq<Inst>, base: nat, toThen: nat)
    requires Leaves(c, base, 1) && Leaves(f, base + |c| + 1, 1) && Leaves(t, toThen, 1)
    requires toThen == base + |c| + |f| + 2
    ensures Leaves(c + One(Test, toThen) + f + One(Jmp, toThen + |t|) + t, base, 1)
  {
    Branch(Effects(c), Effects(f), Effects(t), base, 1);
    EffectsJoin(c, One(Test, toThen));
    EffectsJoin(c + One(Test, toThen), f);
    EffectsJoin(c + One(Test, toThen) + f, One(Jmp, toThen + |t|));
    EffectsJoin(c + One(Test, toThen) + f + One(Jmp, toThen + |t|), t);
    assert Effects(One(Test, toThen)) == [Tests(toThen)] && Effects(One(Jmp, toThen + |t|)) == [Jumps(toThen + |t|)];
  }

  lemma EffectsJoin(c: seq<Inst>, d: seq<Inst>)
    ensures Effects(c + d) == Effects(c) + Effects(d)
  {
  }

  // ---------------------------------------------------------------- well-formed prototypes

  function Slots(narg: int): nat {
    if narg < 0 then 1 else narg
  }

  /** The operand names something that exists in a function with this many labels and these lists. */
  ghost predicate OperandOk(i: Inst, labels: nat, consts: seq<Const>, ups: nat, prots: seq<Proto>)
    decreases prots, 0
  {
    if i.op == Push then i.a < |consts|
    else if i.op == GetGlobal || i.op == SetGlobal then i.a < |consts| && consts[i.a].StrConst?
    else if i.op == Load then i.a < labels + ups
    else if i.op == Copy then i.a == 0
    else if i.op == Lambda then
      i.a < |prots| && ProtoOk(prots[i.a], Slots(i.b)) && CapturesOk(prots[i.a].ups, labels)
    else true
  }

  /** A capture from the creator's own frame names one of the creator's labels. */
  ghost predicate CapturesOk(ups: seq<Upvalue>, labels: nat) {
    forall k | 0 <= k < |ups| :: ups[k].lv >= 1 && (ups[k].lv == 1 ==> ups[k].idx < labels)
  }

  ghost predicate OperandsOk(code: seq<Inst>, labels: nat, consts: seq<Const>, ups: nat, prots: seq<Proto>)
    decreases prots, 1
  {
    forall k | 0 <= k < |code| :: OperandOk(code[k], labels, consts, ups, prots)
  }

  /** The body leaves one value, which the last instruction returns. */
  ghost predicate ProtoOk(p: Proto, labels: nat)
    decreases p, 2
  {
    && p.insts != [] && p.insts[|p.insts| - 1] == Inst(Return, 0, 0)
    && Leaves(p.insts[..|p.insts| - 1], 0, 1)
    && OperandsOk(p.insts[..|p.insts| - 1], labels, p.consts, |p.ups|, p.prots)
  }

  ghost predicate CodeOk(code: seq<Inst>, labels: nat, lists: Lists) {
    OperandsOk(code, labels, lists.consts, |lists.ups|, lists.prots)
  }

  ghost predicate Grows(a: Lists, b: Lists) {
    a.consts <= b.consts && a.ups <= b.ups && a.prots <= b.prots
  }

  lemma OperandKept(i: Inst, labels: nat, a: Lists, b: Lists)
    requires OperandOk(i, labels, a.consts, |a.ups|, a.prots) && Grows(a, b)
    ensures OperandOk(i, labels, b.consts, |b.ups|, b.prots)
  {
    assert i.op == Lambda ==> b.prots[i.a] == a.prots[i.a];
  }

  lemma CodeKept(code: seq<Inst>, labels: nat, a: Lists, b: Lists)
    requires CodeOk(code, labels, a) && Grows(a, b)
    ensures CodeOk(code, labels, b)
  {
    forall k | 0 <= k < |code| ensures OperandOk(code[k], labels, b.consts, |b.ups|, b.prots) {
      OperandKept(code[k], labels, a, b);
    }
  }

  ghost predicate UpsOk(ups: seq<Upvalue>, scopes: seq<Scope>) {
    CapturesOk(ups, if |scopes| > 1 then |scopes[1].labels| else 0)
  }

  // ---------------------------------------------------------------- what keeps the discipline

  /** No two-operand `not` is evaluated: it is the one form whose instruction takes fewer operands than
      the form pushes. */
  predicate Clean(e: Sexp, quoted: bool)
    decreases e, 1
  {
    match e
    case Number(_) => true
    case Symbol(_) => true
    case List(items) =>
      if items == [] then true
      else if quoted then
        if IsName(items[0], "unquote") then |items| < 2 || Clean(items[1], false) else CleanEach(items, true)
      else if items[0].Symbol? then CleanForm(items[0].name, items)
      else CleanEach(items, false)
  }

  predicate CleanForm(name: string, items: seq<Sexp>)
    requires items != []
    decreases items, 1
  {
    if name == "quote" then |items| < 2 || Clean(items[1], true)
    else if name == "lambda" then |items| < 3 || CleanEach(items[2..], false)
    else if name == "let" then
      |items| < 3 || (CleanEach(items[2..], false) && (items[1].List? ==> CleanEach(items[1].items, false)))
    else if name == "define" then |items| < 3 || Clean(items[2], false)
    else if name == "not" && |items| == 3 then false
    else if name == "if" then CleanEach(if |items| > 4 then items[..4] else items, false)
    else CleanEach(items, false)
  }

  predicate CleanEach(items: seq<Sexp>, quoted: bool)
    decreases items, 0
  {
    items == [] || (Clean(items[0], quoted) && CleanEach(items[1..], quoted))
  }

  lemma {:induction false} CleanAt(items: seq<Sexp>, quoted: bool, k: nat)
    requires CleanEach(items, quoted) && k < |items|
    ensures Clean(items[k], quoted)
    decreases items
  {
    if k > 0 { CleanAt(items[1..], quoted, k - 1); }
  }

  // ---------------------------------------------------------------- the theorem

  /** Code that leaves `net` values, names only what exists, and came with lists that only grew. */
  ghost predicate Good(out: Out, base: nat, net: int, scopes: seq<Scope>, before: Lists)
    requires scopes != []
  {
    && Grows(before, out.lists) && UpsOk(out.lists.ups, scopes)
    && CodeOk(out.code, |scopes[0].labels|, out.lists)
    && Leaves(out.code, base, net)
  }

  lemma {:induction false} ConstAdded(consts: seq<Const>, c: Const)
    ensures consts <= AddConst(consts, c)
    ensures ConstIndex(consts, c) < |AddConst(consts, c)| && AddConst(consts, c)[ConstIndex(consts, c)] == c
  {
  }

  lemma GenConstGood(c: Const, base: nat, lists: Lists, scopes: seq<Scope>)
    requires scopes != [] && UpsOk(lists.ups, scopes)
    ensures Good(GenConst(c, lists), base, 1, scopes, lists)
  {
    ConstAdded(lists.consts, c);
    LeavesOne(Inst(Push, ConstIndex(lists.consts, c), 0), base);
  }

  lemma {:induction false} FindUpOk(scopes: seq<Scope>, name: string, lv: nat)
    ensures FindUp(scopes, name, lv).Some? ==>
      var u := FindUp(scopes, name, lv).value;
      lv <= u.lv < lv + |scopes| && u.idx < |scopes[u.lv - lv].labels| && scopes[u.lv - lv].labels[u.idx] == name
    ensures FindUp(scopes, name, lv).Some? && FindLabel(scopes[0].labels, name).None? ==>
              FindUp(scopes, name, lv).value.lv > lv
  {
    if scopes != [] { FindUpOk(scopes[1..], name, lv + 1); }
  }

  lemma GenFetchGood(name: string, base: nat, lists: Lists, scopes: seq<Scope>)
    requires scopes != [] && UpsOk(lists.ups, scopes)
    ensures Good(GenFetch(name, lists, scopes), base, 1, scopes, lists)
  {
    ConstAdded(lists.consts, StrConst(name));
    FindUpOk(scopes, name, 0);
    LeavesOne(GenFetch(name, lists, scopes).code[0], base);
  }

  lemma NothingGood(base: nat, lists: Lists, scopes: seq<Scope>)
    requires scopes != [] && UpsOk(lists.ups, scopes)
    ensures Good(Out([], lists), base, 0, scopes, lists)
  {
    Nothing(base);
    assert Effects([]) == [];
  }

  /** Two results, one after the other. */
  lemma GoodSequence(x: Out, y: Out, base: nat, m: nat, n: int, scopes: seq<Scope>, before: Lists)
    requires scopes != [] && Good(x, base, m, scopes, before) && Good(y, base + |x.code|, n, scopes, x.lists)
    ensures Good(Out(x.code + y.code, y.lists), base, m + n, scopes, before)
  {
    CodeKept(x.code, |scopes[0].labels|, x.lists, y.lists);
    assert CodeOk(x.code + y.code, |scopes[0].labels|, y.lists);
    LeavesSequence(x.code, y.code, base, m, n);
  }

  /** A result followed by an instruction that uses its values. */
  lemma GoodThen(x: Out, op: Op, a: nat, base: nat, m: nat, scopes: seq<Scope>, before: Lists)
    requires scopes != [] && Good(x, base, m, scopes, before)
    requires EffectOf(Inst(op, a, 0)).Falls? && EffectOf(Inst(op, a, 0)).needs <= m
    requires OperandOk(Inst(op, a, 0), |scopes[0].labels|, x.lists.consts, |x.lists.ups|, x.lists.prots)
    ensures Good(Out(x.code + One(op, a), x.lists), base, m + EffectOf(Inst(op, a, 0)).delta, scopes, before)
  {
    LeavesThen(x.code, Inst(op, a, 0), base, m);
  }

  lemma {:induction false} GenGood(e: Sexp, tail: bool, quoted: bool, base: nat, lists: Lists, scopes: seq<Scope>)
    requires scopes != [] && UpsOk(lists.ups, scopes) && Clean(e, quoted)
    requires Gen(e, tail, quoted, base, lists, scopes).Some?
    ensures Good(Gen(e, tail, quoted, base, lists, scopes).value, base, 1, scopes, lists)
    decreases e, 1
  {
    match e
    case Number(n) => GenConstGood(NumConst(n), base, lists, scopes);
    case Symbol(name) =>
      if quoted || IsLiteral(name) {
        GenConstGood(StrConst(name), base, lists, scopes);
      } else {
        GenFetchGood(name, base, lists, scopes);
      }
    case List(items) =>
      if quoted {
        GenListGood(items, tail, base, lists, scopes);
      } else if items[0].Symbol? {
        GenFormGood(items[0].name, items, tail, base, lists, scopes);
      } else {
        GenCallGood(items, tail, base, lists, scopes);
      }
  }

  lemma {:induction false} GenFormGood(name: string, items: seq<Sexp>, tail: bool, base: nat, lists: Lists,
                                       scopes: seq<Scope>)
    requires scopes != [] && UpsOk(lists.ups, scopes) && items != [] && CleanForm(name, items)
    requires GenForm(name, items, tail, base, lists, scopes).Some?
    ensures Good(GenForm(name, items, tail, base, lists, scopes).value, base, 1, scopes, lists)
    decreases items, 2
  {
    if name == "if" {
      GenIfGood(items, tail, base, lists, scopes);
    } else if name == "do" {
      GenDoGood(items, base, lists, scopes);
    } else if name == "quote" {
      GenGood(items[1], tail, true, base, lists, scopes);
    } else if name == "lambda" {
      GenLambdaGood(items, base, lists, scopes);
    } else if name == "let" {
      GenLetGood(items, tail, base, lists, scopes);
    } else if name == "rec" {
      GenRecGood(items, tail, base, lists, scopes);
    } else if name == "define" {
      GenDefineGood(items, base, lists, scopes);
    } else if name == "-" && |items| == 2 {
      CleanAt(items, false, 1);
      GenGood(items[1], false, false, base, lists, scopes);
      GoodThen(Gen(items[1], false, false, base, lists, scopes).value, Unm, 0, base, 1, scopes, lists);
    } else if BinaryOp(name).Some? && |items| == 3 {
      if IsReversed(name) {
        GenBinaryGood(BinaryOp(name).value, items, 2, 1, base, lists, scopes);
      } else {
        GenBinaryGood(BinaryOp(name).value, items, 1, 2, base, lists, scopes);
      }
    } else {
      GenCallGood(items, tail && !(BinaryOp(name).Some? && IsReversed(name)), base, lists, scopes);
    }
  }

  lemma {:induction false} GenBinaryGood(op: Op, items: seq<Sexp>, i: nat, j: nat, base: nat, lists: Lists,
                                         scopes: seq<Scope>)
    requires scopes != [] && UpsOk(lists.ups, scopes) && i < |items| && j < |items| && CleanEach(items, false)
    requires op in {Add, Sub, Mul, Div, Mod, Pow, Eq, Less, LessEqual, And, Or}
    requires GenBinary(op, items, i, j, base, lists, scopes).Some?
    ensures Good(GenBinary(op, items, i, j, base, lists, scopes).value, base, 1, scopes, lists)
    decreases items, 1
  {
    CleanAt(items, false, i);
    CleanAt(items, false, j);
    GenGood(items[i], false, false, base, lists, scopes);
    var x := Gen(items[i], false, false, base, lists, scopes).value;
    GenGood(items[j], false, false, base + |x.code|, x.lists, scopes);
    var y := Gen(items[j], false, false, base + |x.code|, x.lists, scopes).value;
    GoodBinary(op, x, y, base, scopes, lists);
  }

  lemma GoodBinary(op: Op, x: Out, y: Out, base: nat, scopes: seq<Scope>, before: Lists)
    requires scopes != [] && Good(x, base, 1, scopes, before) && Good(y, base + |x.code|, 1, scopes, x.lists)
    requires op in {Add, Sub, Mul, Div, Mod, Pow, Eq, Less, LessEqual, And, Or}
    ensures Good(Out(x.code + y.code + One(op, 0), y.lists), base, 1, scopes, before)
  {
    GoodSequence(x, y, base, 1, 1, scopes, before);
    GoodThen(Out(x.code + y.code, y.lists), op, 0, base, 2, scopes, before);
  }

  lemma {:induction false} GenEachGood(items: seq<Sexp>, quoted: bool, base: nat, lists: Lists, scopes: seq<Scope>)
    requires scopes != [] && UpsOk(lists.ups, scopes) && CleanEach(items, quoted)
    requires GenEach(items, quoted, base, lists, scopes).Some?
    ensures Good(GenEach(items, quoted, base, lists, scopes).value, base, |items|, scopes, lists)
    decreases items, 0
  {
    if items == [] {
      NothingGood(base, lists, scopes);
    } else {
      GenGood(items[0], false, quoted, base, lists, scopes);
      var x := Gen(items[0], false, quoted, base, lists, scopes).value;
      GenEachGood(items[1..], quoted, base + |x.code|, x.lists, scopes);
      GoodSequence(x, GenEach(items[1..], quoted, base + |x.code|, x.lists, scopes).value,
                   base, 1, |items| - 1, scopes, lists);
    }
  }

  lemma {:induction false} GenCallGood(items: seq<Sexp>, tail: bool, base: nat, lists: Lists, scopes: seq<Scope>)
    requires scopes != [] && UpsOk(lists.ups, scopes) && items != [] && CleanEach(items, false)
    requires GenCall(items, tail, base, lists, scopes).Some?
    ensures Good(GenCall(items, tail, base, lists, scopes).value, base, 1, scopes, lists)
    decreases items, 1
  {
    GenEachGood(items, false, base, lists, scopes);
    GoodThen(GenEach(items, false, base, lists, scopes).value, CallOrTail(tail, scopes, |items| - 1)[0].op, |items| - 1,
             base, |items|, scopes, lists);
  }

  lemma {:induction false} GenRecGood(items: seq<Sexp>, tail: bool, base: nat, lists: Lists, scopes: seq<Scope>)
    requires scopes != [] && UpsOk(lists.ups, scopes) && items != [] && CleanEach(items, false)
    requires GenRec(items, tail, base, lists, scopes).Some?
    ensures Good(GenRec(items, tail, base, lists, scopes).value, base, 1, scopes, lists)
    decreases items, 1
  {
    GenEachGood(items[1..], false, base + 1, lists, scopes);
    var args := GenEach(items[1..], false, base + 1, lists, scopes).value;
    var self := Out(One(Copy, 0), lists);
    LeavesOne(Inst(Copy, 0, 0), base);
    assert Good(self, base, 1, scopes, lists);
    GoodCall(self, args, |items| - 1, tail, base, scopes, lists);
  }

  /** A callee, its arguments, and the call. */
  lemma GoodCall(f: Out, args: Out, narg: nat, tail: bool, base: nat, scopes: seq<Scope>, before: Lists)
    requires scopes != [] && Good(f, base, 1, scopes, before) && Good(args, base + |f.code|, narg, scopes, f.lists)
    ensures Good(Out(f.code + args.code + CallOrTail(tail, scopes, narg), args.lists), base, 1, scopes, before)
  {
    GoodSequence(f, args, base, 1, narg, scopes, before);
    GoodThen(Out(f.code + args.code, args.lists), CallOrTail(tail, scopes, narg)[0].op, narg, base, narg + 1, scopes,
        before);
  }

  lemma {:induction false} GenBodyGood(items: seq<Sexp>, base: nat, lists: Lists, scopes: seq<Scope>)
    requires scopes != [] && UpsOk(lists.ups, scopes) && items != [] && CleanEach(items, false)
    requires GenBody(items, base, lists, scopes).Some?
    ensures Good(GenBody(items, base, lists, scopes).value, base, 1, scopes, lists)
    decreases items, 0
  {
    if |items| == 1 {
      GenGood(items[0], true, false, base, lists, scopes);
    } else {
      GenGood(items[0], false, false, base, lists, scopes);
      var x := Gen(items[0], false, false, base, lists, scopes).value;
      GenBodyGood(items[1..], base + |x.code| + 1, x.lists, scopes);
      GoodBody(x, GenBody(items[1..], base + |x.code| + 1, x.lists, scopes).value, base, scopes, lists);
    }
  }

  lemma GoodBody(x: Out, rest: Out, base: nat, scopes: seq<Scope>, before: Lists)
    requires scopes != [] && Good(x, base, 1, scopes, before) && Good(rest, base + |x.code| + 1, 1, scopes, x.lists)
    ensures Good(Out(x.code + One(Pop, 1) + rest.code, rest.lists), base, 1, scopes, before)
  {
    GoodThen(x, Pop, 1, base, 1, scopes, before);
    GoodSequence(Out(x.code + One(Pop, 1), x.lists), rest, base, 0, 1, scopes, before);
  }

  lemma {:induction false} GenDoGood(items: seq<Sexp>, base: nat, lists: Lists, scopes: seq<Scope>)
    requires scopes != [] && UpsOk(lists.ups, scopes) && items != [] && CleanEach(items, false)
    requires GenDo(items, base, lists, scopes).Some?
    ensures Good(GenDo(items, base, lists, scopes).value, base, 1, scopes, lists)
    decreases items, 1
  {
    GenBodyGood(if |items| == 1 then items else items[1..], base, lists, scopes);
  }

  lemma {:induction false} GenListGood(items: seq<Sexp>, tail: bool, base: nat, lists: Lists, scopes: seq<Scope>)
    requires scopes != [] && UpsOk(lists.ups, scopes) && items != [] && Clean(List(items), true)
    requires GenList(items, tail, base, lists, scopes).Some?
    ensures Good(GenList(items, tail, base, lists, scopes).value, base, 1, scopes, lists)
    decreases items, 1
  {
    if IsName(items[0], "unquote") {
      GenGood(items[1], tail, false, base, lists, scopes);
    } else {
      GenFetchGood("list", base, lists, scopes);
      var f := GenFetch("list", lists, scopes);
      GenEachGood(items, true, base + |f.code|, f.lists, scopes);
      var all := GenEach(items, true, base + |f.code|, f.lists, scopes).value;
      GoodCall(f, all, |items|, tail, base, scopes, lists);
    }
  }

  lemma {:induction false} GenIfGood(items: seq<Sexp>, tail: bool, base: nat, lists: Lists, scopes: seq<Scope>)
    requires scopes != [] && UpsOk(lists.ups, scopes) && items != [] && CleanForm("if", items)
    requires GenIf(items, tail, base, lists, scopes).Some?
    ensures Good(GenIf(items, tail, base, lists, scopes).value, base, 1, scopes, lists)
    decreases items, 1
  {
    var used := if |items| > 4 then items[..4] else items;
    CleanAt(used, false, 1);
    CleanAt(used, false, 2);
    if |items| > 3 { CleanAt(used, false, 3); }
    var c := Gen(items[1], false, false, base, lists, scopes).value;
    var at := base + |c.code| + 1;
    var f := GenElse(items, tail, at, c.lists, scopes).value;
    var toThen := at + |f.code| + 1;
    var t := Gen(items[2], tail, false, toThen, f.lists, scopes).value;
    assert GenIf(items, tail, base, lists, scopes).value == Branches(c, f, t, toThen);
    GenGood(items[1], false, false, base, lists, scopes);
    GenElseGood(items, tail, at, c.lists, scopes);
    GenGood(items[2], tail, false, toThen, f.lists, scopes);
    GoodBranch(c, f, t, base, scopes, lists);
  }

  lemma {:induction false} GenElseGood(items: seq<Sexp>, tail: bool, base: nat, lists: Lists, scopes: seq<Scope>)
    requires scopes != [] && UpsOk(lists.ups, scopes) && (|items| > 3 ==> Clean(items[3], false))
    requires GenElse(items, tail, base, lists, scopes).Some?
    ensures Good(GenElse(items, tail, base, lists, scopes).value, base, 1, scopes, lists)
    decreases items, 0
  {
    if |items| > 3 {
      GenGood(items[3], tail, false, base, lists, scopes);
    } else {
      GenConstGood(StrConst("nil"), base, lists, scopes);
    }
  }

  lemma GoodBranch(c: Out, f: Out, t: Out, base: nat, scopes: seq<Scope>, before: Lists)
    requires scopes != [] && Good(c, base, 1, scopes, before) && Good(f, base + |c.code| + 1, 1, scopes, c.lists)
    requires Good(t, base + |c.code| + |f.code| + 2, 1, scopes, f.lists)
    ensures var toThen := base + |c.code| + |f.code| + 2;
      Good(Branches(c, f, t, toThen), base, 1, scopes, before)
  {
    CodeKept(c.code, |scopes[0].labels|, c.lists, t.lists);
    CodeKept(f.code, |scopes[0].labels|, f.lists, t.lists);
    LeavesBranch(c.code, f.code, t.code, base, base + |c.code| + |f.code| + 2);
    var toThen := base + |c.code| + |f.code| + 2;
    BranchCode(c.code, f.code, t.code, toThen, |scopes[0].labels|, t.lists);
  }

  lemma BranchCode(c: seq<Inst>, f: seq<Inst>, t: seq<Inst>, toThen: nat, labels: nat, lists: Lists)
    requires CodeOk(c, labels, lists) && CodeOk(f, labels, lists) && CodeOk(t, labels, lists)
    ensures CodeOk(c + One(Test, toThen) + f + One(Jmp, toThen + |t|) + t, labels, lists)
  {
    CodeConcat(c, One(Test, toThen), labels, lists);
    CodeConcat(c + One(Test, toThen), f, labels, lists);
    CodeConcat(c + One(Test, toThen) + f, One(Jmp, toThen + |t|), labels, lists);
    CodeConcat(c + One(Test, toThen) + f + One(Jmp, toThen + |t|), t, labels, lists);
  }

  lemma CodeConcat(c: seq<Inst>, d: seq<Inst>, labels: nat, lists: Lists)
    requires CodeOk(c, labels, lists) && CodeOk(d, labels, lists)
    ensures CodeOk(c + d, labels, lists)
  {
  }

  lemma {:induction false} GenClosureGood(labels: seq<string>, narg: int, body: seq<Sexp>, base: nat, lists: Lists,
                                          scopes: seq<Scope>)
    requires scopes != [] && UpsOk(lists.ups, scopes) && body != [] && CleanEach(body, false)
    requires |labels| == Slots(narg)
    requires GenClosure(labels, narg, body, lists, scopes).Some?
    ensures Good(GenClosure(labels, narg, body, lists, scopes).value, base, 1, scopes, lists)
    decreases body, 1
  {
    var inner := [Scope(labels, false)] + scopes;
    GenBodyGood(body, 0, NOTHING, inner);
    var b := GenBody(body, 0, NOTHING, inner).value;
    var proto := Proto(b.code + One(Return, 0), b.lists.consts, b.lists.ups, b.lists.prots);
    assert proto.insts[..|proto.insts| - 1] == b.code;
    assert ProtoOk(proto, Slots(narg));
    LeavesOne(Inst(Lambda, |lists.prots|, narg), base);
  }

  lemma {:induction false} NamesCount(items: seq<Sexp>)
    ensures Names(items).Some? ==> |Names(items).value| == |items|
  {
    if items != [] && items[0].Symbol? { NamesCount(items[1..]); }
  }

  lemma {:induction false} GenLambdaGood(items: seq<Sexp>, base: nat, lists: Lists, scopes: seq<Scope>)
    requires scopes != [] && UpsOk(lists.ups, scopes) && (|items| < 3 || CleanEach(items[2..], false))
    requires GenLambda(items, base, lists, scopes).Some?
    ensures Good(GenLambda(items, base, lists, scopes).value, base, 1, scopes, lists)
    decreases items, 1
  {
    match items[1]
    case List(args) =>
      NamesCount(args);
      GenClosureGood(Names(args).value, |args|, items[2..], base, lists, scopes);
    case Symbol(name) => GenClosureGood([name], -1, items[2..], base, lists, scopes);
  }

  lemma {:induction false} KeysCount(args: seq<Sexp>)
    requires |args| % 2 == 0
    ensures Keys(args).Some? ==> |Keys(args).value| == |args| / 2
  {
    if args != [] && args[0].Symbol? { KeysCount(args[2..]); }
  }

  lemma {:induction false} GenValuesGood(args: seq<Sexp>, base: nat, lists: Lists, scopes: seq<Scope>)
    requires scopes != [] && UpsOk(lists.ups, scopes) && |args| % 2 == 0 && CleanEach(args, false)
    requires GenValues(args, base, lists, scopes).Some?
    ensures Good(GenValues(args, base, lists, scopes).value, base, |args| / 2, scopes, lists)
    decreases args, 0
  {
    if args == [] {
      NothingGood(base, lists, scopes);
    } else {
      CleanAt(args, false, 1);
      assert args[1..][1..] == args[2..];
      GenGood(args[1], false, false, base, lists, scopes);
      var x := Gen(args[1], false, false, base, lists, scopes).value;
      GenValuesGood(args[2..], base + |x.code|, x.lists, scopes);
      GoodSequence(x, GenValues(args[2..], base + |x.code|, x.lists, scopes).value, base, 1, |args| / 2 - 1, scopes,
          lists);
    }
  }

  lemma {:induction false} GenLetGood(items: seq<Sexp>, tail: bool, base: nat, lists: Lists, scopes: seq<Scope>)
    requires scopes != [] && UpsOk(lists.ups, scopes) && items != [] && CleanForm("let", items)
    requires GenLet(items, tail, base, lists, scopes).Some?
    ensures Good(GenLet(items, tail, base, lists, scopes).value, base, 1, scopes, lists)
    decreases items, 1
  {
    var args := items[1].items;
    var labels := Keys(args).value;
    KeysCount(args);
    GenClosureGood(labels, |labels|, items[2..], base, lists, scopes);
    var f := GenClosure(labels, |labels|, items[2..], lists, scopes).value;
    GenValuesGood(args, base + |f.code|, f.lists, scopes);
    var values := GenValues(args, base + |f.code|, f.lists, scopes).value;
    GoodCall(f, values, |labels|, tail, base, scopes, lists);
  }

  lemma {:induction false} GenDefineGood(items: seq<Sexp>, base: nat, lists: Lists, scopes: seq<Scope>)
    requires scopes != [] && UpsOk(lists.ups, scopes) && items != [] && CleanForm("define", items)
    requires GenDefine(items, base, lists, scopes).Some?
    ensures Good(GenDefine(items, base, lists, scopes).value, base, 1, scopes, lists)
    decreases items, 1
  {
    GenGood(items[2], false, false, base, lists, scopes);
    var x := Gen(items[2], false, false, base, lists, scopes).value;
    var c := StrConst(items[1].name);
    ConstAdded(x.lists.consts, c);
    var more := x.lists.(consts := AddConst(x.lists.consts, c));
    CodeKept(x.code, |scopes[0].labels|, x.lists, more);
    GoodThen(Out(x.code, more), SetGlobal, ConstIndex(x.lists.consts, c), base, 1, scopes, lists);
  }

  /** Whatever a source expression is, outside two-operand `not`, the prototype made of it, and every
      prototype inside that, leaves exactly one value on every control path, never reaches below its
      entry height, jumps strictly forward inside itself, and names only what it has. */
  lemma CompiledIsOk(e: Sexp)
    requires Clean(e, false) && GenTop(e).Some?
    ensures ProtoOk(GenTop(e).value, Slots(-1)) && CapturesOk(GenTop(e).value.ups, 0)
  {
    var scopes := [Scope([], true)];
    GenGood(e, false, false, 0, NOTHING, scopes);
    TopOk(Gen(e, false, false, 0, NOTHING, scopes).value, scopes);
  }

  lemma TopOk(x: Out, scopes: seq<Scope>)
    requires |scopes| == 1 && scopes[0].labels == [] && Good(x, 0, 1, scopes, NOTHING)
    ensures ProtoOk(TopProto(x), 1) && CapturesOk(TopProto(x).ups, 0)
  {
    var p := TopProto(x);
    LeavesThen(x.code, Inst(Load, 0, 0), 0, 1);
    LeavesThen(x.code + One(Load, 0), Inst(Call, 1, 0), 0, 2);
    assert p.insts[..|p.insts| - 1] == x.code + One(Load, 0) + One(Call, 1);
    MoreLabels(x.code, 0, 1, x.lists);
  }

  lemma MoreLabels(code: seq<Inst>, m: nat, n: nat, lists: Lists)
    requires CodeOk(code, m, lists) && m <= n
    ensures CodeOk(code, n, lists)
  {
    forall k | 0 <= k < |code| ensures OperandOk(code[k], n, lists.consts, |lists.ups|, lists.prots) {
      assert OperandOk(code[k], m, lists.consts, |lists.ups|, lists.prots);
    }
  }
}
