/** The code generator of the Saurus compiler (src/compiler/gen.lua), as a function from
    s-expressions to code in which every jump target is already known. */
module SaurusGen {
  import opened Options

  datatype Sexp = Number(n: real) | Symbol(name: string) | List(items: seq<Sexp>)

  datatype Const = NumConst(n: real) | StrConst(s: string)

  datatype Op =
    | Push | Pop | Copy
    | Add | Sub | Mul | Div | Mod | Pow | Unm
    | Eq | Less | LessEqual
    | Not | And | Or
    | Test | Jmp
    | Return | Call | TailCall | Lambda
    | GetGlobal | SetGlobal | Load

  /** An instruction and its operands; a missing operand is written as 0. */
  datatype Inst = Inst(op: Op, a: nat, b: int)

  datatype Upvalue = Upvalue(lv: nat, idx: nat)

  datatype Proto = Proto(insts: seq<Inst>, consts: seq<Const>, ups: seq<Upvalue>, prots: seq<Proto>)

  /** What the generator of one function accumulates beside its instructions. */
  datatype Lists = Lists(consts: seq<Const>, ups: seq<Upvalue>, prots: seq<Proto>)

  /** A function under generation as seen from inside: its labels, and whether it is the top one. */
  datatype Scope = Scope(labels: seq<string>, top: bool)

  datatype Out = Out(code: seq<Inst>, lists: Lists)

  const NOTHING := Lists([], [], [])

  function One(op: Op, a: nat): seq<Inst> {
    [Inst(op, a, 0)]
  }

  /** push_const: the index of the first equal constant, which is added if there is none. */
  function ConstIndex(consts: seq<Const>, c: Const): (i: nat)
    ensures i <= |consts| && (i < |consts| ==> consts[i] == c)
  {
    if consts == [] || consts[0] == c then 0 else 1 + ConstIndex(consts[1..], c)
  }

  function AddConst(consts: seq<Const>, c: Const): seq<Const> {
    if ConstIndex(consts, c) < |consts| then consts else consts + [c]
  }

  /** find_lable: the last label of that name. */
  function FindLabel(labels: seq<string>, name: string): (r: Option<nat>)
    ensures r.Some? ==> r.value < |labels| && labels[r.value] == name
  {
    if labels == [] then None
    else if labels[|labels| - 1] == name then Some(|labels| - 1)
    else FindLabel(labels[..|labels| - 1], name)
  }

  /** find_up, over the scopes from this function outwards */
  function FindUp(scopes: seq<Scope>, name: string, lv: nat): Option<Upvalue> {
    if scopes == [] then None
    else
      var id := FindLabel(scopes[0].labels, name);
      if id.Some? then Some(Upvalue(lv, id.value)) else FindUp(scopes[1..], name, lv + 1)
  }

  function GenConst(c: Const, lists: Lists): Out {
    Out(One(Push, ConstIndex(lists.consts, c)), lists.(consts := AddConst(lists.consts, c)))
  }

  function GenFetch(name: string, lists: Lists, scopes: seq<Scope>): Out
    requires scopes != []
  {
    var id := FindLabel(scopes[0].labels, name);
    if id.Some? then Out(One(Load, id.value), lists)
    else
      var up := FindUp(scopes, name, 0);
      if up.Some? then
        Out(One(Load, |scopes[0].labels| + |lists.ups|), lists.(ups := lists.ups + [up.value]))
      else
        var c := StrConst(name);
        Out(One(GetGlobal, ConstIndex(lists.consts, c)), lists.(consts := AddConst(lists.consts, c)))
  }

  /** call_or_tail */
  function CallOrTail(tail: bool, scopes: seq<Scope>, narg: nat): seq<Inst> {
    One(if tail && (|scopes| < 2 || !scopes[1].top) then TailCall else Call, narg)
  }

  predicate IsName(e: Sexp, name: string) {
    e == Symbol(name)
  }

  predicate IsLiteral(name: string) {
    name == "nil" || name == "true" || name == "false"
  }

  /** The forms that take two operands and one instruction. */
  function BinaryOp(name: string): Option<Op> {
    if name == "+" then Some(Add)
    else if name == "-" then Some(Sub)
    else if name == "*" then Some(Mul)
    else if name == "/" then Some(Div)
    else if name == "%" then Some(Mod)
    else if name == "^" then Some(Pow)
    else if name == "req" then Some(Eq)
    else if name == "<" || name == ">" then Some(Less)
    else if name == "<=" || name == ">=" then Some(LessEqual)
    else if name == "not" then Some(Not)
    else if name == "and" then Some(And)
    else if name == "or" then Some(Or)
    else None
  }

  predicate IsReversed(name: string) {
    name == ">" || name == ">="
  }

  /** gen; None stands for a raised error. Macros are not part of this model. */
  function Gen(e: Sexp, tail: bool, quoted: bool, base: nat, lists: Lists, scopes: seq<Scope>): Option<Out>
    requires scopes != []
    decreases e, 1
  {
    match e
    case Number(n) => Some(GenConst(NumConst(n), lists))
    case Symbol(name) =>
      if quoted || IsLiteral(name) then Some(GenConst(StrConst(name), lists))
      else Some(GenFetch(name, lists, scopes))
    case List(items) =>
      if items == [] then None
      else if quoted then GenList(items, tail, base, lists, scopes)
      else if items[0].Symbol? then GenForm(items[0].name, items, tail, base, lists, scopes)
      else GenCall(items, tail, base, lists, scopes)
  }

  /** The special form of that name, or a call. */
  function GenForm(name: string, items: seq<Sexp>, tail: bool, base: nat, lists: Lists, scopes: seq<Scope>): Option<Out>
    requires scopes != [] && items != []
    decreases items, 2
  {
    if name == "if" then GenIf(items, tail, base, lists, scopes)
    else if name == "do" then GenDo(items, base, lists, scopes)
    else if name == "quote" then
      if |items| < 2 then None else Gen(items[1], tail, true, base, lists, scopes)
    else if name == "lambda" then GenLambda(items, base, lists, scopes)
    else if name == "let" then GenLet(items, tail, base, lists, scopes)
    else if name == "rec" then GenRec(items, tail, base, lists, scopes)
    else if name == "define" then GenDefine(items, base, lists, scopes)
    else if name == "macro" || name == "undef" then None
    else if name == "-" && |items| == 2 then
      var x :- Gen(items[1], false, false, base, lists, scopes);
      Some(Out(x.code + One(Unm, 0), x.lists))
    else if BinaryOp(name).Some? then
      if |items| < 3 then None
      else if |items| > 3 then GenCall(items, tail && !IsReversed(name), base, lists, scopes)
      else if IsReversed(name) then GenBinary(BinaryOp(name).value, items, 2, 1, base, lists, scopes)
      else GenBinary(BinaryOp(name).value, items, 1, 2, base, lists, scopes)
    else GenCall(items, tail, base, lists, scopes)
  }

  /** Operands `i` and `j` in that order, then the instruction. */
  function GenBinary(op: Op, items: seq<Sexp>, i: nat, j: nat, base: nat, lists: Lists, scopes: seq<Scope>): Option<Out>
    requires scopes != [] && i < |items| && j < |items|
    decreases items, 1
  {
    var x :- Gen(items[i], false, false, base, lists, scopes);
    var y :- Gen(items[j], false, false, base + |x.code|, x.lists, scopes);
    Some(Out(x.code + y.code + One(op, 0), y.lists))
  }

  /** The values of some expressions, one after the other. */
  function GenEach(items: seq<Sexp>, quoted: bool, base: nat, lists: Lists, scopes: seq<Scope>): Option<Out>
    requires scopes != []
    decreases items, 0
  {
    if items == [] then Some(Out([], lists))
    else
      var x :- Gen(items[0], false, quoted, base, lists, scopes);
      var rest :- GenEach(items[1..], quoted, base + |x.code|, x.lists, scopes);
      Some(Out(x.code + rest.code, rest.lists))
  }

  /** gen_funccall */
  function GenCall(items: seq<Sexp>, tail: bool, base: nat, lists: Lists, scopes: seq<Scope>): Option<Out>
    requires scopes != [] && items != []
    decreases items, 1
  {
    var all :- GenEach(items, false, base, lists, scopes);
    Some(Out(all.code + CallOrTail(tail, scopes, |items| - 1), all.lists))
  }

  /** gen_rec: the function itself is at the bottom of its frame. */
  function GenRec(items: seq<Sexp>, tail: bool, base: nat, lists: Lists, scopes: seq<Scope>): Option<Out>
    requires scopes != [] && items != []
    decreases items, 1
  {
    var args :- GenEach(items[1..], false, base + 1, lists, scopes);
    Some(Out(One(Copy, 0) + args.code + CallOrTail(tail, scopes, |items| - 1), args.lists))
  }

  /** Expressions of which only the last one, in tail position, keeps its value. */
  function GenBody(items: seq<Sexp>, base: nat, lists: Lists, scopes: seq<Scope>): Option<Out>
    requires scopes != [] && items != []
    decreases items, 0
  {
    if |items| == 1 then Gen(items[0], true, false, base, lists, scopes)
    else
      var x :- Gen(items[0], false, false, base, lists, scopes);
      var rest :- GenBody(items[1..], base + |x.code| + 1, x.lists, scopes);
      Some(Out(x.code + One(Pop, 1) + rest.code, rest.lists))
  }

  /** gen_do; an empty `do` generates its own name. */
  function GenDo(items: seq<Sexp>, base: nat, lists: Lists, scopes: seq<Scope>): Option<Out>
    requires scopes != [] && items != []
    decreases items, 1
  {
    GenBody(if |items| == 1 then items else items[1..], base, lists, scopes)
  }

  /** gen_list, for quoted lists */
  function GenList(items: seq<Sexp>, tail: bool, base: nat, lists: Lists, scopes: seq<Scope>): Option<Out>
    requires scopes != [] && items != []
    decreases items, 1
  {
    if IsName(items[0], "unquote") then
      if |items| < 2 then None else Gen(items[1], tail, false, base, lists, scopes)
    else
      var f := GenFetch("list", lists, scopes);
      var all :- GenEach(items, true, base + |f.code|, f.lists, scopes);
      Some(Out(f.code + all.code + CallOrTail(tail, scopes, |items|), all.lists))
  }

  /** The `else` branch comes first; TEST jumps over it and JMP over the `then` branch. */
  function GenIf(items: seq<Sexp>, tail: bool, base: nat, lists: Lists, scopes: seq<Scope>): Option<Out>
    requires scopes != []
    decreases items, 1
  {
    if |items| < 3 then None
    else
      var c :- Gen(items[1], false, false, base, lists, scopes);
      var at := base + |c.code| + 1;
      var f :- GenElse(items, tail, at, c.lists, scopes);
      var toThen := at + |f.code| + 1;
      var t :- Gen(items[2], tail, false, toThen, f.lists, scopes);
      Some(Branches(c, f, t, toThen))
  }

  function Branches(c: Out, f: Out, t: Out, toThen: nat): Out {
    Out(c.code + One(Test, toThen) + f.code + One(Jmp, toThen + |t.code|) + t.code, t.lists)
  }

  /** The `else` branch, nil if there is none. */
  function GenElse(items: seq<Sexp>, tail: bool, base: nat, lists: Lists, scopes: seq<Scope>): Option<Out>
    requires scopes != []
    decreases items, 0
  {
    if |items| > 3 then Gen(items[3], tail, false, base, lists, scopes)
    else Some(GenConst(StrConst("nil"), lists))
  }

  function Names(items: seq<Sexp>): Option<seq<string>> {
    if items == [] then Some([])
    else if !items[0].Symbol? then None
    else
      var rest :- Names(items[1..]);
      Some([items[0].name] + rest)
  }

  /** The code of a closure over a prototype generated from this body, in a scope of its own. */
  function GenClosure(labels: seq<string>, narg: int, body: seq<Sexp>, lists: Lists, scopes: seq<Scope>): Option<Out>
    requires body != []
    decreases body, 1
  {
    var b :- GenBody(body, 0, NOTHING, [Scope(labels, false)] + scopes);
    var proto := Proto(b.code + One(Return, 0), b.lists.consts, b.lists.ups, b.lists.prots);
    Some(Out([Inst(Lambda, |lists.prots|, narg)], lists.(prots := lists.prots + [proto])))
  }

  function GenLambda(items: seq<Sexp>, base: nat, lists: Lists, scopes: seq<Scope>): Option<Out>
    requires scopes != []
    decreases items, 1
  {
    if |items| < 3 then None
    else
      match items[1]
      case List(args) =>
        var labels :- Names(args);
        GenClosure(labels, |args|, items[2..], lists, scopes)
      case Symbol(name) => GenClosure([name], -1, items[2..], lists, scopes)
      case Number(_) => None
  }

  /** The names and the values of the bindings of a let. */
  function Keys(args: seq<Sexp>): Option<seq<string>>
    requires |args| % 2 == 0
  {
    if args == [] then Some([])
    else if !args[0].Symbol? then None
    else
      var rest :- Keys(args[2..]);
      Some([args[0].name] + rest)
  }

  function GenValues(args: seq<Sexp>, base: nat, lists: Lists, scopes: seq<Scope>): Option<Out>
    requires scopes != [] && |args| % 2 == 0
    decreases args, 0
  {
    if args == [] then Some(Out([], lists))
    else
      var x :- Gen(args[1], false, false, base, lists, scopes);
      var rest :- GenValues(args[2..], base + |x.code|, x.lists, scopes);
      Some(Out(x.code + rest.code, rest.lists))
  }

  /** gen_let: a lambda over the keys, called with the values. */
  function GenLet(items: seq<Sexp>, tail: bool, base: nat, lists: Lists, scopes: seq<Scope>): Option<Out>
    requires scopes != []
    decreases items, 1
  {
    if |items| < 3 || !items[1].List? || |items[1].items| % 2 != 0 then None
    else
      var args := items[1].items;
      var labels :- Keys(args);
      var f :- GenClosure(labels, |labels|, items[2..], lists, scopes);
      var values :- GenValues(args, base + |f.code|, f.lists, scopes);
      Some(Out(f.code + values.code + CallOrTail(tail, scopes, |labels|), values.lists))
  }

  function GenDefine(items: seq<Sexp>, base: nat, lists: Lists, scopes: seq<Scope>): Option<Out>
    requires scopes != []
    decreases items, 1
  {
    if |items| != 3 || !items[1].Symbol? then None
    else
      var x :- Gen(items[2], false, false, base, lists, scopes);
      var c := StrConst(items[1].name);
      Some(Out(x.code + One(SetGlobal, ConstIndex(x.lists.consts, c)),
               x.lists.(consts := AddConst(x.lists.consts, c))))
  }

  /** gen_sexp: the prototype of a whole source expression. */
  function GenTop(e: Sexp): Option<Proto> {
    var scopes := [Scope([], true)];
    var x :- Gen(e, false, false, 0, NOTHING, scopes);
    Some(TopProto(x))
  }

  function TopProto(x: Out): Proto {
    Proto(x.code + One(Load, 0) + One(Call, 1) + One(Return, 0), x.lists.consts, x.lists.ups, x.lists.prots)
  }
}
