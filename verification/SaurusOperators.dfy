/** What the operators, globals, quoted lists and native calls do, told by what is written and what is on the stack
    (src/compiler/gen.lua, src/vm/core.c). */
module SaurusOperators {
  import opened Options
  import opened SaurusGen
  import opened SaurusVm

  // ---------------------------------------------------------------- operators as they are compiled

  /** The two-operand operators and their instructions. */
  const OPERATORS: map<string, Op> := map[
    "+" := Add, "-" := Sub, "*" := Mul, "/" := Div, "%" := Mod, "^" := Pow,
    "req" := Eq, "<" := Less, ">" := Less, "<=" := LessEqual, ">=" := LessEqual,
    "not" := Not, "and" := And, "or" := Or]

  /** The operands are computed in the order written, for > and >= the other way round, and then the operator. */
  lemma OperatorText(name: string, e: seq<Sexp>, tail: bool, base: nat, lists: Lists, scopes: seq<Scope>, x: Out,
                     y: Out)
    requires name in OPERATORS && |e| == 2 && scopes != []
    requires var i := if name == ">" || name == ">=" then 1 else 0;
      && Gen(e[i], false, false, base, lists, scopes) == Some(x)
      && Gen(e[1 - i], false, false, base + |x.code|, x.lists, scopes) == Some(y)
    ensures Gen(List([Symbol(name)] + e), tail, false, base, lists, scopes)
         == Some(Out(x.code + y.code + [Inst(OPERATORS[name], 0, 0)], y.lists))
  {
    var items := [Symbol(name)] + e;
    var i := if name == ">" || name == ">=" then 2 else 1;
    assert items[1] == e[0] && items[2] == e[1];
    OperatorIs(name);
    assert GenForm(name, items, tail, base, lists, scopes)
        == GenBinary(OPERATORS[name], items, i, 3 - i, base, lists, scopes);
  }

  lemma OperatorIs(name: string)
    requires name in OPERATORS
    ensures BinaryOp(name) == Some(OPERATORS[name]) && (IsReversed(name) <==> name == ">" || name == ">=")
  {
  }

  // ---------------------------------------------------------------- what the instructions compute

  predicate IsTrue(v: Value) {
    !v.Nil? && v != Bool(false)
  }

  /** The result on two numbers, told by the name. */
  function OnNumbers(host: Host, name: string, x: real, y: real): Value {
    if name == "+" then Num(x + y)
    else if name == "-" then Num(x - y)
    else if name == "*" then Num(x * y)
    else if name == "/" then Num(host.arith(Div, x, y))
    else if name == "%" then Num(host.arith(Mod, x, y))
    else if name == "^" then Num(host.arith(Pow, x, y))
    else if name == "req" then Bool(x == y)
    else if name == "<" then Bool(x < y)
    else if name == "<=" then Bool(x <= y)
    else if name == ">" then Bool(x > y)
    else if name == ">=" then Bool(x >= y)
    else Bool(true)
  }

  /** The instructions on two numbers. */
  function ByInstruction(host: Host, op: Op, x: real, y: real): Value {
    if op == Add then Num(x + y)
    else if op == Sub then Num(x - y)
    else if op == Mul then Num(x * y)
    else if op == Div || op == Mod || op == Pow then Num(host.arith(op, x, y))
    else if op == Eq then Bool(x == y)
    else if op == Less then Bool(x < y)
    else if op == LessEqual then Bool(x <= y)
    else Bool(true)
  }

  lemma InstructionValue(host: Host, op: Op, x: real, y: real, s: State, below: seq<Value>)
    requires op in {Add, Sub, Mul, Div, Mod, Pow, Eq, Less, LessEqual, And, Or} && s.pc < |s.func.proto.insts|
    requires s.func.proto.insts[s.pc].op == op && s.stack == below + [Num(x), Num(y)]
    ensures Step(host, s) == Running(s.(pc := s.pc + 1, stack := below + [ByInstruction(host, op, x, y)]))
  {
    assert s.stack[..|s.stack| - 2] == below && Top(s, 1) == Num(x) && Top(s, 0) == Num(y);
    var v := ByInstruction(host, op, x, y);
    if IsArith(op) || IsCompare(op) {
      assert Step(host, s) == Deliver(s, 2, Binary(host, op, Num(x), Num(y)));
      assert Binary(host, op, Num(x), Num(y)) == Ok(v);
    }
    assert Step(host, s) == Next(s, 2, [v]);
  }

  lemma NamedValue(host: Host, name: string, x: real, y: real)
    requires name in OPERATORS && name != "not"
    ensures OPERATORS[name] in {Add, Sub, Mul, Div, Mod, Pow, Eq, Less, LessEqual, And, Or}
    ensures OnNumbers(host, name, x, y)
         == if name == ">" || name == ">=" then ByInstruction(host, OPERATORS[name], y, x)
            else ByInstruction(host, OPERATORS[name], x, y)
  {
    OperatorIs(name);
  }

  /** (name x y) for any operator but `not` and any two numbers. */
  lemma OperatorValue(host: Host, name: string, x: real, y: real, s: State, below: seq<Value>)
    requires name in OPERATORS && name != "not" && s.pc < |s.func.proto.insts|
    requires s.func.proto.insts[s.pc] == Inst(OPERATORS[name], 0, 0)
    requires s.stack == below + if name == ">" || name == ">=" then [Num(y), Num(x)] else [Num(x), Num(y)]
    ensures Step(host, s) == Running(s.(pc := s.pc + 1, stack := below + [OnNumbers(host, name, x, y)]))
  {
    NamedValue(host, name, x, y);
    if name == ">" || name == ">=" {
      InstructionValue(host, OPERATORS[name], y, x, s, below);
    } else {
      InstructionValue(host, OPERATORS[name], x, y, s, below);
    }
  }

  /** An operand that is no number is an error of its type, the one that was computed first before the other. */
  lemma OperandError(host: Host, op: Op, x: Value, y: Value, s: State, below: seq<Value>)
    requires op in {Add, Sub, Mul, Div, Mod, Pow, Less, LessEqual} && s.pc < |s.func.proto.insts|
    requires s.func.proto.insts[s.pc] == Inst(op, 0, 0) && s.stack == below + [x, y]
    ensures !x.Num? ==> Step(host, s) == Raised(BadArgument(NameOf(x)))
    ensures x.Num? && !y.Num? ==> Step(host, s) == Raised(BadArgument(NameOf(y)))
  {
    assert Top(s, 1) == x && Top(s, 0) == y;
  }

  /** The name of a value's type in an error. */
  function NameOf(v: Value): Type {
    if v == Nil then TNil
    else if v.Bool? then TBool
    else if v.Num? then TNum
    else if v.Str? then TStr
    else if v.Fun? then TFun
    else if v.Native? then TNative
    else TVec
  }

  /** `and` is the conjunction of any two values; `or` is true of any two, so that it is their disjunction if and only
      if one of them is true. */
  lemma LogicIs(host: Host, x: Value, y: Value, s: State, below: seq<Value>)
    requires s.pc < |s.func.proto.insts| && s.stack == below + [x, y]
    ensures s.func.proto.insts[s.pc].op == And ==>
      Step(host, s) == Running(s.(pc := s.pc + 1, stack := below + [Bool(IsTrue(x) && IsTrue(y))]))
    ensures s.func.proto.insts[s.pc].op == Or ==>
      && Step(host, s) == Running(s.(pc := s.pc + 1, stack := below + [Bool(true)]))
      && (Step(host, s) == Running(s.(pc := s.pc + 1, stack := below + [Bool(IsTrue(x) || IsTrue(y))])) <==>
          IsTrue(x) || IsTrue(y))
  {
    assert s.stack[..|s.stack| - 2] == below && Top(s, 1) == x && Top(s, 0) == y;
    assert |below + [Bool(true)]| == |below| + 1 && (below + [Bool(true)])[|below|] == Bool(true);
    assert (below + [Bool(false)])[|below|] == Bool(false);
  }

  /** `not` gives the opposite of a boolean; of anything else it gives the truth itself. */
  lemma NotIs(host: Host, x: Value, s: State, below: seq<Value>)
    requires s.pc < |s.func.proto.insts| && s.func.proto.insts[s.pc].op == Not && s.stack == below + [x]
    ensures exists b :: Step(host, s) == Running(s.(pc := s.pc + 1, stack := below + [Bool(b)]))
                        && (b == !IsTrue(x) <==> x.Bool?)
  {
    assert s.stack[..|s.stack| - 1] == below && Top(s, 0) == x;
    var b := if x.Bool? then !x.b else x != Nil;
    assert Step(host, s) == Running(s.(pc := s.pc + 1, stack := below + [Bool(b)]));
  }

  /** `req` tells values of different types apart, compares numbers by value and all else as the host does. */
  lemma EqualIs(host: Host, x: Value, y: Value, s: State, below: seq<Value>)
    requires s.pc < |s.func.proto.insts| && s.func.proto.insts[s.pc].op == Eq && s.stack == below + [x, y]
    ensures Step(host, s) == Running(s.(pc := s.pc + 1, stack := below + [Bool(
      if NameOf(x) != NameOf(y) then false else if x.Num? && y.Num? then x.n == y.n else host.same(x, y))]))
  {
    assert s.stack[..|s.stack| - 2] == below && Top(s, 1) == x && Top(s, 0) == y;
  }

  /** A branch is taken for every value but nil and false. */
  lemma BranchIs(host: Host, x: Value, s: State, below: seq<Value>)
    requires s.pc < |s.func.proto.insts| && s.func.proto.insts[s.pc].op == Test && s.stack == below + [x]
    ensures Step(host, s)
         == Running(s.(pc := if IsTrue(x) then s.func.proto.insts[s.pc].a else s.pc + 1, stack := below))
  {
    assert s.stack[..|s.stack| - 1] == below && Top(s, 0) == x;
  }

  // ---------------------------------------------------------------- globals

  /** A constant of that value is in the list afterwards where the instruction looks for it; those that were there
      stay in their places, and none is added that is there already. */
  lemma {:induction false} ConstKept(consts: seq<Const>, c: Const)
    ensures var now, i := AddConst(consts, c), ConstIndex(consts, c);
      && consts <= now && i < |now| && now[i] == c && (now == consts <==> c in consts)
      && |now| <= |consts| + 1 && (forall k | 0 <= k < i :: consts[k] != c)
  {
    if consts != [] && consts[0] != c {
      ConstKept(consts[1..], c);
      assert consts == [consts[0]] + consts[1..];
      var i := ConstIndex(consts[1..], c);
      forall k | 0 <= k < i + 1 ensures consts[k] != c {
        if k > 0 { assert consts[k] == consts[1..][k - 1]; }
      }
    }
  }

  /** A name that is no parameter of any function around it is a global. */
  lemma GlobalText(name: string, tail: bool, base: nat, lists: Lists, scopes: seq<Scope>)
    requires scopes != [] && name !in {"nil", "true", "false"}
    requires forall k | 0 <= k < |scopes| :: name !in scopes[k].labels
    ensures var x := Gen(Symbol(name), tail, false, base, lists, scopes);
      && x.Some? && |x.value.code| == 1 && x.value.code[0].op == GetGlobal
      && lists.consts <= x.value.lists.consts && x.value.code[0].a < |x.value.lists.consts|
      && x.value.lists.consts[x.value.code[0].a] == StrConst(name)
  {
    NotAround(scopes, name, 0);
    ConstKept(lists.consts, StrConst(name));
  }

  lemma {:induction false} NotAround(scopes: seq<Scope>, name: string, lv: nat)
    requires forall k | 0 <= k < |scopes| :: name !in scopes[k].labels
    ensures FindUp(scopes, name, lv).None? && (scopes != [] ==> FindLabel(scopes[0].labels, name).None?)
    decreases scopes
  {
    if scopes != [] { NotAround(scopes[1..], name, lv + 1); }
  }

  /** nil, true and false are constants of their names; the machine reads that of nil as nil. */
  lemma LiteralText(name: string, tail: bool, quoted: bool, base: nat, lists: Lists, scopes: seq<Scope>)
    requires scopes != [] && name in {"nil", "true", "false"}
    ensures var x := Gen(Symbol(name), tail, quoted, base, lists, scopes);
      && x.Some? && |x.value.code| == 1 && x.value.code[0].op == Push
      && x.value.code[0].a < |x.value.lists.consts| && x.value.lists.consts[x.value.code[0].a] == StrConst(name)
    ensures CreateValue(StrConst(name)) == if name == "nil" then Nil else Str(name)
  {
    ConstKept(lists.consts, StrConst(name));
  }

  /** (define name e) computes e and gives its value the name. */
  lemma DefineText(name: string, e: Sexp, tail: bool, base: nat, lists: Lists, scopes: seq<Scope>, x: Out)
    requires scopes != [] && Gen(e, false, false, base, lists, scopes) == Some(x)
    ensures var d := Gen(List([Symbol("define"), Symbol(name), e]), tail, false, base, lists, scopes);
      && d.Some? && |d.value.code| == |x.code| + 1 && d.value.code[..|x.code|] == x.code
      && d.value.code[|x.code|].op == SetGlobal && x.lists.consts <= d.value.lists.consts
      && d.value.code[|x.code|].a < |d.value.lists.consts|
      && d.value.lists.consts[d.value.code[|x.code|].a] == StrConst(name)
  {
    var items := [Symbol("define"), Symbol(name), e];
    ConstKept(x.lists.consts, StrConst(name));
    assert GenForm("define", items, tail, base, lists, scopes) == GenDefine(items, base, lists, scopes);
  }

  /** The instruction at hand names this global. */
  ghost predicate NamesGlobal(s: State, op: Op, name: string) {
    && s.pc < |s.func.proto.insts| && s.func.proto.insts[s.pc].op == op
    && s.func.proto.insts[s.pc].a < |s.func.proto.consts| && name != "nil"
    && s.func.proto.consts[s.func.proto.insts[s.pc].a] == StrConst(name)
  }

  /** A global is defined once: afterwards its name stands for that value and all others for what they stood for, and
      defining it again is an error. */
  lemma DefineIs(host: Host, s: State, name: string, below: seq<Value>, v: Value)
    requires NamesGlobal(s, SetGlobal, name) && s.stack == below + [v]
    ensures name in s.globals ==> Step(host, s) == Raised(Redefinition(name))
    ensures name !in s.globals ==>
      && Step(host, s).Running?
      && var t := Step(host, s).s;
         && t == s.(pc := s.pc + 1, globals := t.globals) && name in t.globals && t.globals[name] == v
         && (forall other | other != name :: other in t.globals <==> other in s.globals)
         && (forall other | other in s.globals :: t.globals[other] == s.globals[other])
  {
    assert Top(s, 0) == v;
  }

  lemma GlobalIs(host: Host, s: State, name: string)
    requires NamesGlobal(s, GetGlobal, name)
    ensures Step(host, s) ==
      if name in s.globals then Running(s.(pc := s.pc + 1, stack := s.stack + [s.globals[name]]))
      else Raised(NoGlobal(name))
  {
  }

  // ---------------------------------------------------------------- native functions

  /** A native function gets its arguments in order; its result, or nil, takes the place of the call. */
  lemma NativeCalled(host: Host, s: State, below: seq<Value>, id: nat, args: seq<Value>, ret: nat)
    requires s.stack == below + [Native(id)] + args
    ensures DoCall(host, s, |args|, ret) == Running(s.(pc := ret, stack := below +
      [if host.native(id, args).Some? then host.native(id, args).value else Nil]))
  {
    assert s.stack[|below|] == Native(id) && s.stack[|below| + 1..] == args && s.stack[..|below|] == below;
  }

  // ---------------------------------------------------------------- quoted lists

  ghost predicate Atoms(items: seq<Sexp>) {
    forall k | 0 <= k < |items| :: items[k].Number? || items[k].Symbol?
  }

  /** A quoted number is a number, a quoted symbol its name. */
  function AtomConst(e: Sexp): Const
    requires !e.List?
  {
    if e.Number? then NumConst(e.n) else StrConst(e.name)
  }

  /** The code pushes these atoms in order. */
  ghost predicate Pushes(code: seq<Inst>, consts: seq<Const>, items: seq<Sexp>) {
    && |code| == |items| && Atoms(items)
    && forall k | 0 <= k < |items| ::
         code[k].op == Push && code[k].a < |consts| && consts[code[k].a] == AtomConst(items[k])
  }

  lemma PushedFirst(i: Inst, rest: seq<Inst>, consts: seq<Const>, items: seq<Sexp>)
    requires items != [] && Atoms(items) && Pushes(rest, consts, items[1..])
    requires i.op == Push && i.a < |consts| && consts[i.a] == AtomConst(items[0])
    ensures Pushes([i] + rest, consts, items)
  {
    var code := [i] + rest;
    forall k | 0 <= k < |items|
      ensures code[k].op == Push && code[k].a < |consts| && consts[code[k].a] == AtomConst(items[k])
    {
      if k > 0 { assert code[k] == rest[k - 1] && items[k] == items[1..][k - 1]; }
    }
  }

  lemma {:induction false} EachPushed(items: seq<Sexp>, base: nat, lists: Lists, scopes: seq<Scope>)
    requires scopes != [] && Atoms(items)
    ensures var x := GenEach(items, true, base, lists, scopes);
      && x.Some? && lists.consts <= x.value.lists.consts && Pushes(x.value.code, x.value.lists.consts, items)
    decreases items
  {
    if items != [] {
      var c := AtomConst(items[0]);
      ConstKept(lists.consts, c);
      var first := GenConst(c, lists);
      assert Gen(items[0], false, true, base, lists, scopes) == Some(first);
      EachPushed(items[1..], base + 1, first.lists, scopes);
      var rest := GenEach(items[1..], true, base + 1, first.lists, scopes).value;
      PushedFirst(first.code[0], rest.code, rest.lists.consts, items);
    }
  }

  /** (quote (a b c)) calls the function called list with the atoms, in order. */
  lemma QuotedText(items: seq<Sexp>, tail: bool, base: nat, lists: Lists, scopes: seq<Scope>)
    requires scopes != [] && Atoms(items) && items != [] && items[0] != Symbol("unquote")
    ensures var f, q := GenFetch("list", lists, scopes),
                        Gen(List([Symbol("quote"), List(items)]), tail, false, base, lists, scopes);
      && q.Some? && |q.value.code| == |f.code| + |items| + 1 && q.value.code[..|f.code|] == f.code
      && Pushes(q.value.code[|f.code|..|f.code| + |items|], q.value.lists.consts, items)
      && q.value.code[|f.code| + |items|].op in {Call, TailCall} && q.value.code[|f.code| + |items|].a == |items|
  {
    var f := GenFetch("list", lists, scopes);
    EachPushed(items, base + |f.code|, f.lists, scopes);
    var all := GenEach(items, true, base + |f.code|, f.lists, scopes).value;
    var form := [Symbol("quote"), List(items)];
    var call := CallOrTail(tail, scopes, |items|);
    var out := Out(f.code + all.code + call, all.lists);
    assert |call| == 1 && out.code[|f.code| + |items|] == call[0];
    assert GenList(items, tail, base, lists, scopes) == Some(out);
    assert GenForm("quote", form, tail, base, lists, scopes) == Some(out);
    assert out.code[|f.code|..|f.code| + |items|] == all.code;
  }

  /** Inside quoted text (unquote e) is e again. */
  lemma UnquoteText(e: Sexp, tail: bool, base: nat, lists: Lists, scopes: seq<Scope>)
    requires scopes != []
    ensures Gen(List([Symbol("unquote"), e]), tail, true, base, lists, scopes)
         == Gen(e, tail, false, base, lists, scopes)
  {
    var items := [Symbol("unquote"), e];
    assert GenList(items, tail, base, lists, scopes) == Gen(e, tail, false, base, lists, scopes);
  }
}
