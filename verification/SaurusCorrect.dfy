/** Compiler correctness: generated code, run by the machine, computes the value of the source
    expression or raises the error the expression raises (src/compiler/gen.lua, src/vm/core.c). */
module SaurusCorrect {
  import opened Options
  import opened SaurusGen
  import opened SaurusVm
  import opened SaurusStack

  // ---------------------------------------------------------------- the source language

  predicate IsOperator(name: string) {
    name == "+" || name == "-" || name == "*" || name == "<" || name == "<=" || name == ">" || name == ">="
  }

  /** Number literals, nil, parameters, `if`, `do`, + - *, unary minus, and < <= > >=. */
  predicate Fragment(e: Sexp, labels: seq<string>)
    decreases e, 1
  {
    match e
    case Number(_) => true
    case Symbol(name) => name == "nil" || (!IsLiteral(name) && name in labels)
    case List(items) => items != [] && items[0].Symbol? && FragmentForm(items[0].name, items, labels)
  }

  predicate FragmentForm(name: string, items: seq<Sexp>, labels: seq<string>)
    requires items != []
    decreases items, 1
  {
    && (name == "if" || name == "do" || IsOperator(name))
    && (name == "if" ==> |items| >= 3)
    && (name == "do" ==> |items| >= 2)
    && (IsOperator(name) ==> |items| == 3 || (name == "-" && |items| == 2))
    && FragmentEach(items[1..], labels)
  }

  predicate FragmentEach(items: seq<Sexp>, labels: seq<string>)
    decreases items, 0
  {
    items == [] || (Fragment(items[0], labels) && FragmentEach(items[1..], labels))
  }

  lemma {:induction false} FragmentAt(items: seq<Sexp>, labels: seq<string>, k: nat)
    requires FragmentEach(items, labels) && k < |items|
    ensures Fragment(items[k], labels)
    decreases items
  {
    if k > 0 { FragmentAt(items[1..], labels, k - 1); }
  }

  /** The later of two parameters of one name is the one that is seen. */
  function Bind(labels: seq<string>, args: seq<Value>): map<string, Value>
    requires |labels| == |args|
    ensures forall name :: name in labels ==> name in Bind(labels, args)
  {
    if labels == [] then map[]
    else
      var last := |labels| - 1;
      assert labels == labels[..last] + [labels[last]];
      Bind(labels[..last], args[..last])[labels[last] := args[last]]
  }

  /** The number behind a value, or the complaint that it is none. */
  function NeedNumber(v: Value): Result {
    if v.Num? then Ok(v) else Err(BadArgument(TypeOf(v)))
  }

  /** The operator on two numbers. */
  function Operate(name: string, x: real, y: real): Value
    requires IsOperator(name)
  {
    if name == "+" then Num(x + y)
    else if name == "-" then Num(x - y)
    else if name == "*" then Num(x * y)
    else if name == "<" then Bool(x < y)
    else if name == "<=" then Bool(x <= y)
    else if name == ">" then Bool(x > y)
    else Bool(x >= y)
  }

  /** The value of an expression, or the first error on the way to it. The operands of > and >= are
      evaluated, and checked, from right to left. */
  function Eval(e: Sexp, env: map<string, Value>, labels: seq<string>): Result
    requires Fragment(e, labels) && forall name | name in labels :: name in env
    decreases e, 1
  {
    match e
    case Number(n) => Ok(Num(n))
    case Symbol(name) => if name == "nil" then Ok(Nil) else Ok(env[name])
    case List(items) => EvalForm(items[0].name, items, env, labels)
  }

  function EvalForm(name: string, items: seq<Sexp>, env: map<string, Value>, labels: seq<string>): Result
    requires items != [] && FragmentForm(name, items, labels) && forall name | name in labels :: name in env
    decreases items, 1
  {
    if name == "if" then
      var c := EvalNth(items, 1, env, labels);
      if c.Err? then c
      else if c.value != Nil && c.value != Bool(false) then EvalNth(items, 2, env, labels)
      else if |items| > 3 then EvalNth(items, 3, env, labels)
      else Ok(Nil)
    else if name == "do" then EvalBody(items[1..], env, labels)
    else if |items| == 2 then
      var x := EvalNth(items, 1, env, labels);
      if x.Err? then x else if NeedNumber(x.value).Err? then NeedNumber(x.value) else Ok(Num(-x.value.n))
    else
      var i, j := if IsReversed(name) then 2 else 1, if IsReversed(name) then 1 else 2;
      var first := EvalNth(items, i, env, labels);
      if first.Err? then first
      else
        var second := EvalNth(items, j, env, labels);
        if second.Err? then second
        else if NeedNumber(first.value).Err? then NeedNumber(first.value)
        else if NeedNumber(second.value).Err? then NeedNumber(second.value)
        else if IsReversed(name) then Ok(Operate(name, second.value.n, first.value.n))
        else Ok(Operate(name, first.value.n, second.value.n))
  }

  function EvalNth(items: seq<Sexp>, k: nat, env: map<string, Value>, labels: seq<string>): Result
    requires 1 <= k < |items| && FragmentEach(items[1..], labels) && forall name | name in labels :: name in env
    decreases items, 0
  {
    FragmentAt(items[1..], labels, k - 1);
    assert items[1..][k - 1] == items[k];
    Eval(items[k], env, labels)
  }

  /** The value of the last expression, unless an earlier one raises an error. */
  function EvalBody(items: seq<Sexp>, env: map<string, Value>, labels: seq<string>): Result
    requires items != [] && FragmentEach(items, labels) && forall name | name in labels :: name in env
    decreases items, 0
  {
    var x := Eval(items[0], env, labels);
    if |items| == 1 || x.Err? then x else EvalBody(items[1..], env, labels)
  }

  // ---------------------------------------------------------------- the fragment compiles

  lemma {:induction false} FragmentGen(e: Sexp, tail: bool, base: nat, lists: Lists, scopes: seq<Scope>)
    requires scopes != [] && Fragment(e, scopes[0].labels)
    ensures Gen(e, tail, false, base, lists, scopes).Some?
    ensures Grows(lists, Gen(e, tail, false, base, lists, scopes).value.lists)
    decreases e, 1
  {
    match e
    case Number(n) => ConstAdded(lists.consts, NumConst(n));
    case Symbol(name) => ConstAdded(lists.consts, StrConst(name));
    case List(items) =>
      var name := items[0].name;
      assert Gen(e, tail, false, base, lists, scopes) == GenForm(name, items, tail, base, lists, scopes);
      if name == "if" {
        FragmentIf(items, tail, base, lists, scopes);
      } else if name == "do" {
        assert GenForm(name, items, tail, base, lists, scopes) == GenDo(items, base, lists, scopes);
        FragmentBody(items[1..], base, lists, scopes);
      } else {
        FragmentOperator(name, items, tail, base, lists, scopes);
      }
  }

  lemma {:induction false} FragmentOperator(name: string, items: seq<Sexp>, tail: bool, base: nat, lists: Lists,
                                            scopes: seq<Scope>)
    requires scopes != [] && items != [] && IsOperator(name) && FragmentForm(name, items, scopes[0].labels)
    ensures GenForm(name, items, tail, base, lists, scopes).Some?
    ensures Grows(lists, GenForm(name, items, tail, base, lists, scopes).value.lists)
    decreases items, 1
  {
    var i, j := if IsReversed(name) then 2 else 1, if IsReversed(name) then 1 else 2;
    if |items| == 2 {
      FragmentAt(items[1..], scopes[0].labels, 0);
      FragmentGen(items[1], false, base, lists, scopes);
    } else {
      FragmentAt(items[1..], scopes[0].labels, i - 1);
      FragmentAt(items[1..], scopes[0].labels, j - 1);
      FragmentGen(items[i], false, base, lists, scopes);
      var x := Gen(items[i], false, false, base, lists, scopes).value;
      FragmentGen(items[j], false, base + |x.code|, x.lists, scopes);
      assert GenForm(name, items, tail, base, lists, scopes)
          == GenBinary(BinaryOp(name).value, items, i, j, base, lists, scopes);
    }
  }

  lemma {:induction false} FragmentIf(items: seq<Sexp>, tail: bool, base: nat, lists: Lists, scopes: seq<Scope>)
    requires scopes != [] && |items| >= 3 && FragmentEach(items[1..], scopes[0].labels)
    ensures GenIf(items, tail, base, lists, scopes).Some?
    ensures Grows(lists, GenIf(items, tail, base, lists, scopes).value.lists)
    decreases items, 1
  {
    FragmentAt(items[1..], scopes[0].labels, 0);
    FragmentAt(items[1..], scopes[0].labels, 1);
    FragmentGen(items[1], false, base, lists, scopes);
    var c := Gen(items[1], false, false, base, lists, scopes).value;
    var at := base + |c.code| + 1;
    FragmentElse(items, tail, at, c.lists, scopes);
    var f := GenElse(items, tail, at, c.lists, scopes).value;
    FragmentGen(items[2], tail, at + |f.code| + 1, f.lists, scopes);
  }

  lemma {:induction false} FragmentElse(items: seq<Sexp>, tail: bool, base: nat, lists: Lists, scopes: seq<Scope>)
    requires scopes != [] && |items| >= 3 && FragmentEach(items[1..], scopes[0].labels)
    ensures GenElse(items, tail, base, lists, scopes).Some?
    ensures Grows(lists, GenElse(items, tail, base, lists, scopes).value.lists)
    decreases items, 0
  {
    if |items| > 3 {
      FragmentAt(items[1..], scopes[0].labels, 2);
      FragmentGen(items[3], tail, base, lists, scopes);
    } else {
      ConstAdded(lists.consts, StrConst("nil"));
    }
  }

  lemma {:induction false} FragmentBody(items: seq<Sexp>, base: nat, lists: Lists, scopes: seq<Scope>)
    requires scopes != [] && items != [] && FragmentEach(items, scopes[0].labels)
    ensures GenBody(items, base, lists, scopes).Some?
    ensures Grows(lists, GenBody(items, base, lists, scopes).value.lists)
    decreases items, 0
  {
    FragmentGen(items[0], |items| == 1, base, lists, scopes);
    if |items| > 1 {
      var x := Gen(items[0], false, false, base, lists, scopes).value;
      FragmentBody(items[1..], base + |x.code| + 1, x.lists, scopes);
    }
  }

  // ---------------------------------------------------------------- running it

  ghost predicate Placed(insts: seq<Inst>, base: nat, code: seq<Inst>) {
    base + |code| <= |insts| && forall k | 0 <= k < |code| :: insts[base + k] == code[k]
  }

  lemma PlacedParts(insts: seq<Inst>, base: nat, c: seq<Inst>, d: seq<Inst>)
    requires Placed(insts, base, c + d)
    ensures Placed(insts, base, c) && Placed(insts, base + |c|, d)
  {
    forall k | 0 <= k < |c| ensures insts[base + k] == c[k] { assert (c + d)[k] == c[k]; }
    forall k | 0 <= k < |d| ensures insts[base + |c| + k] == d[k] { assert (c + d)[|c| + k] == d[k]; }
  }

  lemma PlacedOne(insts: seq<Inst>, base: nat, i: Inst)
    requires Placed(insts, base, [i])
    ensures base < |insts| && insts[base] == i
  {
    assert insts[base + 0] == [i][0];
  }

  /** The frame of the running function holds these arguments just above the function itself. */
  ghost predicate HasArgs(s: State, args: seq<Value>) {
    && s.frames != []
    && var top := s.frames[|s.frames| - 1].top;
       top + |args| < |s.stack| && s.stack[top + 1..top + 1 + |args|] == args
  }

  /** Ready to run this code, whose constants the running function has. */
  ghost predicate Ready(s: State, base: nat, out: Out, args: seq<Value>) {
    && s.pc == base && Placed(s.func.proto.insts, base, out.code)
    && out.lists.consts <= s.func.proto.consts && HasArgs(s, args)
  }

  function Push1(s: State, pc: nat, v: Value): State {
    s.(pc := pc, stack := s.stack + [v])
  }

  /** After `n` turns the value lies on the stack and nothing else changed, or the error was raised. */
  ghost predicate Delivers(m: Machine, s: State, n: nat, r: Result, end: nat) {
    Steps(m, Running(s), n) == match r { case Ok(v) => Running(Push1(s, end, v)) case Err(e) => Raised(e) }
  }

  ghost predicate Arrives(m: Machine, s: State, r: Result, end: nat) {
    exists n: nat :: Delivers(m, s, n, r, end)
  }

  /** Wherever this code is placed, with these arguments below it, running it has this result. */
  ghost predicate Computes(m: Machine, base: nat, out: Out, args: seq<Value>, r: Result) {
    forall s: State :: Ready(s, base, out, args) ==> Arrives(m, s, r, base + |out.code|)
  }

  lemma OneStep(m: Machine, host: Host, s: State, next: Outcome)
    requires IsLoop(m, host) && Step(host, s) == next
    ensures Steps(m, Running(s), 1) == next
  {
    assert Steps(m, next, 0) == next;
  }

  /** A value is delivered, and then something happens at its end. */
  lemma Follow(m: Machine, s: State, v: Value, mid: nat, n: nat, r: Result, end: nat)
    requires Arrives(m, s, Ok(v), mid)
    requires Steps(m, Running(Push1(s, mid, v)),
             n) == match r { case Ok(w) => Running(Push1(s, end, w)) case Err(e) => Raised(e) }
    ensures Arrives(m, s, r, end)
  {
    var k: nat :| Delivers(m, s, k, Ok(v), mid);
    StepsAdd(m, Running(s), k, n);
    assert Delivers(m, s, k + n, r, end);
  }

  /** A value is delivered, one instruction takes it away again, and the run goes on. */
  lemma Resume(m: Machine, s: State, v: Value, at: nat, u: State, r: Result, end: nat)
    requires Arrives(m, s, Ok(v), at) && Steps(m, Running(Push1(s, at, v)), 1) == Running(u)
    requires Arrives(m, u, r, end) && u == s.(pc := u.pc)
    ensures Arrives(m, s, r, end)
  {
    var l: nat :| Delivers(m, u, l, r, end);
    StepsAdd(m, Running(Push1(s, at, v)), 1, l);
    Follow(m, s, v, at, 1 + l, r, end);
  }

  // ---------------------------------------------------------------- one form at a time

  lemma {:induction false} FindLabelBinds(labels: seq<string>, args: seq<Value>, name: string)
    requires |labels| == |args| && name in labels
    ensures FindLabel(labels, name).Some?
    ensures Bind(labels, args)[name] == args[FindLabel(labels, name).value]
  {
    var last := |labels| - 1;
    if labels[last] != name {
      assert labels == labels[..last] + [labels[last]];
      FindLabelBinds(labels[..last], args[..last], name);
    }
  }

  lemma ConstComputes(m: Machine, host: Host, c: Const, lists: Lists, base: nat, args: seq<Value>)
    requires IsLoop(m, host)
    ensures Computes(m, base, GenConst(c, lists), args, Ok(CreateValue(c)))
  {
    var i := ConstIndex(lists.consts, c);
    ConstAdded(lists.consts, c);
    forall s: State | Ready(s, base, GenConst(c, lists), args) ensures Arrives(m, s, Ok(CreateValue(c)), base + 1) {
      PlacedOne(s.func.proto.insts, base, Inst(Push, i, 0));
      OneStep(m, host, s, Running(Push1(s, base + 1, CreateValue(c))));
      assert Delivers(m, s, 1, Ok(CreateValue(c)), base + 1);
    }
  }

  lemma LoadStep(host: Host, s: State, id: nat, args: seq<Value>)
    requires id < |args| && HasArgs(s, args)
    requires s.pc < |s.func.proto.insts| && s.func.proto.insts[s.pc] == Inst(Load, id, 0)
    ensures Step(host, s) == Running(Push1(s, s.pc + 1, args[id]))
  {
    var top := s.frames[|s.frames| - 1].top;
    assert s.stack[top + 1..top + 1 + |args|][id] == s.stack[top + 1 + id];
  }

  lemma ParamComputes(m: Machine, host: Host, name: string, lists: Lists, scopes: seq<Scope>, base: nat,
                      args: seq<Value>)
    requires IsLoop(m, host) && scopes != [] && |scopes[0].labels| == |args| && name in scopes[0].labels
    ensures Computes(m, base, GenFetch(name, lists, scopes), args, Ok(Bind(scopes[0].labels, args)[name]))
  {
    FindLabelBinds(scopes[0].labels, args, name);
    var id := FindLabel(scopes[0].labels, name).value;
    forall s: State | Ready(s, base, GenFetch(name, lists, scopes), args) ensures Arrives(m, s, Ok(args[id]),
        base + 1) {
      PlacedOne(s.func.proto.insts, base, Inst(Load, id, 0));
      LoadStep(host, s, id, args);
      OneStep(m, host, s, Running(Push1(s, base + 1, args[id])));
      assert Delivers(m, s, 1, Ok(args[id]), base + 1);
    }
  }

  lemma StillHasArgs(s: State, pc: nat, v: Value, args: seq<Value>)
    requires HasArgs(s, args)
    ensures HasArgs(Push1(s, pc, v), args)
  {
    var top := s.frames[|s.frames| - 1].top;
    assert (s.stack + [v])[top + 1..top + 1 + |args|] == s.stack[top + 1..top + 1 + |args|];
  }

  function Negate(x: Result): Result {
    if x.Err? then x else if NeedNumber(x.value).Err? then NeedNumber(x.value) else Ok(Num(-x.value.n))
  }

  lemma MinusStep(m: Machine, host: Host, s: State, end: nat, v: Value)
    requires IsLoop(m, host) && end < |s.func.proto.insts| && s.func.proto.insts[end] == Inst(Unm, 0, 0)
    ensures Steps(m, Running(Push1(s, end, v)), 1)
         == if v.Num? then Running(Push1(s, end + 1, Num(-v.n))) else Raised(BadArgument(TypeOf(v)))
  {
    var t := Push1(s, end, v);
    assert t.stack[..|t.stack| - 1] == s.stack && Top(t, 0) == v;
    OneStep(m, host, t, Step(host, t));
  }

  lemma MinusComputes(m: Machine, host: Host, x: Out, base: nat, args: seq<Value>, r: Result)
    requires IsLoop(m, host) && Computes(m, base, x, args, r)
    ensures Computes(m, base, Out(x.code + One(Unm, 0), x.lists), args, Negate(r))
  {
    var end := base + |x.code|;
    forall s: State | Ready(s, base, Out(x.code + One(Unm, 0), x.lists), args) ensures Arrives(m, s, Negate(r),
        end + 1) {
      PlacedParts(s.func.proto.insts, base, x.code, One(Unm, 0));
      PlacedOne(s.func.proto.insts, end, Inst(Unm, 0, 0));
      assert Ready(s, base, x, args) && Arrives(m, s, r, end);
      if r.Err? {
        Same(m, s, r, end, end + 1);
      } else {
        MinusStep(m, host, s, end, r.value);
        Follow(m, s, r.value, end, 1, Negate(r), end + 1);
      }
    }
  }

  /** An error arrives wherever one looks for it. */
  lemma Same(m: Machine, s: State, r: Result, end: nat, other: nat)
    requires r.Err? && Arrives(m, s, r, end)
    ensures Arrives(m, s, r, other)
  {
    var n: nat :| Delivers(m, s, n, r, end);
    assert Delivers(m, s, n, r, other);
  }

  function Combine(name: string, first: Result, second: Result): Result
    requires IsOperator(name)
  {
    if first.Err? then first
    else if second.Err? then second
    else if NeedNumber(first.value).Err? then NeedNumber(first.value)
    else if NeedNumber(second.value).Err? then NeedNumber(second.value)
    else if IsReversed(name) then Ok(Operate(name, second.value.n, first.value.n))
    else Ok(Operate(name, first.value.n, second.value.n))
  }

  /** The instruction of an operator, with its two operands on the stack. */
  lemma OperatorStep(m: Machine, host: Host, name: string, op: Op, s: State, x: Value, mid: nat, y: Value, end: nat)
    requires IsLoop(m, host) && IsOperator(name) && op == BinaryOp(name).value
    requires end < |s.func.proto.insts| && s.func.proto.insts[end] == Inst(op, 0, 0)
    ensures Steps(m, Running(Push1(Push1(s, mid, x), end, y)), 1)
         == match Combine(name, Ok(x), Ok(y)) { case Ok(w) => Running(Push1(s, end + 1, w)) case Err(e) => Raised(e) }
  {
    var u := Push1(Push1(s, mid, x), end, y);
    assert Top(u, 0) == y && Top(u, 1) == x;
    assert u.stack[..|u.stack| - 2] == s.stack;
    OneStep(m, host, u, Deliver(u, 2, Binary(host, op, x, y)));
  }

  lemma BinaryAt(m: Machine, host: Host, name: string, op: Op, x: Out, y: Out, base: nat, args: seq<Value>,
                 v: Value, r: Result, s: State)
    requires IsLoop(m, host) && IsOperator(name) && op == BinaryOp(name).value
    requires Arrives(m, s, Ok(v), base + |x.code|) && Computes(m, base + |x.code|, y, args, r)
    requires Ready(s, base, Out(x.code + y.code + One(op, 0), y.lists), args)
    ensures Arrives(m, s, Combine(name, Ok(v), r), base + |x.code| + |y.code| + 1)
  {
    var mid, end := base + |x.code|, base + |x.code| + |y.code|;
    PlacedParts(s.func.proto.insts, base, x.code + y.code, One(op, 0));
    PlacedParts(s.func.proto.insts, base, x.code, y.code);
    PlacedOne(s.func.proto.insts, end, Inst(op, 0, 0));
    var t := Push1(s, mid, v);
    StillHasArgs(s, mid, v, args);
    assert Ready(t, mid, y, args) && Arrives(m, t, r, end);
    var l: nat :| Delivers(m, t, l, r, end);
    if r.Err? {
      Follow(m, s, v, mid, l, r, end + 1);
    } else {
      OperatorStep(m, host, name, op, s, v, mid, r.value, end);
      StepsAdd(m, Running(t), l, 1);
      Follow(m, s, v, mid, l + 1, Combine(name, Ok(v), r), end + 1);
    }
  }

  lemma BinaryComputes(m: Machine, host: Host, name: string, op: Op, x: Out, y: Out, base: nat, args: seq<Value>,
                       first: Result, second: Result)
    requires IsLoop(m, host) && IsOperator(name) && op == BinaryOp(name).value && Grows(x.lists, y.lists)
    requires Computes(m, base, x, args, first) && Computes(m, base + |x.code|, y, args, second)
    ensures Computes(m, base, Out(x.code + y.code + One(op, 0), y.lists), args, Combine(name, first, second))
  {
    var end := base + |x.code| + |y.code| + 1;
    forall s: State | Ready(s, base, Out(x.code + y.code + One(op, 0), y.lists), args)
      ensures Arrives(m, s, Combine(name, first, second), end)
    {
      PlacedParts(s.func.proto.insts, base, x.code + y.code, One(op, 0));
      PlacedParts(s.func.proto.insts, base, x.code, y.code);
      assert Ready(s, base, x, args) && Arrives(m, s, first, base + |x.code|);
      if first.Err? {
        Same(m, s, first, base + |x.code|, end);
      } else {
        BinaryAt(m, host, name, op, x, y, base, args, first.value, second, s);
      }
    }
  }

  lemma PopStep(m: Machine, host: Host, s: State, end: nat, v: Value)
    requires IsLoop(m, host) && end < |s.func.proto.insts| && s.func.proto.insts[end] == Inst(Pop, 1, 0)
    ensures Steps(m, Running(Push1(s, end, v)), 1) == Running(s.(pc := end + 1))
  {
    var t := Push1(s, end, v);
    assert t.stack[..|t.stack| - 1] + [] == s.stack;
    OneStep(m, host, t, Step(host, t));
  }

  lemma BodyComputes(m: Machine, host: Host, x: Out, rest: Out, base: nat, args: seq<Value>, first: Result,
                     last: Result)
    requires IsLoop(m, host) && Grows(x.lists, rest.lists)
    requires Computes(m, base, x, args, first) && Computes(m, base + |x.code| + 1, rest, args, last)
    ensures Computes(m, base, Out(x.code + One(Pop, 1) + rest.code, rest.lists), args,
            if first.Err? then first else last)
  {
    var at, end := base + |x.code|, base + |x.code| + 1 + |rest.code|;
    forall s: State | Ready(s, base, Out(x.code + One(Pop, 1) + rest.code, rest.lists), args)
      ensures Arrives(m, s, if first.Err? then first else last, end)
    {
      PlacedParts(s.func.proto.insts, base, x.code + One(Pop, 1), rest.code);
      PlacedParts(s.func.proto.insts, base, x.code, One(Pop, 1));
      PlacedOne(s.func.proto.insts, at, Inst(Pop, 1, 0));
      assert Ready(s, base, x, args) && Arrives(m, s, first, at);
      if first.Err? {
        Same(m, s, first, at, end);
      } else {
        var u := s.(pc := at + 1);
        PopStep(m, host, s, at, first.value);
        assert Ready(u, at + 1, rest, args);
        Resume(m, s, first.value, at, u, last, end);
      }
    }
  }

  lemma TestStep(m: Machine, host: Host, s: State, end: nat, v: Value, target: nat)
    requires IsLoop(m, host) && end < |s.func.proto.insts| && s.func.proto.insts[end] == Inst(Test, target, 0)
    ensures Steps(m, Running(Push1(s, end, v)), 1) == Running(s.(pc := if Truthy(v) then target else end + 1))
  {
    var t := Push1(s, end, v);
    assert t.stack[..|t.stack| - 1] == s.stack && Top(t, 0) == v;
    OneStep(m, host, t, Step(host, t));
  }

  /** The parts of the code of a conditional, in their places. */
  lemma BranchesPlaced(insts: seq<Inst>, base: nat, c: Out, f: Out, t: Out, toThen: nat)
    requires toThen == base + |c.code| + |f.code| + 2 && Placed(insts, base, Branches(c, f, t, toThen).code)
    ensures Placed(insts, base, c.code) && Placed(insts, base + |c.code| + 1, f.code) && Placed(insts, toThen, t.code)
    ensures toThen + |t.code| <= |insts|
    ensures insts[base + |c.code|] == Inst(Test, toThen, 0) && insts[toThen - 1] == Inst(Jmp, toThen + |t.code|, 0)
  {
    var test, jmp := One(Test, toThen), One(Jmp, toThen + |t.code|);
    PlacedParts(insts, base, c.code + test + f.code + jmp, t.code);
    PlacedParts(insts, base, c.code + test + f.code, jmp);
    PlacedParts(insts, base, c.code + test, f.code);
    PlacedParts(insts, base, c.code, test);
    assert insts[base + |c.code| + 0] == test[0] && insts[toThen - 1 + 0] == jmp[0];
  }

  /** The `else` branch runs into the jump over the `then` branch. */
  lemma ElseArrives(m: Machine, host: Host, u: State, r: Result, at: nat, end: nat)
    requires IsLoop(m, host) && Arrives(m, u, r, at)
    requires at < |u.func.proto.insts| && u.func.proto.insts[at] == Inst(Jmp, end, 0)
    ensures Arrives(m, u, r, end)
  {
    if r.Err? {
      Same(m, u, r, at, end);
    } else {
      OneStep(m, host, Push1(u, at, r.value), Running(Push1(u, end, r.value)));
      Follow(m, u, r.value, at, 1, r, end);
    }
  }

  function Choose(c: Result, t: Result, f: Result): Result {
    if c.Err? then c else if Truthy(c.value) then t else f
  }

  lemma BranchAt(m: Machine, host: Host, c: Out, f: Out, t: Out, base: nat, toThen: nat, args: seq<Value>,
                 v: Value, rt: Result, rf: Result, s: State)
    requires IsLoop(m, host) && Grows(f.lists, t.lists) && toThen == base + |c.code| + |f.code| + 2
    requires Arrives(m, s, Ok(v), base + |c.code|) && Ready(s, base, Branches(c, f, t, toThen), args)
    requires Computes(m, base + |c.code| + 1, f, args, rf) && Computes(m, toThen, t, args, rt)
    ensures Arrives(m, s, if Truthy(v) then rt else rf, toThen + |t.code|)
  {
    BranchesPlaced(s.func.proto.insts, base, c, f, t, toThen);
    var test, end := base + |c.code|, toThen + |t.code|;
    TestStep(m, host, s, test, v, toThen);
    if Truthy(v) {
      var u := s.(pc := toThen);
      assert Ready(u, toThen, t, args);
      Resume(m, s, v, test, u, rt, end);
    } else {
      var u := s.(pc := test + 1);
      assert Ready(u, test + 1, f, args);
      ElseArrives(m, host, u, rf, toThen - 1, end);
      Resume(m, s, v, test, u, rf, end);
    }
  }

  lemma BranchComputes(m: Machine, host: Host, c: Out, f: Out, t: Out, base: nat, toThen: nat, args: seq<Value>,
                       rc: Result, rt: Result, rf: Result)
    requires IsLoop(m, host) && Grows(c.lists, f.lists) && Grows(f.lists, t.lists)
    requires toThen == base + |c.code| + |f.code| + 2
    requires Computes(m, base, c, args, rc) && Computes(m, base + |c.code| + 1, f, args, rf)
             && Computes(m, toThen, t, args, rt)
    ensures Computes(m, base, Branches(c, f, t, toThen), args, Choose(rc, rt, rf))
  {
    var out := Branches(c, f, t, toThen);
    forall s: State | Ready(s, base, out, args) ensures Arrives(m, s, Choose(rc, rt, rf), base + |out.code|) {
      BranchesPlaced(s.func.proto.insts, base, c, f, t, toThen);
      assert Ready(s, base, c, args) && Arrives(m, s, rc, base + |c.code|);
      if rc.Err? {
        Same(m, s, rc, base + |c.code|, base + |out.code|);
      } else {
        BranchAt(m, host, c, f, t, base, toThen, args, rc.value, rt, rf, s);
      }
    }
  }

  // ---------------------------------------------------------------- the theorem

  /** Code generated for an expression of the fragment, wherever it is placed and whatever lies below on
      the stack, stops just past its last instruction having pushed exactly the value of the expression, or
      raises exactly the error the expression raises. */
  lemma {:induction false} GenComputes(m: Machine, host: Host, e: Sexp, tail: bool, base: nat, lists: Lists,
                                       scopes: seq<Scope>, args: seq<Value>)
    requires IsLoop(m, host) && scopes != [] && Fragment(e, scopes[0].labels) && |scopes[0].labels| == |args|
    ensures Gen(e, tail, false, base, lists, scopes).Some?
    ensures Computes(m, base, Gen(e, tail, false, base, lists, scopes).value, args,
                     Eval(e, Bind(scopes[0].labels, args), scopes[0].labels))
    decreases e, 1
  {
    FragmentGen(e, tail, base, lists, scopes);
    match e
    case Number(x) => ConstComputes(m, host, NumConst(x), lists, base, args);
    case Symbol(name) =>
      if name == "nil" {
        ConstComputes(m, host, StrConst(name), lists, base, args);
      } else {
        ParamComputes(m, host, name, lists, scopes, base, args);
      }
    case List(items) => FormComputes(m, host, items[0].name, items, tail, base, lists, scopes, args);
  }

  lemma {:induction false} FormComputes(m: Machine, host: Host, name: string, items: seq<Sexp>, tail: bool,
                                        base: nat, lists: Lists, scopes: seq<Scope>, args: seq<Value>)
    requires IsLoop(m, host) && scopes != [] && items != [] && FragmentForm(name, items, scopes[0].labels)
    requires |scopes[0].labels| == |args| && GenForm(name, items, tail, base, lists, scopes).Some?
    ensures Computes(m, base, GenForm(name, items, tail, base, lists, scopes).value, args,
                     EvalForm(name, items, Bind(scopes[0].labels, args), scopes[0].labels))
    decreases items, 2
  {
    var labels := scopes[0].labels;
    var env := Bind(labels, args);
    if name == "if" {
      IfComputes(m, host, items, tail, base, lists, scopes, args);
    } else if name == "do" {
      BodyGenComputes(m, host, items[1..], base, lists, scopes, args);
    } else if |items| == 2 {
      FragmentAt(items[1..], labels, 0);
      GenComputes(m, host, items[1], false, base, lists, scopes, args);
      MinusComputes(m, host, Gen(items[1], false, false, base, lists, scopes).value, base, args,
          Eval(items[1], env, labels));
    } else {
      var i := if IsReversed(name) then 2 else 1;
      OperatorShape(name, items, tail, i, base, lists, scopes);
      EvalOperator(name, items, env, labels, i, 3 - i);
      OperatorComputes(m, host, name, BinaryOp(name).value, items, i, 3 - i, base, lists, scopes, args);
    }
  }

  lemma OperatorShape(name: string, items: seq<Sexp>, tail: bool, i: nat, base: nat, lists: Lists, scopes: seq<Scope>)
    requires scopes != [] && |items| == 3 && IsOperator(name) && i == (if IsReversed(name) then 2 else 1)
    ensures GenForm(name, items, tail, base, lists, scopes) == GenBinary(BinaryOp(name).value, items, i, 3 - i, base,
            lists, scopes)
  {
  }

  lemma EvalOperator(name: string, items: seq<Sexp>, env: map<string, Value>, labels: seq<string>, i: nat, j: nat)
    requires |items| == 3 && IsOperator(name) && FragmentForm(name, items, labels)
    requires i == (if IsReversed(name) then 2 else 1) && j == 3 - i
    requires forall name | name in labels :: name in env
    ensures Fragment(items[i], labels) && Fragment(items[j], labels)
    ensures EvalForm(name, items, env, labels) == Combine(name, Eval(items[i], env, labels),
            Eval(items[j], env, labels))
  {
    FragmentAt(items[1..], labels, i - 1);
    FragmentAt(items[1..], labels, j - 1);
    assert EvalNth(items, i, env, labels) == Eval(items[i], env, labels);
    assert EvalNth(items, j, env, labels) == Eval(items[j], env, labels);
  }

  lemma EvalIf(items: seq<Sexp>, env: map<string, Value>, labels: seq<string>)
    requires items != [] && FragmentForm("if", items, labels) && forall name | name in labels :: name in env
    ensures Fragment(items[1], labels) && Fragment(items[2], labels)
    ensures EvalForm("if", items, env, labels)
         == Choose(Eval(items[1], env, labels), Eval(items[2], env, labels),
                   if |items| > 3 then EvalNth(items, 3, env, labels) else Ok(Nil))
  {
    FragmentAt(items[1..], labels, 0);
    FragmentAt(items[1..], labels, 1);
    assert EvalNth(items, 1, env, labels) == Eval(items[1], env, labels);
    assert EvalNth(items, 2, env, labels) == Eval(items[2], env, labels);
  }

  lemma {:induction false} OperatorComputes(m: Machine, host: Host, name: string, op: Op, items: seq<Sexp>, i: nat,
                                            j: nat, base: nat, lists: Lists, scopes: seq<Scope>, args: seq<Value>)
    requires IsLoop(m, host) && scopes != [] && i < |items| && j < |items| && IsOperator(name)
             && op == BinaryOp(name).value
    requires Fragment(items[i], scopes[0].labels) && Fragment(items[j], scopes[0].labels)
             && |scopes[0].labels| == |args|
    ensures GenBinary(op, items, i, j, base, lists, scopes).Some?
    ensures var env, labels := Bind(scopes[0].labels, args), scopes[0].labels;
            Computes(m, base, GenBinary(op, items, i, j, base, lists, scopes).value, args,
                     Combine(name, Eval(items[i], env, labels), Eval(items[j], env, labels)))
    decreases items, 0, 1
  {
    var env, labels := Bind(scopes[0].labels, args), scopes[0].labels;
    var x, y := OperandsCompute(m, host, items, i, j, base, lists, scopes, args);
    BinaryComputes(m, host, name, op, x, y, base, args, Eval(items[i], env, labels), Eval(items[j], env, labels));
  }

  /** Two operands, one after the other. */
  lemma {:induction false} OperandsCompute(m: Machine, host: Host, items: seq<Sexp>, i: nat, j: nat, base: nat,
                                           lists: Lists, scopes: seq<Scope>, args: seq<Value>)
    returns (x: Out, y: Out)
    requires IsLoop(m, host) && scopes != [] && i < |items| && j < |items| && |scopes[0].labels| == |args|
    requires Fragment(items[i], scopes[0].labels) && Fragment(items[j], scopes[0].labels)
    ensures Gen(items[i], false, false, base, lists, scopes) == Some(x)
    ensures Gen(items[j], false, false, base + |x.code|, x.lists, scopes) == Some(y)
    ensures Grows(x.lists, y.lists)
    ensures Computes(m, base, x, args, Eval(items[i], Bind(scopes[0].labels, args), scopes[0].labels))
    ensures Computes(m, base + |x.code|, y, args, Eval(items[j], Bind(scopes[0].labels, args), scopes[0].labels))
    decreases items, 0, 0
  {
    GenComputes(m, host, items[i], false, base, lists, scopes, args);
    x := Gen(items[i], false, false, base, lists, scopes).value;
    GenComputes(m, host, items[j], false, base + |x.code|, x.lists, scopes, args);
    FragmentGen(items[j], false, base + |x.code|, x.lists, scopes);
    y := Gen(items[j], false, false, base + |x.code|, x.lists, scopes).value;
  }

  lemma {:induction false} IfComputes(m: Machine, host: Host, items: seq<Sexp>, tail: bool, base: nat, lists: Lists,
                                      scopes: seq<Scope>, args: seq<Value>)
    requires IsLoop(m, host) && scopes != [] && items != [] && FragmentForm("if", items, scopes[0].labels)
    requires |scopes[0].labels| == |args|
    ensures GenIf(items, tail, base, lists, scopes).Some?
    ensures Computes(m, base, GenIf(items, tail, base, lists, scopes).value, args,
                     EvalForm("if", items, Bind(scopes[0].labels, args), scopes[0].labels))
    decreases items, 1
  {
    var labels := scopes[0].labels;
    var env := Bind(labels, args);
    EvalIf(items, env, labels);
    var c, f, t, toThen := IfParts(items, tail, base, lists, scopes);
    var rf := if |items| > 3 then EvalNth(items, 3, env, labels) else Ok(Nil);
    GenComputes(m, host, items[1], false, base, lists, scopes, args);
    ElseComputes(m, host, items, tail, base + |c.code| + 1, c.lists, scopes, args);
    GenComputes(m, host, items[2], tail, toThen, f.lists, scopes, args);
    BranchComputes(m, host, c, f, t, base, toThen, args, Eval(items[1], env, labels), Eval(items[2], env, labels), rf);
  }

  lemma IfParts(items: seq<Sexp>, tail: bool, base: nat, lists: Lists, scopes: seq<Scope>)
    returns (c: Out, f: Out, t: Out, toThen: nat)
    requires scopes != [] && items != [] && FragmentForm("if", items, scopes[0].labels)
    ensures toThen == base + |c.code| + |f.code| + 2
    ensures Gen(items[1], false, false, base, lists, scopes) == Some(c)
    ensures GenElse(items, tail, base + |c.code| + 1, c.lists, scopes) == Some(f)
    ensures Gen(items[2], tail, false, toThen, f.lists, scopes) == Some(t)
    ensures GenIf(items, tail, base, lists, scopes) == Some(Branches(c, f, t, toThen))
    ensures Grows(c.lists, f.lists) && Grows(f.lists, t.lists)
  {
    FragmentIf(items, tail, base, lists, scopes);
    c := Gen(items[1], false, false, base, lists, scopes).value;
    var at := base + |c.code| + 1;
    f := GenElse(items, tail, at, c.lists, scopes).value;
    toThen := at + |f.code| + 1;
    t := Gen(items[2], tail, false, toThen, f.lists, scopes).value;
    FragmentElse(items, tail, at, c.lists, scopes);
    FragmentAt(items[1..], scopes[0].labels, 1);
    FragmentGen(items[2], tail, toThen, f.lists, scopes);
  }

  lemma {:induction false} ElseComputes(m: Machine, host: Host, items: seq<Sexp>, tail: bool, base: nat,
                                        lists: Lists, scopes: seq<Scope>, args: seq<Value>)
    requires IsLoop(m, host) && scopes != [] && |items| >= 3 && FragmentEach(items[1..], scopes[0].labels)
    requires |scopes[0].labels| == |args|
    ensures GenElse(items, tail, base, lists, scopes).Some?
    ensures Computes(m, base, GenElse(items, tail, base, lists, scopes).value, args,
      if |items| > 3 then EvalNth(items, 3, Bind(scopes[0].labels, args), scopes[0].labels) else Ok(Nil))
    decreases items, 0
  {
    if |items| > 3 {
      FragmentAt(items[1..], scopes[0].labels, 2);
      GenComputes(m, host, items[3], tail, base, lists, scopes, args);
    } else {
      ConstComputes(m, host, StrConst("nil"), lists, base, args);
    }
  }

  lemma {:induction false} BodyGenComputes(m: Machine, host: Host, items: seq<Sexp>, base: nat, lists: Lists,
                                           scopes: seq<Scope>, args: seq<Value>)
    requires IsLoop(m, host) && scopes != [] && items != [] && FragmentEach(items, scopes[0].labels)
    requires |scopes[0].labels| == |args|
    ensures GenBody(items, base, lists, scopes).Some?
    ensures Computes(m, base, GenBody(items, base, lists, scopes).value, args,
            EvalBody(items, Bind(scopes[0].labels, args), scopes[0].labels))
    decreases items, 0
  {
    var labels := scopes[0].labels;
    var env := Bind(labels, args);
    GenComputes(m, host, items[0], |items| == 1, base, lists, scopes, args);
    if |items| > 1 {
      var x := Gen(items[0], false, false, base, lists, scopes).value;
      BodyGenComputes(m, host, items[1..], base + |x.code| + 1, x.lists, scopes, args);
      FragmentBody(items[1..], base + |x.code| + 1, x.lists, scopes);
      var rest := GenBody(items[1..], base + |x.code| + 1, x.lists, scopes).value;
      BodyComputes(m, host, x, rest, base, args, Eval(items[0], env, labels), EvalBody(items[1..], env, labels));
    }
  }

  // ---------------------------------------------------------------- calling a compiled function

  ghost predicate Returns(m: Machine, s: State, r: Result, done: State) {
    exists n: nat :: Steps(m, Running(s), n) == match r { case Ok(_) => Running(done) case Err(e) => Raised(e) }
  }

  lemma CallStep(host: Host, s: State, f: Function, below: seq<Value>, args: seq<Value>, b: int)
    requires s.pc < |s.func.proto.insts| && s.func.proto.insts[s.pc] == Inst(Call, |args|, b)
    requires s.stack == below + [Fun(f)] + args && f.narg == |args|
    ensures Step(host,
            s) == Running(State(0, f, s.stack + f.upvalues, s.frames + [Frame(s.func, |below|, s.pc + 1)], s.globals))
  {
    assert s.stack[|below|] == Fun(f) && s.stack[|below| + 1..] == args;
    assert s.stack[..|below| + 1] + args == s.stack;
  }

  lemma ReturnStep(host: Host, t: State, s: State, below: seq<Value>, v: Value, a: nat, b: int)
    requires t.pc < |t.func.proto.insts| && t.func.proto.insts[t.pc] == Inst(Return, a, b)
    requires t.frames == s.frames + [Frame(s.func, |below|, s.pc + 1)] && t.globals == s.globals
    requires |t.stack| > |below| && t.stack[..|below|] == below && Top(t, 0) == v
    ensures Step(host, t) == Running(s.(pc := s.pc + 1, stack := below + [v]))
  {
    assert t.frames[|t.frames| - 1] == Frame(s.func, |below|, s.pc + 1);
    assert t.frames[..|t.frames| - 1] == s.frames;
  }

  /** Calling a closure over the bytecode of a function whose body is in the fragment leaves the value of
      the body in the place of the callee and its arguments, and everything below as it was, or raises
      what the body raises. */
  lemma CallComputes(host: Host, labels: seq<string>, body: seq<Sexp>, scopes: seq<Scope>, f: Function, s: State,
                     below: seq<Value>, args: seq<Value>, b: int)
    requires body != [] && FragmentEach(body, labels) && |labels| == |args|
    requires GenBody(body, 0, NOTHING, [Scope(labels, false)] + scopes).Some?
    requires var x := GenBody(body, 0, NOTHING, [Scope(labels, false)] + scopes).value;
      var p := Proto(x.code + One(Return, 0), x.lists.consts, x.lists.ups, x.lists.prots);
      Fits(p) && f.proto == Encode(p)
    requires s.pc < |s.func.proto.insts| && s.func.proto.insts[s.pc] == Inst(Call, |args|, b)
    requires s.stack == below + [Fun(f)] + args && f.narg == |args|
    ensures var r := EvalBody(body, Bind(labels, args), labels);
      Returns(Loop(host), s, r, s.(pc := s.pc + 1, stack := below + if r.Ok? then [r.value] else []))
  {
    var m := Loop(host);
    var inner := [Scope(labels, false)] + scopes;
    var x := GenBody(body, 0, NOTHING, inner).value;
    var r := EvalBody(body, Bind(labels, args), labels);
    var p := Proto(x.code + One(Return, 0), x.lists.consts, x.lists.ups, x.lists.prots);
    EncodeFits(p);
    CallStep(host, s, f, below, args, b);
    var t := Step(host, s).s;
    OneStep(m, host, s, Running(t));
    BodyGenComputes(m, host, body, 0, NOTHING, inner, args);
    assert t.stack[|below| + 1..|below| + 1 + |args|] == args;
    assert Ready(t, 0, x, args) && Arrives(m, t, r, |x.code|);
    CallEnds(m, host, s, t, r, |x.code|, below);
  }

  lemma CallEnds(m: Machine, host: Host, s: State, t: State, r: Result, end: nat, below: seq<Value>)
    requires IsLoop(m, host) && Steps(m, Running(s), 1) == Running(t) && Arrives(m, t, r, end)
    requires end < |t.func.proto.insts| && t.func.proto.insts[end].op == Return
    requires t.frames == s.frames + [Frame(s.func, |below|, s.pc + 1)] && t.globals == s.globals
    requires |t.stack| > |below| && t.stack[..|below|] == below
    ensures Returns(m, s, r, s.(pc := s.pc + 1, stack := below + if r.Ok? then [r.value] else []))
  {
    var done := s.(pc := s.pc + 1, stack := below + if r.Ok? then [r.value] else []);
    var n: nat :| Delivers(m, t, n, r, end);
    if r.Ok? {
      var u := Push1(t, end, r.value);
      var i := t.func.proto.insts[end];
      ReturnStep(host, u, s, below, r.value, i.a, i.b);
      OneStep(m, host, u, Running(done));
      RunsOn(m, s, t, n, Running(u), 1, Running(done));
      assert Steps(m, Running(s), 1 + (n + 1)) == Running(done);
    } else {
      RunsOn(m, s, t, n, Raised(r.error), 0, Raised(r.error));
      assert Steps(m, Running(s), 1 + (n + 0)) == Raised(r.error);
    }
  }

  lemma RunsOn(m: Machine, s: State, t: State, n: nat, o: Outcome, k: nat, last: Outcome)
    requires Steps(m, Running(s), 1) == Running(t) && Steps(m, Running(t), n) == o && Steps(m, o, k) == last
    ensures Steps(m, Running(s), 1 + (n + k)) == last
  {
    StepsAdd(m, Running(t), n, k);
    StepsAdd(m, Running(s), 1, n + k);
  }
}
