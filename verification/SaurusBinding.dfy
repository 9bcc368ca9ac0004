/** Which value a name, an index or an operand stands for, told by the place where it is written
    (src/compiler/gen.lua, src/vm/core.c). */
module SaurusBinding {
  import opened Options
  import opened SaurusGen
  import opened SaurusVm
  import opened SaurusEvaluator

  // ---------------------------------------------------------------- parameters and keys

  /** The names that stand for themselves. */
  const LITERALS := {"nil", "true", "false"}

  lemma LiteralIs(name: string)
    ensures IsLiteral(name) <==> name in LITERALS
  {
  }

  ghost predicate AllSymbols(items: seq<Sexp>) {
    forall k | 0 <= k < |items| :: items[k].Symbol?
  }

  /** No two of these names are the same. */
  ghost predicate Different(names: seq<string>) {
    forall i, j | 0 <= i < j < |names| :: names[i] != names[j]
  }

  /** The parameters of a lambda, in the order written. */
  lemma {:induction false} NamesAre(items: seq<Sexp>)
    ensures Names(items).Some? <==> AllSymbols(items)
    ensures Names(items).Some? ==> |Names(items).value| == |items|
    ensures Names(items).Some? ==> forall k | 0 <= k < |items| :: Names(items).value[k] == items[k].name
  {
    if items != [] {
      NamesAre(items[1..]);
      if items[0].Symbol? && Names(items[1..]).Some? {
        forall k | 0 <= k < |items| ensures items[k].Symbol? && Names(items).value[k] == items[k].name {
          if k > 0 { assert items[k] == items[1..][k - 1]; }
        }
      }
    }
  }

  ghost predicate AllKeys(args: seq<Sexp>) {
    forall k | 0 <= k < |args| / 2 :: args[2 * k].Symbol?
  }

  /** The keys of a let, in the order written. */
  lemma {:induction false} KeysAre(args: seq<Sexp>)
    requires |args| % 2 == 0
    ensures Keys(args).Some? <==> AllKeys(args)
    ensures Keys(args).Some? ==> |Keys(args).value| == |args| / 2
    ensures Keys(args).Some? ==> forall k | 0 <= k < |args| / 2 :: Keys(args).value[k] == args[2 * k].name
  {
    if args != [] {
      KeysAre(args[2..]);
      if args[0].Symbol? && Keys(args[2..]).Some? {
        forall k | 0 <= k < |args| / 2 ensures args[2 * k].Symbol? && Keys(args).value[k] == args[2 * k].name {
          if k > 0 { assert args[2 * k] == args[2..][2 * (k - 1)]; }
        }
      }
      if AllKeys(args) {
        assert args[2 * 0].Symbol?;
        forall k | 0 <= k < |args[2..]| / 2 ensures args[2..][2 * k].Symbol? {
          assert args[2..][2 * k] == args[2 * (k + 1)];
        }
      }
    }
  }

  /** Of several labels of one name the last one is found. */
  lemma {:induction false} LastLabel(labels: seq<string>, name: string)
    ensures FindLabel(labels, name).Some? <==> name in labels
    ensures FindLabel(labels, name).Some? ==>
      forall j | FindLabel(labels, name).value < j < |labels| :: labels[j] != name
  {
    if labels != [] {
      var front := labels[..|labels| - 1];
      assert labels == front + [labels[|labels| - 1]];
      LastLabel(front, name);
    }
  }

  lemma OnlyLabel(labels: seq<string>, k: nat)
    requires Different(labels) && k < |labels|
    ensures FindLabel(labels, labels[k]) == Some(k)
  {
    LastLabel(labels, labels[k]);
  }

  /** In a function with these parameters. */
  lemma ParametersBound(labels: seq<string>, vs: seq<SVal>, env: Env, fuel: nat)
    requires Different(labels) && |vs| == |labels| && env.labels == labels && env.args == vs
    ensures forall k | 0 <= k < |labels| && labels[k] !in LITERALS :: Eval(Symbol(labels[k]), env, fuel) == Val(vs[k])
  {
    forall k | 0 <= k < |labels| && labels[k] !in LITERALS ensures Eval(Symbol(labels[k]), env, fuel) == Val(vs[k]) {
      LiteralIs(labels[k]);
      OnlyLabel(labels, k);
    }
  }

  /** In the body of a called lambda the k-th parameter, as written, is the k-th argument. */
  lemma LambdaBinds(params: seq<Sexp>, body: seq<Sexp>, vs: seq<SVal>, env: Env, fuel: nat)
    returns (f: SVal, inside: Env)
    requires AllSymbols(params) && body != [] && |vs| == |params|
    requires forall i, j | 0 <= i < j < |params| :: params[i] != params[j]
    ensures forall n: nat :: Eval(List([Symbol("lambda"), List(params)] + body), env, n) == Val(f)
    ensures Apply(f, vs, fuel) == EvalBody(body, inside, fuel)
    ensures forall k | 0 <= k < |params| && params[k].name !in LITERALS :: Eval(params[k], inside, fuel) == Val(vs[k])
  {
    var items := [Symbol("lambda"), List(params)] + body;
    assert items[2..] == body;
    NamesAre(params);
    var labels := Names(params).value;
    forall i, j | 0 <= i < j < |labels| ensures labels[i] != labels[j] {
      assert params[i] != params[j];
    }
    f := Clo(labels, false, body, env.labels, env.args, Beyond(env));
    inside := Env(labels, vs, env.labels, env.args, Beyond(env), Some(f));
    forall n: nat ensures Eval(List(items), env, n) == Val(f) {
      assert EvalForm("lambda", items, env, n) == EvalLambda(items, env);
    }
    ParametersBound(labels, vs, inside, fuel);
    forall k | 0 <= k < |params| && params[k].name !in LITERALS ensures Eval(params[k], inside, fuel) == Val(vs[k]) {
      assert params[k] == Symbol(labels[k]);
    }
  }

  /** ((lambda (p0 p1 ...) pk) e0 e1 ...) is the value of ek. */
  lemma CallPicks(params: seq<Sexp>, args: seq<Sexp>, vs: seq<SVal>, k: nat, env: Env, fuel: nat)
    requires AllSymbols(params) && |args| == |params| == |vs| && k < |params| && params[k].name !in LITERALS && fuel > 0
    requires forall i, j | 0 <= i < j < |params| :: params[i] != params[j]
    requires forall i | 0 <= i < |args| :: Eval(args[i], env, fuel) == Val(vs[i])
    ensures Eval(List([List([Symbol("lambda"), List(params), params[k]])] + args), env, fuel) == Val(vs[k])
  {
    var form := List([Symbol("lambda"), List(params)] + [params[k]]);
    var f := LambdaPicks(params, vs, k, env, fuel);
    ClosureCalled(form, args, f, vs, env, fuel);
    assert form.items == [Symbol("lambda"), List(params), params[k]];
  }

  lemma LambdaPicks(params: seq<Sexp>, vs: seq<SVal>, k: nat, env: Env, fuel: nat) returns (f: SVal)
    requires AllSymbols(params) && |params| == |vs| && k < |params| && params[k].name !in LITERALS && fuel > 0
    requires forall i, j | 0 <= i < j < |params| :: params[i] != params[j]
    ensures Eval(List([Symbol("lambda"), List(params)] + [params[k]]), env, fuel) == Val(f)
    ensures Apply(f, vs, fuel - 1) == Val(vs[k])
  {
    var inside;
    f, inside := LambdaBinds(params, [params[k]], vs, env, fuel - 1);
    BodyOfOne(params[k], inside, fuel - 1);
  }

  lemma ClosureCalled(form: Sexp, args: seq<Sexp>, f: SVal, vs: seq<SVal>, env: Env, fuel: nat)
    requires form.List? && Eval(form, env, fuel) == Val(f) && fuel > 0 && |args| == |vs|
    requires forall i | 0 <= i < |args| :: Eval(args[i], env, fuel) == Val(vs[i])
    ensures Eval(List([form] + args), env, fuel) == Apply(f, vs, fuel - 1)
  {
    EachIs(args, vs, env, fuel);
    var items := [form] + args;
    assert items[1..] == args;
    assert EvalEach(items, env, fuel) == Cons(Val(f), Vals(vs));
    assert ([f] + vs)[1..] == vs;
    assert EvalCall(items, env, fuel) == Apply(f, vs, fuel - 1);
  }

  lemma BodyOfOne(e: Sexp, env: Env, fuel: nat)
    ensures EvalBody([e], env, fuel) == Eval(e, env, fuel)
  {
  }

  lemma {:induction false} EachIs(args: seq<Sexp>, vs: seq<SVal>, env: Env, fuel: nat)
    requires |args| == |vs| && forall i | 0 <= i < |args| :: Eval(args[i], env, fuel) == Val(vs[i])
    ensures EvalEach(args, env, fuel) == Vals(vs)
  {
    if args != [] {
      forall i | 0 <= i < |args[1..]| ensures Eval(args[1..][i], env, fuel) == Val(vs[1..][i]) {
        assert args[1..][i] == args[i + 1];
      }
      EachIs(args[1..], vs[1..], env, fuel);
      assert Eval(args[0], env, fuel) == Val(vs[0]) && vs == [vs[0]] + vs[1..];
    }
  }

  /** A lambda whose parameter is no list gets the vector of its arguments, in order. */
  lemma RestBinds(name: string, body: seq<Sexp>, vs: seq<SVal>, env: Env, fuel: nat) returns (f: SVal, inside: Env)
    requires body != [] && name !in LITERALS
    ensures Eval(List([Symbol("lambda"), Symbol(name)] + body), env, fuel) == Val(f)
    ensures Apply(f, vs, fuel) == EvalBody(body, inside, fuel)
    ensures Eval(Symbol(name), inside, fuel) == Val(Many(vs))
  {
    var items := [Symbol("lambda"), Symbol(name)] + body;
    assert items[2..] == body;
    f := Clo([name], true, body, env.labels, env.args, Beyond(env));
    inside := Env([name], [Many(vs)], env.labels, env.args, Beyond(env), Some(f));
    assert EvalForm("lambda", items, env, fuel) == Val(f);
    ParametersBound([name], [Many(vs)], inside, fuel);
    assert [name][0] == name;
  }

  /** In the body of a let the k-th key is the k-th value. */
  lemma LetBinds(args: seq<Sexp>, body: seq<Sexp>, vs: seq<SVal>, env: Env, fuel: nat) returns (inside: Env)
    requires |args| % 2 == 0 && AllKeys(args) && body != [] && |vs| == |args| / 2 && fuel > 0
    requires forall i, j | 0 <= i < j < |args| / 2 :: args[2 * i] != args[2 * j]
    requires forall k | 0 <= k < |args| / 2 :: Eval(args[2 * k + 1], env, fuel) == Val(vs[k])
    ensures Eval(List([Symbol("let"), List(args)] + body), env, fuel) == EvalBody(body, inside, fuel - 1)
    ensures forall k | 0 <= k < |args| / 2 && args[2 * k].name !in LITERALS ::
              Eval(args[2 * k], inside, fuel - 1) == Val(vs[k])
  {
    var items := [Symbol("let"), List(args)] + body;
    assert items[2..] == body;
    KeysAre(args);
    var labels := Keys(args).value;
    forall i, j | 0 <= i < j < |labels| ensures labels[i] != labels[j] {
      assert args[2 * i] != args[2 * j];
    }
    ValuesAre(args, vs, env, fuel);
    var f := Clo(labels, false, body, env.labels, env.args, Beyond(env));
    inside := Env(labels, vs, env.labels, env.args, Beyond(env), Some(f));
    assert EvalLet(items, env, fuel) == Apply(f, vs, fuel - 1);
    assert EvalForm("let", items, env, fuel) == EvalBody(body, inside, fuel - 1);
    ParametersBound(labels, vs, inside, fuel - 1);
    forall k | 0 <= k < |args| / 2 && args[2 * k].name !in LITERALS
      ensures Eval(args[2 * k], inside, fuel - 1) == Val(vs[k])
    {
      assert args[2 * k] == Symbol(labels[k]);
    }
  }

  lemma {:induction false} ValuesAre(args: seq<Sexp>, vs: seq<SVal>, env: Env, fuel: nat)
    requires |args| % 2 == 0 && |vs| == |args| / 2
    requires forall k | 0 <= k < |args| / 2 :: Eval(args[2 * k + 1], env, fuel) == Val(vs[k])
    ensures EvalValues(args, env, fuel) == Vals(vs)
  {
    if args != [] {
      var rest := args[2..];
      forall k | 0 <= k < |rest| / 2 ensures Eval(rest[2 * k + 1], env, fuel) == Val(vs[1..][k]) {
        assert rest[2 * k + 1] == args[2 * (k + 1) + 1];
      }
      ValuesAre(rest, vs[1..], env, fuel);
      assert Eval(args[2 * 0 + 1], env, fuel) == Val(vs[0]) && vs == [vs[0]] + vs[1..];
    }
  }

  // ---------------------------------------------------------------- elements of a vector

  /** A number without fraction is itself, whatever its sign, and the cast is odd. */
  lemma TruncateIs(i: int, x: real)
    ensures Truncate(i as real) == i && Truncate(-x) == -Truncate(x)
    ensures x >= 0.0 ==> Truncate(x) as real <= x < Truncate(x) as real + 1.0
    ensures x <= 0.0 ==> Truncate(x) as real - 1.0 < x <= Truncate(x) as real
  {
  }

  /** A vector called with the number i gives its element i; the first one is element 0. */
  lemma VectorElement(host: Host, s: State, below: seq<Value>, elems: seq<Value>, i: int, ret: nat)
    requires s.stack == below + [Vec(elems), Num(i as real)]
    ensures DoCall(host, s, 1, ret) ==
      if 0 <= i < |elems| then Running(s.(pc := ret, stack := below + [elems[i]]))
      else Raised(IndexOutOfBounds(i))
  {
    var at := |s.stack| - 2;
    assert s.stack[at] == Vec(elems) && s.stack[at + 1..] == [Num(i as real)] && s.stack[..at] == below;
    TruncateIs(i, 0.0);
  }

  /** The same by the evaluator. */
  lemma ElementIs(elems: seq<SVal>, i: int, fuel: nat)
    ensures Apply(Many(elems), [Plain(Num(i as real))], fuel) ==
      if 0 <= i < |elems| then Val(elems[i]) else Fail(IndexOutOfBounds(i))
  {
    TruncateIs(i, 0.0);
  }
}
