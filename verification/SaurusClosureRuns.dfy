/** Compiler correctness with closures and calls: generated code, run by the machine, does what the
    evaluator says, through any number of calls inside calls (src/compiler/gen.lua, src/vm/core.c). */
module SaurusClosureRuns {
  import opened Options
  import opened SaurusGen
  import opened SaurusVm
  import opened SaurusStack
  import opened SaurusEvaluator
  import opened SaurusClosures
  import opened SaurusClosureForms
  import opened SaurusClosureCalls
  import C = SaurusCorrect

  /** Code in tail position finishes the function; other code, and code that ends in no call, leaves its value. */
  ghost predicate Ran(m: Machine, base: nat, x: Out, env: Env, r: SRes, fuel: nat, tail: bool, plain: bool) {
    && (!tail || plain ==> Runs(m, base, x, env, r, fuel))
    && (tail ==> Finishes(m, base, x, env, r, fuel))
  }

  /** Its value stays in the function: it ends in no call, or in one that is no tail call. */
  predicate Stays(scopes: seq<Scope>, plain: bool) {
    plain || (scopes != [] && !PlaceOf(scopes).tailCalls)
  }

  lemma RanOf(m: Machine, host: Host, base: nat, x: Out, env: Env, r: SRes, fuel: nat, tail: bool, plain: bool)
    requires IsLoop(m, host) && Runs(m, base, x, env, r, fuel)
    ensures Ran(m, base, x, env, r, fuel, tail, plain)
  {
    RunsFinish(m, host, base, x, env, r, fuel);
  }

  lemma OutsideRan(m: Machine, base: nat, x: Out, env: Env, fuel: nat, tail: bool, plain: bool)
    ensures Ran(m, base, x, env, Outside, fuel, tail, plain)
  {
  }

  /** What holds of an expression wherever its code is generated. */
  ghost predicate Apt(e: Sexp, tail: bool, lists: Lists, scopes: seq<Scope>, env: Env) {
    Fit(scopes, env) && UpsOk(lists.ups, scopes) && Clean(e, false) && DoOk(e, tail, PlaceOf(scopes))
  }

  lemma {:induction false} GenRuns(m: Machine, host: Host, e: Sexp, tail: bool, base: nat, lists: Lists,
                                   scopes: seq<Scope>, env: Env, fuel: nat)
    requires IsLoop(m, host) && Apt(e, tail, lists, scopes, env) && Gen(e, tail, false, base, lists, scopes).Some?
    ensures Ran(m, base, Gen(e, tail, false, base, lists, scopes).value, env, Eval(e, env, fuel), fuel, tail,
                Stays(scopes, PlainEnd(e)))
    decreases fuel, e, 1
  {
    var x := Gen(e, tail, false, base, lists, scopes).value;
    match e
    case Number(n) =>
      ConstRuns(m, host, NumConst(n), lists, base, env, fuel);
      RanOf(m, host, base, x, env, Eval(e, env, fuel), fuel, tail, true);
    case Symbol(name) =>
      if name == "nil" {
        ConstRuns(m, host, StrConst(name), lists, base, env, fuel);
        RanOf(m, host, base, x, env, Eval(e, env, fuel), fuel, tail, true);
      } else if !IsLiteral(name) && Lookup(env, name).Some? {
        FetchRuns(m, host, name, lists, scopes, base, env, fuel);
        RanOf(m, host, base, x, env, Eval(e, env, fuel), fuel, tail, true);
      } else {
        OutsideRan(m, base, x, env, fuel, tail, true);
      }
    case List(items) =>
      if items[0].Symbol? {
        FormRuns(m, host, items[0].name, items, tail, base, lists, scopes, env, fuel);
      } else {
        GenCallRuns(m, host, items, tail, base, lists, scopes, env, fuel);
      }
  }

  lemma {:induction false} FormRuns(m: Machine, host: Host, name: string, items: seq<Sexp>, tail: bool, base: nat,
                                    lists: Lists, scopes: seq<Scope>, env: Env, fuel: nat)
    requires IsLoop(m, host) && items != [] && Fit(scopes, env) && UpsOk(lists.ups, scopes)
    requires CleanForm(name, items) && DoFormOk(name, items, tail, PlaceOf(scopes))
    requires GenForm(name, items, tail, base, lists, scopes).Some?
    ensures Ran(m, base, GenForm(name, items, tail, base, lists, scopes).value, env, EvalForm(name, items, env, fuel),
                fuel, tail, Stays(scopes, PlainForm(name, items)))
    decreases fuel, items, 3
  {
    var x := GenForm(name, items, tail, base, lists, scopes).value;
    if name == "if" {
      IfRuns(m, host, items, tail, base, lists, scopes, env, fuel);
    } else if name == "do" {
      if |items| > 1 { GenBodyRuns(m, host, items[1..], base, lists, scopes, env, fuel); }
    } else if name == "lambda" {
      LambdaRuns(m, host, items, base, lists, scopes, env, fuel);
      RanOf(m, host, base, x, env, EvalLambda(items, env), fuel, tail, true);
    } else if name == "let" {
      LetRuns(m, host, items, tail, base, lists, scopes, env, fuel);
    } else if name == "rec" {
      RecRuns(m, host, items, tail, base, lists, scopes, env, fuel);
    } else if name == "-" && |items| == 2 {
      CleanAt(items, false, 1);
      DoAt(items, PlaceOf(scopes), 1);
      GenRuns(m, host, items[1], false, base, lists, scopes, env, fuel);
      MinusRuns(m, host, Gen(items[1], false, false, base, lists, scopes).value, base, env, Eval(items[1], env, fuel),
                fuel);
      RanOf(m, host, base, x, env, EvalForm(name, items, env, fuel), fuel, tail, true);
    } else if C.IsOperator(name) && |items| == 3 {
      OperatorRuns(m, host, name, items, tail, base, lists, scopes, env, fuel);
      RanOf(m, host, base, x, env, EvalForm(name, items, env, fuel), fuel, tail, true);
    } else if IsOther(name) {
      OutsideRan(m, base, x, env, fuel, tail, true);
    } else {
      GenCallRuns(m, host, items, tail, base, lists, scopes, env, fuel);
    }
  }

  lemma {:induction false} DoAt(items: seq<Sexp>, place: Place, k: nat)
    requires DoEachOk(items, place) && k < |items|
    ensures DoOk(items[k], false, place)
    decreases items
  {
    if k > 0 { DoAt(items[1..], place, k - 1); }
  }

  lemma {:induction false} OperatorRuns(m: Machine, host: Host, name: string, items: seq<Sexp>, tail: bool, base: nat,
                                        lists: Lists, scopes: seq<Scope>, env: Env, fuel: nat)
    requires IsLoop(m, host) && C.IsOperator(name) && |items| == 3 && Fit(scopes, env) && UpsOk(lists.ups, scopes)
    requires CleanEach(items, false) && DoEachOk(items, PlaceOf(scopes))
    requires GenForm(name, items, tail, base, lists, scopes).Some?
    ensures Runs(m, base, GenForm(name, items, tail, base, lists, scopes).value, env,
                 EvalForm(name, items, env, fuel), fuel)
    decreases fuel, items, 2
  {
    var i := if IsReversed(name) then 2 else 1;
    C.OperatorShape(name, items, tail, i, base, lists, scopes);
    EvalOperator(name, items, i, env, fuel);
    var x, y, out, mid, end := OperandsRun(m, host, BinaryOp(name).value, items, i, 3 - i, base, lists, scopes, env,
                                           fuel);
    BinaryRuns(m, host, name, BinaryOp(name).value, x, y, out, base, mid, end, env, Eval(items[i], env, fuel),
               Eval(items[3 - i], env, fuel), fuel);
  }

  lemma EvalOperator(name: string, items: seq<Sexp>, i: nat, env: Env, fuel: nat)
    requires C.IsOperator(name) && |items| == 3 && i == (if IsReversed(name) then 2 else 1)
    ensures EvalForm(name, items, env, fuel)
         == Combined(name, Eval(items[i], env, fuel), Eval(items[3 - i], env, fuel))
  {
  }

  /** Two operands, one after the other. */
  lemma {:induction false} OperandsRun(m: Machine, host: Host, op: Op, items: seq<Sexp>, i: nat, j: nat, base: nat,
                                       lists: Lists, scopes: seq<Scope>, env: Env, fuel: nat)
    returns (x: Out, y: Out, out: Out, mid: nat, end: nat)
    requires IsLoop(m, host) && i < |items| && j < |items| && Fit(scopes, env) && UpsOk(lists.ups, scopes)
    requires CleanEach(items, false) && DoEachOk(items, PlaceOf(scopes))
    requires GenBinary(op, items, i, j, base, lists, scopes).Some?
    ensures GenBinary(op, items, i, j, base, lists, scopes) == Some(out)
    ensures out == Out(x.code + y.code + One(op, 0), y.lists) && mid == base + |x.code| && end == mid + |y.code|
    ensures Grows(x.lists, y.lists) && Runs(m, base, x, env, Eval(items[i], env, fuel), fuel)
    ensures Runs(m, mid, y, env, Eval(items[j], env, fuel), fuel)
    decreases fuel, items, 1
  {
    CleanAt(items, false, i);
    CleanAt(items, false, j);
    DoAt(items, PlaceOf(scopes), i);
    DoAt(items, PlaceOf(scopes), j);
    x := Gen(items[i], false, false, base, lists, scopes).value;
    GenGood(items[i], false, false, base, lists, scopes);
    GenRuns(m, host, items[i], false, base, lists, scopes, env, fuel);
    mid := base + |x.code|;
    y := Gen(items[j], false, false, mid, x.lists, scopes).value;
    GenGood(items[j], false, false, mid, x.lists, scopes);
    GenRuns(m, host, items[j], false, mid, x.lists, scopes, env, fuel);
    out, end := Out(x.code + y.code + One(op, 0), y.lists), mid + |y.code|;
  }

  lemma {:induction false} IfRuns(m: Machine, host: Host, items: seq<Sexp>, tail: bool, base: nat, lists: Lists,
                                  scopes: seq<Scope>, env: Env, fuel: nat)
    requires IsLoop(m, host) && items != [] && Fit(scopes, env) && UpsOk(lists.ups, scopes)
    requires CleanForm("if", items) && DoFormOk("if", items, tail, PlaceOf(scopes))
    requires GenIf(items, tail, base, lists, scopes).Some?
    ensures Ran(m, base, GenIf(items, tail, base, lists, scopes).value, env, EvalIf(items, env, fuel), fuel, tail,
                Stays(scopes, PlainForm("if", items)))
    decreases fuel, items, 2
  {
    var c, f, t, toThen := IfParts(items, tail, base, lists, scopes);
    GenRuns(m, host, items[1], false, base, lists, scopes, env, fuel);
    ElseRuns(m, host, items, tail, base + |c.code| + 1, c.lists, scopes, env, fuel);
    GenRuns(m, host, items[2], tail, toThen, f.lists, scopes, env, fuel);
    var rc, rt, rf := Eval(items[1], env, fuel), Eval(items[2], env, fuel), EvalElse(items, env, fuel);
    if !tail || Stays(scopes, PlainForm("if", items)) {
      BranchRuns(m, host, c, f, t, base, toThen, env, rc, rt, rf, fuel);
    }
    if tail { BranchFinishes(m, host, c, f, t, base, toThen, env, rc, rt, rf, fuel); }
  }

  lemma IfParts(items: seq<Sexp>, tail: bool, base: nat, lists: Lists, scopes: seq<Scope>)
    returns (c: Out, f: Out, t: Out, toThen: nat)
    requires scopes != [] && UpsOk(lists.ups, scopes) && items != [] && CleanForm("if", items)
    requires GenIf(items, tail, base, lists, scopes).Some?
    ensures |items| >= 3 && toThen == base + |c.code| + |f.code| + 2
    ensures Clean(items[1], false) && Clean(items[2], false) && (|items| > 3 ==> Clean(items[3], false))
    ensures Gen(items[1], false, false, base, lists, scopes) == Some(c)
    ensures GenElse(items, tail, base + |c.code| + 1, c.lists, scopes) == Some(f)
    ensures Gen(items[2], tail, false, toThen, f.lists, scopes) == Some(t)
    ensures GenIf(items, tail, base, lists, scopes) == Some(Branches(c, f, t, toThen))
    ensures Grows(c.lists, f.lists) && Grows(f.lists, t.lists)
    ensures UpsOk(c.lists.ups, scopes) && UpsOk(f.lists.ups, scopes)
  {
    var used := if |items| > 4 then items[..4] else items;
    CleanAt(used, false, 1);
    CleanAt(used, false, 2);
    if |items| > 3 { CleanAt(used, false, 3); }
    c := Gen(items[1], false, false, base, lists, scopes).value;
    var at := base + |c.code| + 1;
    f := GenElse(items, tail, at, c.lists, scopes).value;
    toThen := at + |f.code| + 1;
    t := Gen(items[2], tail, false, toThen, f.lists, scopes).value;
    GenGood(items[1], false, false, base, lists, scopes);
    GenElseGood(items, tail, at, c.lists, scopes);
    GenGood(items[2], tail, false, toThen, f.lists, scopes);
  }

  lemma {:induction false} ElseRuns(m: Machine, host: Host, items: seq<Sexp>, tail: bool, base: nat, lists: Lists,
                                    scopes: seq<Scope>, env: Env, fuel: nat)
    requires IsLoop(m, host) && Fit(scopes, env) && UpsOk(lists.ups, scopes)
    requires |items| > 3 ==> Clean(items[3], false) && DoOk(items[3], tail, PlaceOf(scopes))
    requires GenElse(items, tail, base, lists, scopes).Some?
    ensures Ran(m, base, GenElse(items, tail, base, lists, scopes).value, env, EvalElse(items, env, fuel), fuel, tail,
                Stays(scopes, |items| > 3 ==> PlainEnd(items[3])))
    decreases fuel, items, 1
  {
    if |items| > 3 {
      GenRuns(m, host, items[3], tail, base, lists, scopes, env, fuel);
    } else {
      ConstRuns(m, host, StrConst("nil"), lists, base, env, fuel);
      RanOf(m, host, base, GenElse(items, tail, base, lists, scopes).value, env, Val(Plain(Nil)), fuel, tail, true);
    }
  }

  lemma {:induction false} GenBodyRuns(m: Machine, host: Host, items: seq<Sexp>, base: nat, lists: Lists,
                                       scopes: seq<Scope>, env: Env, fuel: nat)
    requires IsLoop(m, host) && items != [] && Fit(scopes, env) && UpsOk(lists.ups, scopes)
    requires CleanEach(items, false) && DoBodyOk(items, PlaceOf(scopes)) && GenBody(items, base, lists, scopes).Some?
    ensures Ran(m, base, GenBody(items, base, lists, scopes).value, env, EvalBody(items, env, fuel), fuel, true,
                Stays(scopes, PlainBody(items)))
    decreases fuel, items, 0
  {
    if |items| == 1 {
      GenRuns(m, host, items[0], true, base, lists, scopes, env, fuel);
    } else {
      var x := Gen(items[0], false, false, base, lists, scopes).value;
      var at := base + |x.code| + 1;
      GenGood(items[0], false, false, base, lists, scopes);
      GenRuns(m, host, items[0], false, base, lists, scopes, env, fuel);
      GenBodyGood(items[1..], at, x.lists, scopes);
      GenBodyRuns(m, host, items[1..], at, x.lists, scopes, env, fuel);
      var rest := GenBody(items[1..], at, x.lists, scopes).value;
      var first, last := Eval(items[0], env, fuel), EvalBody(items[1..], env, fuel);
      if Stays(scopes, PlainBody(items)) { BodyRuns(m, host, x, rest, base, env, first, last, fuel); }
      BodyFinishes(m, host, x, rest, base, env, first, last, fuel);
    }
  }

  lemma LambdaRuns(m: Machine, host: Host, items: seq<Sexp>, base: nat, lists: Lists, scopes: seq<Scope>, env: Env,
                   fuel: nat)
    requires IsLoop(m, host) && Fit(scopes, env)
    requires |items| > 2 ==> CleanEach(items[2..], false) && DoBodyOk(items[2..], Within(PlaceOf(scopes)))
    requires GenLambda(items, base, lists, scopes).Some?
    ensures Runs(m, base, GenLambda(items, base, lists, scopes).value, env, EvalLambda(items, env), fuel)
  {
    var x := GenLambda(items, base, lists, scopes).value;
    if items[1].List? {
      NamesCount(items[1].items);
      ClosureRuns(m, host, Names(items[1].items).value, false, items[2..], lists, scopes, x, base, env, fuel);
    } else {
      ClosureRuns(m, host, [items[1].name], true, items[2..], lists, scopes, x, base, env, fuel);
    }
  }

  // ---------------------------------------------------------------- calls

  lemma {:induction false} GenEachRuns(m: Machine, host: Host, items: seq<Sexp>, base: nat, lists: Lists,
                                       scopes: seq<Scope>, env: Env, fuel: nat)
    requires IsLoop(m, host) && Fit(scopes, env) && UpsOk(lists.ups, scopes)
    requires CleanEach(items, false) && DoEachOk(items, PlaceOf(scopes))
    requires GenEach(items, false, base, lists, scopes).Some?
    ensures RunsAll(m, base, GenEach(items, false, base, lists, scopes).value, env, EvalEach(items, env, fuel), fuel)
    ensures EvalEach(items, env, fuel).Vals? ==> |EvalEach(items, env, fuel).vs| == |items|
    decreases fuel, items, 0
  {
    if items == [] {
      NoneRun(m, base, lists, env, fuel);
    } else {
      var x := Gen(items[0], false, false, base, lists, scopes).value;
      var at := base + |x.code|;
      GenGood(items[0], false, false, base, lists, scopes);
      GenRuns(m, host, items[0], false, base, lists, scopes, env, fuel);
      GenEachGood(items[1..], false, at, x.lists, scopes);
      GenEachRuns(m, host, items[1..], at, x.lists, scopes, env, fuel);
      ConsRuns(m, x, GenEach(items[1..], false, at, x.lists, scopes).value, base, env, Eval(items[0], env, fuel),
               EvalEach(items[1..], env, fuel), fuel);
    }
  }

  lemma {:induction false} GenValuesRuns(m: Machine, host: Host, args: seq<Sexp>, base: nat, lists: Lists,
                                         scopes: seq<Scope>, env: Env, fuel: nat)
    requires IsLoop(m, host) && Fit(scopes, env) && UpsOk(lists.ups, scopes) && |args| % 2 == 0
    requires CleanEach(args, false) && DoEachOk(args, PlaceOf(scopes)) && GenValues(args, base, lists, scopes).Some?
    ensures RunsAll(m, base, GenValues(args, base, lists, scopes).value, env, EvalValues(args, env, fuel), fuel)
    ensures EvalValues(args, env, fuel).Vals? ==> |EvalValues(args, env, fuel).vs| == |args| / 2
    decreases fuel, args, 0
  {
    if args == [] {
      NoneRun(m, base, lists, env, fuel);
    } else {
      CleanAt(args, false, 1);
      DoAt(args, PlaceOf(scopes), 1);
      assert args[1..][1..] == args[2..];
      var x := Gen(args[1], false, false, base, lists, scopes).value;
      var at := base + |x.code|;
      GenGood(args[1], false, false, base, lists, scopes);
      GenRuns(m, host, args[1], false, base, lists, scopes, env, fuel);
      GenValuesGood(args[2..], at, x.lists, scopes);
      GenValuesRuns(m, host, args[2..], at, x.lists, scopes, env, fuel);
      ConsRuns(m, x, GenValues(args[2..], at, x.lists, scopes).value, base, env, Eval(args[1], env, fuel),
               EvalValues(args[2..], env, fuel), fuel);
    }
  }

  /** The call at the end, ordinary or tail. */
  lemma CallRan(m: Machine, host: Host, all: Out, base: nat, env: Env, rs: SList, n: nat, tail: bool,
                scopes: seq<Scope>, r: SRes, fuel: nat)
    requires IsLoop(m, host) && RunsAll(m, base, all, env, rs, fuel) && Follows(m, host, rs, r, fuel)
    requires (rs.Vals? ==> |rs.vs| == n + 1) && scopes != []
    ensures Ran(m, base, Out(all.code + CallOrTail(tail, scopes, n), all.lists), env, r, fuel, tail,
                Stays(scopes, false))
  {
    if CallOrTail(tail, scopes, n)[0].op == Call {
      CallRuns(m, host, all, base, env, rs, n, r, fuel);
      RanOf(m, host, base, Out(all.code + One(Call, n), all.lists), env, r, fuel, tail, true);
    } else {
      TailCallFinishes(m, host, all, base, env, rs, n, r, fuel);
    }
  }

  lemma {:induction false} CallFollows(m: Machine, host: Host, items: seq<Sexp>, env: Env, rs: SList, fuel: nat)
    requires IsLoop(m, host) && items != [] && rs == EvalEach(items, env, fuel) && (rs.Vals? ==> |rs.vs| == |items|)
    ensures Follows(m, host, rs, EvalCall(items, env, fuel), fuel)
    decreases fuel, items, 1
  {
    if rs.Vals? && fuel > 0 { ApplyRuns(m, host, rs.vs[0], rs.vs[1..], rs.vs, fuel - 1); }
  }

  lemma {:induction false} LetFollows(m: Machine, host: Host, items: seq<Sexp>, env: Env, clo: SVal, vs: SList,
                                      fuel: nat)
    requires IsLoop(m, host) && |items| > 2 && items[1].List? && |items[1].items| % 2 == 0
    requires Keys(items[1].items).Some? && vs == EvalValues(items[1].items, env, fuel)
    requires clo == Clo(Keys(items[1].items).value, false, items[2..], env.labels, env.args, Beyond(env))
    ensures Follows(m, host, Cons(Val(clo), vs), EvalLet(items, env, fuel), fuel)
    decreases fuel, items, 1
  {
    if vs.Vals? && fuel > 0 { ApplyRuns(m, host, clo, vs.vs, [clo] + vs.vs, fuel - 1); }
  }

  lemma {:induction false} GenCallRuns(m: Machine, host: Host, items: seq<Sexp>, tail: bool, base: nat, lists: Lists,
                                       scopes: seq<Scope>, env: Env, fuel: nat)
    requires IsLoop(m, host) && items != [] && Fit(scopes, env) && UpsOk(lists.ups, scopes)
    requires CleanEach(items, false) && DoEachOk(items, PlaceOf(scopes))
    requires GenCall(items, tail, base, lists, scopes).Some?
    ensures Ran(m, base, GenCall(items, tail, base, lists, scopes).value, env, EvalCall(items, env, fuel), fuel, tail,
                Stays(scopes, false))
    decreases fuel, items, 2
  {
    GenEachRuns(m, host, items, base, lists, scopes, env, fuel);
    var all, rs := GenEach(items, false, base, lists, scopes).value, EvalEach(items, env, fuel);
    CallFollows(m, host, items, env, rs, fuel);
    CallRan(m, host, all, base, env, rs, |items| - 1, tail, scopes, EvalCall(items, env, fuel), fuel);
  }

  lemma {:induction false} LetRuns(m: Machine, host: Host, items: seq<Sexp>, tail: bool, base: nat, lists: Lists,
                                   scopes: seq<Scope>, env: Env, fuel: nat)
    requires IsLoop(m, host) && items != [] && Fit(scopes, env) && UpsOk(lists.ups, scopes)
    requires CleanForm("let", items) && DoFormOk("let", items, tail, PlaceOf(scopes))
    requires GenLet(items, tail, base, lists, scopes).Some?
    ensures Ran(m, base, GenLet(items, tail, base, lists, scopes).value, env, EvalLet(items, env, fuel), fuel, tail,
                Stays(scopes, false))
    decreases fuel, items, 2
  {
    var args, body := items[1].items, items[2..];
    var labels := Keys(args).value;
    KeysCount(args);
    var f := GenClosure(labels, |labels|, body, lists, scopes).value;
    var at := base + |f.code|;
    ClosureRuns(m, host, labels, false, body, lists, scopes, f, base, env, fuel);
    GenClosureGood(labels, |labels|, body, base, lists, scopes);
    GenValuesGood(args, at, f.lists, scopes);
    GenValuesRuns(m, host, args, at, f.lists, scopes, env, fuel);
    var values, vs := GenValues(args, at, f.lists, scopes).value, EvalValues(args, env, fuel);
    var clo := Clo(labels, false, body, env.labels, env.args, Beyond(env));
    ConsRuns(m, f, values, base, env, Val(clo), vs, fuel);
    LetFollows(m, host, items, env, clo, vs, fuel);
    CallRan(m, host, Out(f.code + values.code, values.lists), base, env, Cons(Val(clo), vs), |labels|, tail, scopes,
            EvalLet(items, env, fuel), fuel);
  }

  lemma {:induction false} RecRuns(m: Machine, host: Host, items: seq<Sexp>, tail: bool, base: nat, lists: Lists,
                                   scopes: seq<Scope>, env: Env, fuel: nat)
    requires IsLoop(m, host) && items != [] && Fit(scopes, env) && UpsOk(lists.ups, scopes)
    requires CleanEach(items, false) && DoEachOk(items, PlaceOf(scopes))
    requires GenRec(items, tail, base, lists, scopes).Some?
    ensures Ran(m, base, GenRec(items, tail, base, lists, scopes).value, env, EvalRec(items, env, fuel), fuel, tail,
                Stays(scopes, false))
    decreases fuel, items, 2
  {
    var self, vs := Out(One(Copy, 0), lists), EvalEach(items[1..], env, fuel);
    GenEachGood(items[1..], false, base + 1, lists, scopes);
    GenEachRuns(m, host, items[1..], base + 1, lists, scopes, env, fuel);
    var args := GenEach(items[1..], false, base + 1, lists, scopes).value;
    if env.self.Some? {
      var f := env.self.value;
      SelfRuns(m, host, base, lists, env, fuel);
      ConsRuns(m, self, args, base, env, Val(f), vs, fuel);
      if vs.Vals? && fuel > 0 { ApplyRuns(m, host, f, vs.vs, [f] + vs.vs, fuel - 1); }
      CallRan(m, host, Out(self.code + args.code, args.lists), base, env, Cons(Val(f), vs), |items| - 1, tail, scopes,
              EvalRec(items, env, fuel), fuel);
    } else {
      OutsideRan(m, base, GenRec(items, tail, base, lists, scopes).value, env, fuel, tail, true);
    }
  }

  /** Whoever calls such a function with such arguments gets what the evaluator says: a value that stands for its
      value, its error, or a run that is longer than the allowed number of calls. */
  lemma {:induction false} ApplyRuns(m: Machine, host: Host, f: SVal, vs: seq<SVal>, all: seq<SVal>, fuel: nat)
    requires IsLoop(m, host) && all == [f] + vs
    ensures Applies(m, host, all, Apply(f, vs, fuel), fuel)
    decreases fuel
  {
    forall u: State, below: seq<Value>, ws: seq<Value>, ret: nat | u.stack == below + ws && RepAll(all, ws)
      ensures Called(m, host, u, ws, ret, Apply(f, vs, fuel), fuel)
    {
      assert Rep(all[0], ws[0]);
      if f.Many? {
        VectorCalled(m, host, u, below, f, vs, ws, ret, fuel);
      } else if f.Plain? || (!f.rest && |f.params| != |vs|) {
        CallFails(m, host, u, below, f, vs, ws, ret, fuel);
      } else {
        var scopes, b :| HasCode(ws[0].f.proto, f.params, f.body, f.labels, f.far, scopes, b);
        var inner := [Scope(f.params, false)] + scopes;
        var env := Env(f.params, Given(f.rest, vs), f.labels, f.args, f.far, Some(f));
        FitInner(scopes, f.params, f.labels, f.far, env);
        GenBodyRuns(m, host, f.body, 0, NOTHING, inner, env, fuel);
        CallEnters(m, host, u, below, f, vs, ws, ret, b, env, Apply(f, vs, fuel), fuel);
      }
    }
  }
}
