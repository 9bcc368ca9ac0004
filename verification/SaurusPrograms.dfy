/** Whole programs with closures: the machine, running a compiled program, does what the evaluator says
    (src/compiler/gen.lua, src/compiler/entry.lua, src/vm/core.c). */
module SaurusPrograms {
  import opened Options
  import opened SaurusGen
  import opened SaurusVm
  import opened SaurusStack
  import opened SaurusSafety
  import opened SaurusEvaluator
  import opened SaurusScope
  import opened SaurusClosures
  import opened SaurusClosureCalls
  import opened SaurusClosureRuns
  import C = SaurusCorrect

  // ---------------------------------------------------------------- what a run does

  ghost predicate Reaches(m: Machine, s: State, sv: SVal, v: Value, n: nat, at: Value -> Outcome) {
    Rep(sv, v) && Steps(m, Running(s), n) == at(v)
  }

  /** The run comes to this end with a value that stands for the evaluator's, or raises the evaluator's error;
      if the evaluator ran out of fuel, the run is still going after as many turns. */
  ghost predicate Does(m: Machine, s: State, r: SRes, fuel: nat, at: Value -> Outcome) {
    match r
    case Val(sv) => exists v: Value, n: nat :: Reaches(m, s, sv, v, n, at)
    case Fail(e) => exists n: nat :: RaisesAt(m, s, e, n)
    case Timeout => Steps(m, Running(s), fuel).Running?
    case Outside => true
  }

  /** From a target to the end, in some more turns. */
  lemma Shown(m: Machine, s: State, r: SRes, fuel: nat, target: Value -> State, k: nat, at: Value -> Outcome)
    requires Gives(m, s, r, fuel, target) && forall v :: Steps(m, Running(target(v)), k) == at(v)
    ensures Does(m, s, r, fuel, at)
  {
    match r
    case Val(sv) =>
      var v: Value, n: nat :| GivesAt(m, s, sv, v, n, target);
      StepsAdd(m, Running(s), n, k);
      assert Reaches(m, s, sv, v, n + k, at);
    case Fail(e) =>
      var n: nat :| RaisesAt(m, s, e, n);
      assert RaisesAt(m, s, e, n);
    case Timeout =>
      var n: nat :| n >= fuel && RunsAt(m, s, n);
      StepsAdd(m, Running(s), fuel, n - fuel);
    case Outside =>
  }

  /** Calling a compiled closure: the value of the call, in the place of the callee and its arguments, the error
      of the call, or a run as long as wanted. */
  lemma CallAgrees(host: Host, f: SVal, vs: seq<SVal>, u: State, below: seq<Value>, ws: seq<Value>, fuel: nat)
    requires u.pc < |u.func.proto.insts| && u.func.proto.insts[u.pc] == Inst(Call, |vs|, 0)
    requires u.stack == below + ws && RepAll([f] + vs, ws)
    ensures Does(Loop(host), u, Apply(f, vs, fuel), fuel, v => Running(u.(pc := u.pc + 1, stack := below + [v])))
  {
    var m, s := Loop(host), u.(stack := below);
    ApplyRuns(m, host, f, vs, [f] + vs, fuel);
    CallTurn(m, host, s, u.pc, [f] + vs, ws, Apply(f, vs, fuel), fuel + 1);
    assert PushN(s, u.pc, ws) == u;
    Longer(m, u, Apply(f, vs, fuel), fuel, ToPush(s, u.pc + 1));
    Shown(m, u, Apply(f, vs, fuel), fuel, ToPush(s, u.pc + 1), 0,
          v => Running(u.(pc := u.pc + 1, stack := below + [v])));
  }

  lemma Longer(m: Machine, s: State, r: SRes, fuel: nat, target: Value -> State)
    requires Gives(m, s, r, fuel + 1, target)
    ensures Gives(m, s, r, fuel, target)
  {
    Prefixed(m, s, 0, s, r, fuel + 1, fuel, target, target);
  }

  // ---------------------------------------------------------------- programs

  const NO_ENV := Env([], [], [], [], [], None)

  /** Names may be resolved at any depth, or in a near view no further out than a function's creator. */
  function TopView(near: bool): View {
    View([], [], [], false, near)
  }

  const TOP := Place(true, true)

  /** The machine when a program has ended with this value. */
  function End(p: Proto, v: Value): Outcome {
    Done(State(0xffff, Function(-1, p, []), [v], [], map[]))
  }

  lemma TopSees(near: bool)
    ensures Sees([Scope([], true)], TopView(near))
  {
    assert LabelsOf([Scope([], true)]) + [[]] == [[], []] + TopView(near).far;
  }

  /** Such a program compiles, without two-operand `not`, and every function in it captures from its creator's frame
      exactly if no function uses a variable from further out than that. */
  lemma ProgramCompiles(e: Sexp, near: bool)
    requires Covered(e, TopView(near))
    ensures GenTop(e).Some? && Clean(e, false)
    ensures LocalCaptures(GenTop(e).value) <==> Covered(e, TopView(true))
  {
    var scopes := [Scope([], true)];
    CoveredClean(e, TopView(near));
    TopSees(near);
    GenLocal(e, false, 0, NOTHING, scopes, TopView(near));
    var x := Gen(e, false, false, 0, NOTHING, scopes).value;
    assert LocalCaptures(TopProto(x)) <==> Local(x.lists);
  }

  lemma NoTopCaptures(e: Sexp)
    requires Clean(e, false) && GenTop(e).Some? && LocalCaptures(GenTop(e).value)
    ensures GenTop(e).value.ups == []
  {
    CompiledIsOk(e);
    NoCaptures(GenTop(e).value.ups);
  }

  /** The program's value is called with the argument and returned. */
  lemma TopPlaced(x: Out, p: Proto, end: nat)
    requires p == TopProto(x) && end == |x.code|
    ensures C.Placed(p.insts, 0, x.code) && Has(p, x.lists) && |p.insts| == end + 3
    ensures p.insts[end] == Inst(Load, 0, 0) && p.insts[end + 1] == Inst(Call, 1, 0)
    ensures p.insts[end + 2] == Inst(Return, 0, 0)
  {
    var front := x.code + One(Load, 0) + One(Call, 1);
    assert front[end] == Inst(Load, 0, 0) && front[end + 1] == Inst(Call, 1, 0);
    assert p.insts == front + One(Return, 0);
  }

  /** The argument is pushed above the program's value. */
  lemma ArgumentPushed(m: Machine, host: Host, s: State, end: nat, v: Value, w: Value)
    requires IsLoop(m, host) && end < |s.func.proto.insts| && s.func.proto.insts[end] == Inst(Load, 0, 0)
    requires s.frames != [] && s.frames[|s.frames| - 1].top + 1 < |s.stack|
    requires s.stack[s.frames[|s.frames| - 1].top + 1] == w
    ensures Steps(m, Running(C.Push1(s, end, v)), 1) == Running(PushN(s, end + 1, [v, w]))
  {
    var t := C.Push1(s, end, v);
    assert t.stack + [w] == s.stack + [v, w];
    C.OneStep(m, host, t, Running(PushN(s, end + 1, [v, w])));
  }

  /** The program's value, called. */
  lemma ProgramCalls(m: Machine, host: Host, s: State, end: nat, f: SVal, v: Value, arg: SVal, w: Value, r: SRes,
                     fuel: nat)
    requires IsLoop(m, host) && end + 1 < |s.func.proto.insts| && s.func.proto.insts[end] == Inst(Load, 0, 0)
    requires s.func.proto.insts[end + 1] == Inst(Call, 1, 0) && Rep(f, v) && Rep(arg, w)
    requires s.frames != [] && s.frames[|s.frames| - 1].top + 1 < |s.stack|
    requires s.stack[s.frames[|s.frames| - 1].top + 1] == w
    requires Follows(m, host, Vals([f, arg]), r, fuel)
    ensures Gives(m, C.Push1(s, end, v), r, fuel, ToPush(s, end + 2))
  {
    var u := PushN(s, end + 1, [v, w]);
    ArgumentPushed(m, host, s, end, v, w);
    if fuel == 0 {
      OutOfFuel(m, u, ToPush(s, end + 2));
    } else {
      assert RepAll([f, arg], [v, w]);
      CallTurn(m, host, s, end + 1, [f, arg], [v, w], r, fuel);
    }
    Prefixed(m, C.Push1(s, end, v), 1, u, r, fuel, fuel, ToPush(s, end + 2), ToPush(s, end + 2));
  }

  /** The value is returned to nobody, which ends the run. */
  lemma ProgramEnds(m: Machine, host: Host, p: Proto, w: Value, pos: nat, v: Value)
    requires IsLoop(m, host) && pos < |p.insts| <= 0xffff && p.insts[pos] == Inst(Return, 0, 0)
    ensures Steps(m, Running(C.Push1(Start(p, w), pos, v)), 2) == End(p, v)
  {
    var s := Start(p, w);
    ReturnTurn(m, host, s, pos, v);
    var t := Back(s, v);
    assert t.stack == [v] && t.frames == [];
    C.OneStep(m, host, t, Step(host, t));
    StepsAdd(m, Running(C.Push1(s, pos, v)), 1, 1);
  }

  /** A program, run: whatever its text, out of literals, variables, if, do, lambda, let, rec, calls, arithmetic and
      comparison, whose operands fit their bytes and in which no `do` outside tail position ends in a call, the
      machine ends with the value the evaluator gives, raises the error it gives, or goes on as it does. */
  lemma ProgramAgrees(host: Host, e: Sexp, p: Proto, arg: SVal, w: Value, fuel: nat)
    requires Covered(e, TopView(true)) && DoOk(e, false, TOP) && GenTop(e) == Some(p)
    requires Fits(p) && |p.insts| <= 0xffff && Rep(arg, w)
    ensures Does(Loop(host), Start(Encode(p), w), EvalProgram(e, arg, fuel), fuel, v => End(p, v))
  {
    var m, f := Loop(host), Eval(e, NO_ENV, fuel);
    ProgramCompiles(e, true);
    NoTopCaptures(e);
    EncodeFits(p);
    var x := ProgramValue(m, host, e, p, fuel);
    if f.Val? && fuel > 0 { ApplyRuns(m, host, f.v, [arg], [f.v, arg], fuel - 1); }
    ProgramRuns(m, host, x, p, arg, w, f, EvalProgram(e, arg, fuel), fuel);
  }

  /** The program's own code. */
  lemma ProgramValue(m: Machine, host: Host, e: Sexp, p: Proto, fuel: nat) returns (x: Out)
    requires IsLoop(m, host) && Clean(e, false) && DoOk(e, false, TOP) && GenTop(e) == Some(p)
    ensures p == TopProto(x) && Runs(m, 0, x, NO_ENV, Eval(e, NO_ENV, fuel), fuel)
  {
    var scopes := [Scope([], true)];
    x := Gen(e, false, false, 0, NOTHING, scopes).value;
    GenRuns(m, host, e, false, 0, NOTHING, scopes, NO_ENV, fuel);
  }

  lemma ProgramRuns(m: Machine, host: Host, x: Out, p: Proto, arg: SVal, w: Value, f: SRes, r: SRes, fuel: nat)
    requires IsLoop(m, host) && p == TopProto(x) && Fits(p) && LocalCaptures(p) && p.ups == [] && |p.insts| <= 0xffff
    requires Rep(arg, w) && Runs(m, 0, x, NO_ENV, f, fuel)
    requires if f.Val? then Follows(m, host, Vals([f.v, arg]), r, fuel) else r == f
    ensures Does(m, Start(p, w), r, fuel, v => End(p, v))
  {
    var s, end := Start(p, w), |x.code|;
    TopPlaced(x, p, end);
    assert Ready(s, 0, x, NO_ENV);
    if f.Val? {
      forall v | Rep(f.v, v) ensures Gives(m, C.Push1(s, end, v), r, fuel, ToPush(s, end + 2)) {
        ProgramCalls(m, host, s, end, f.v, v, arg, w, r, fuel);
      }
    }
    Then(m, s, f, end, r, fuel, ToPush(s, end + 2));
    forall v ensures Steps(m, Running(ToPush(s, end + 2)(v)), 2) == End(p, v) {
      ProgramEnds(m, host, p, w, end + 2, v);
    }
    Shown(m, s, r, fuel, ToPush(s, end + 2), 2, v => End(p, v));
  }

  /** And the other way round: a run that ends or raises an error after `n` turns does so with the value or the
      error that the evaluator gives, with no more than `n` calls. */
  lemma ProgramExact(host: Host, e: Sexp, p: Proto, arg: SVal, w: Value, n: nat)
    requires Covered(e, TopView(true)) && DoOk(e, false, TOP) && GenTop(e) == Some(p)
    requires Fits(p) && |p.insts| <= 0xffff && Rep(arg, w) && Closed(arg, true)
    requires !Steps(Loop(host), Running(Start(Encode(p), w)), n).Running?
    ensures var o, r := Steps(Loop(host), Running(Start(Encode(p), w)), n), EvalProgram(e, arg, n);
            || (r.Val? && exists v :: Rep(r.v, v) && o == End(p, v))
            || (r.Fail? && o == Raised(r.e))
  {
    var m, s, r := Loop(host), Start(Encode(p), w), EvalProgram(e, arg, n);
    ProgramAgrees(host, e, p, arg, w, n);
    ProgramInside(e, arg, n, true);
    var v := DoesExactly(m, s, r, n, v => End(p, v));
  }

  /** The evaluator never leaves the language. */
  lemma ProgramInside(e: Sexp, arg: SVal, n: nat, near: bool)
    requires Covered(e, TopView(near)) && Closed(arg, near)
    ensures Inside(EvalProgram(e, arg, n), near)
  {
    EvalInside(e, NO_ENV, n, near);
    var f := Eval(e, NO_ENV, n);
    if f.Val? && n > 0 { ApplyInside(f.v, [arg], n - 1, near); }
  }

  lemma DoesExactly(m: Machine, s: State, r: SRes, n: nat, at: Value -> Outcome) returns (v: Value)
    requires Does(m, s, r, n, at) && !r.Outside? && !Steps(m, Running(s), n).Running?
    requires forall v :: !at(v).Running?
    ensures var o := Steps(m, Running(s), n); (r.Val? && Rep(r.v, v) && o == at(v)) || (r.Fail? && o == Raised(r.e))
  {
    if r.Val? {
      var w: Value, k: nat :| Reaches(m, s, r.v, w, k, at);
      OneEnd(m, s, n, k);
      v := w;
    } else {
      var k: nat :| RaisesAt(m, s, r.e, k);
      OneEnd(m, s, n, k);
      v := Nil;
    }
  }

  lemma OneEnd(m: Machine, s: State, n: nat, k: nat)
    requires !Steps(m, Running(s), n).Running? && !Steps(m, Running(s), k).Running?
    ensures Steps(m, Running(s), n) == Steps(m, Running(s), k)
  {
    if n <= k {
      StepsAdd(m, Running(s), n, k - n);
      Settled(m, Steps(m, Running(s), n), k - n);
    } else {
      StepsAdd(m, Running(s), k, n - k);
      Settled(m, Steps(m, Running(s), k), n - k);
    }
  }

  // ---------------------------------------------------------------- a `do` that ends in a call

  /** (f) */
  const CALL_F := List([Symbol("f")])

  /** (+ 1 (do (f))) */
  const ONE_MORE := List([Symbol("+"), Number(1.0), List([Symbol("do"), CALL_F])])

  const IN_A_FUNCTION := [Scope(["f"], false), Scope(["..."], false), Scope([], true)]

  /** The call of `f` is a tail call, and the addition comes after it. */
  lemma EscapingCode()
    ensures Gen(ONE_MORE, false, false, 0, NOTHING, IN_A_FUNCTION)
         == Some(Out([Inst(Push, 0, 0), Inst(Load, 0, 0), Inst(TailCall, 0, 0), Inst(Add, 0, 0)],
                     NOTHING.(consts := [NumConst(1.0)])))
  {
    var lists, scopes := NOTHING.(consts := [NumConst(1.0)]), IN_A_FUNCTION;
    var call, dof := CALL_F.items, ONE_MORE.items[2].items;
    assert [] + [NumConst(1.0)] == lists.consts;
    assert Gen(Number(1.0), false, false, 0, NOTHING, scopes) == Some(Out([Inst(Push, 0, 0)], lists));
    assert scopes[0].labels[|scopes[0].labels| - 1] == "f";
    assert Gen(call[0], false, false, 1, lists, scopes) == Some(Out([Inst(Load, 0, 0)], lists));
    assert GenEach(call[1..], false, 2, lists, scopes) == Some(Out([], lists));
    assert [Inst(Load, 0, 0)] + [] == [Inst(Load, 0, 0)];
    assert GenEach(call, false, 1, lists, scopes) == Some(Out([Inst(Load, 0, 0)], lists));
    assert [Inst(Load, 0, 0)] + One(TailCall, 0) == [Inst(Load, 0, 0), Inst(TailCall, 0, 0)];
    assert GenCall(call, true, 1, lists, scopes) == Some(Out([Inst(Load, 0, 0), Inst(TailCall, 0, 0)], lists));
    assert Gen(CALL_F, true, false, 1, lists, scopes) == GenCall(call, true, 1, lists, scopes);
    assert dof[1..] == [CALL_F];
    assert GenDo(dof, 1, lists, scopes) == GenCall(call, true, 1, lists, scopes);
    assert Gen(ONE_MORE.items[2], false, false, 1, lists, scopes) == GenCall(call, true, 1, lists, scopes);
    C.OperatorShape("+", ONE_MORE.items, false, 1, 0, NOTHING, scopes);
    assert [Inst(Push, 0, 0)] + [Inst(Load, 0, 0), Inst(TailCall, 0, 0)] + One(Add, 0)
        == [Inst(Push, 0, 0), Inst(Load, 0, 0), Inst(TailCall, 0, 0), Inst(Add, 0, 0)];
  }

  /** Code that calls `f` by a tail call in the middle of things makes the whole function return what f returns. */
  lemma TailCallEscapes(m: Machine, host: Host, s: State, t: State, v: Value, f: SVal, w: Value, r: SRes, fuel: nat)
    requires IsLoop(m, host) && fuel > 0 && Applies(m, host, [f], r, fuel - 1) && Rep(f, w)
    requires s.frames != [] && s.frames[|s.frames| - 1].top + 1 < |s.stack|
    requires s.stack[s.frames[|s.frames| - 1].top + 1] == w
    requires t == C.Push1(s, 1, v) && Steps(m, Running(s), 1) == Running(t) && |s.func.proto.insts| > 2
    requires s.func.proto.insts[1] == Inst(Load, 0, 0) && s.func.proto.insts[2] == Inst(TailCall, 0, 0)
    ensures Gives(m, s, r, fuel, ToBack(s))
  {
    var last, top := |s.frames| - 1, s.frames[|s.frames| - 1].top;
    C.OneStep(m, host, t, Running(PushN(t, 2, [w])));
    StepsAdd(m, Running(s), 1, 1);
    assert RepAll([f], [w]) && t.stack[..top] == s.stack[..top];
    TailTurn(m, host, t, 2, [f], [w], r, fuel, s.frames[last], s.frames[..last], s.stack[..top]);
    Prefixed(m, s, 2, PushN(t, 2, [w]), r, fuel, fuel, ToBack(t), ToBack(s));
  }

  lemma EscapingStart(m: Machine, host: Host, s: State, x: Out)
    requires IsLoop(m, host) && s.pc == 0 && C.Placed(s.func.proto.insts, 0, x.code) && Has(s.func.proto, x.lists)
    requires x.code == [Inst(Push, 0, 0), Inst(Load, 0, 0), Inst(TailCall, 0, 0), Inst(Add, 0, 0)]
    requires x.lists.consts == [NumConst(1.0)]
    ensures Steps(m, Running(s), 1) == Running(C.Push1(s, 1, Num(1.0))) && |s.func.proto.insts| > 2
    ensures s.func.proto.insts[1] == Inst(Load, 0, 0) && s.func.proto.insts[2] == Inst(TailCall, 0, 0)
  {
    assert s.func.proto.insts[0 + 0] == x.code[0] && s.func.proto.insts[0 + 1] == x.code[1];
    assert s.func.proto.insts[0 + 2] == x.code[2] && s.func.proto.consts[0] == NumConst(1.0);
    C.OneStep(m, host, s, Running(C.Push1(s, 1, Num(1.0))));
  }

  lemma EscapingRun(m: Machine, host: Host, s: State, f: SVal, x: Out, env: Env, fuel: nat)
    requires IsLoop(m, host) && env.args == [f] && fuel > 0 && Ready(s, 0, x, env)
    requires x.code == [Inst(Push, 0, 0), Inst(Load, 0, 0), Inst(TailCall, 0, 0), Inst(Add, 0, 0)]
    requires x.lists.consts == [NumConst(1.0)]
    ensures Gives(m, s, Apply(f, [], fuel - 1), fuel, ToBack(s))
  {
    EscapingStart(m, host, s, x);
    ApplyRuns(m, host, f, [], [f], fuel - 1);
    var w := s.stack[s.frames[|s.frames| - 1].top + 1 + 0];
    assert Rep(env.args[0], w);
    TailCallEscapes(m, host, s, C.Push1(s, 1, Num(1.0)), Num(1.0), f, w, Apply(f, [], fuel - 1), fuel);
  }

  /** A call at the end of a `do` is a tail call even where its value is still needed: with a parameter `f` that is
      a function without parameters, (+ 1 (do (f))) makes the whole function return what f returns. */
  lemma DoEscapes(host: Host, s: State, f: SVal, x: Out, env: Env, fuel: nat)
    requires env.labels == ["f"] && env.args == [f] && fuel > 0
    requires Gen(ONE_MORE, false, false, 0, NOTHING, IN_A_FUNCTION) == Some(x) && Ready(s, 0, x, env)
    ensures Gives(Loop(host), s, Apply(f, [], fuel - 1), fuel, ToBack(s))
    ensures Eval(ONE_MORE, env, fuel) == Combined("+", Val(Plain(Num(1.0))), Apply(f, [], fuel - 1))
  {
    EscapingCode();
    EscapingValue(env, f, fuel);
    EscapingRun(Loop(host), host, s, f, x, env, fuel);
  }

  lemma EscapingValue(env: Env, f: SVal, fuel: nat)
    requires env.labels == ["f"] && env.args == [f] && fuel > 0
    ensures Eval(ONE_MORE, env, fuel) == Combined("+", Val(Plain(Num(1.0))), Apply(f, [], fuel - 1))
  {
    var call, dof := CALL_F.items, ONE_MORE.items[2].items;
    assert env.labels[|env.labels| - 1] == "f";
    assert Eval(call[0], env, fuel) == Val(f);
    assert EvalEach(call[1..], env, fuel) == Vals([]);
    assert EvalEach(call, env, fuel) == Cons(Val(f), Vals([]));
    assert [f] + [] == [f] && [f][1..] == [];
    assert EvalCall(call, env, fuel) == Apply(f, [], fuel - 1);
    assert Eval(CALL_F, env, fuel) == Apply(f, [], fuel - 1);
    assert dof[1..] == [CALL_F];
    assert Eval(ONE_MORE.items[2], env, fuel) == EvalBody([CALL_F], env, fuel);
    EvalOperator("+", ONE_MORE.items, 1, env, fuel);
  }
}
