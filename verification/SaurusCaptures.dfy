/** Variables from further out than a function's creator: which programs use them, and what becomes of them
    (src/vm/core.c, lambda). */
module SaurusCaptures {
  import opened Options
  import opened SaurusGen
  import opened SaurusVm
  import opened SaurusSafety
  import opened SaurusEvaluator
  import opened SaurusScope
  import opened SaurusClosures
  import opened SaurusPrograms
  import C = SaurusCorrect

  /** In a program whose names are all bound, at any depth, every function captures from its creator's frame only if
      and only if no name is used from further out than its function's creator. */
  lemma CapturesIff(e: Sexp)
    requires Covered(e, TopView(false))
    ensures GenTop(e).Some? && (LocalCaptures(GenTop(e).value) <==> Covered(e, TopView(true)))
  {
    ProgramCompiles(e, false);
  }

  // ---------------------------------------------------------------- what is captured

  /** A capture of lv k reads the frame that lies k down, whoever's it is. */
  lemma {:induction false} CaptureSlots(s: State, ups: seq<Upvalue>)
    requires Capture(s, ups).Some?
    ensures |Capture(s, ups).value| == |ups|
    ensures forall k | 0 <= k < |ups| ::
              && 1 <= ups[k].lv <= |s.frames|
              && s.frames[|s.frames| - ups[k].lv].top + ups[k].idx + 1 < |s.stack|
              && Capture(s, ups).value[k] == s.stack[s.frames[|s.frames| - ups[k].lv].top + ups[k].idx + 1]
  {
    if ups != [] {
      CaptureSlots(s, ups[1..]);
      assert forall k | 1 <= k < |ups| :: ups[k] == ups[1..][k - 1];
    }
  }

  // ---------------------------------------------------------------- when a capture is right

  ghost predicate FrameHolds(s: State, k: nat, args: seq<SVal>)
    requires k < |s.frames|
  {
    s.frames[k].top + |args| < |s.stack| && forall i | 0 <= i < |args| :: Rep(args[i], s.stack[s.frames[k].top + 1 + i])
  }

  /** The frames from `lv` down are those of these functions, innermost first. */
  ghost predicate Ancestors(s: State, layers: seq<Layer>, lv: nat)
    decreases |layers|
  {
    layers == []
    || (1 <= lv <= |s.frames| && FrameHolds(s, |s.frames| - lv, layers[0].args) && Ancestors(s, layers[1..], lv + 1))
  }

  /** If the frames below are those of the functions around the closure's text, from the creator outwards, a
      variable of any of them is captured with the value that scoping gives it. */
  lemma {:induction false} CaptureIsLexical(s: State, scopes: seq<Scope>, layers: seq<Layer>, name: string, lv: nat)
    requires LabelsOf(scopes) == FarLabels(layers)
    requires forall k | 0 <= k < |layers| :: |layers[k].labels| == |layers[k].args|
    requires Ancestors(s, layers, lv) && FindUp(scopes, name, lv).Some?
    ensures LookupFar(layers, name).Some? && Capture(s, [FindUp(scopes, name, lv).value]).Some?
    ensures Rep(LookupFar(layers, name).value, Capture(s, [FindUp(scopes, name, lv).value]).value[0])
    decreases |scopes|
  {
    assert scopes[0].labels == LabelsOf(scopes)[0] == FarLabels(layers)[0] == layers[0].labels;
    if FindLabel(scopes[0].labels, name).None? {
      assert LabelsOf(scopes[1..]) == LabelsOf(scopes)[1..] == FarLabels(layers)[1..] == FarLabels(layers[1..]);
      CaptureIsLexical(s, scopes[1..], layers[1..], name, lv + 1);
    } else {
      var up := FindUp(scopes, name, lv).value;
      assert [up][1..] == [] && Capture(s, []) == Some([]);
    }
  }

  // ---------------------------------------------------------------- nested lets

  /** (let (name n) body) */
  function Let(name: string, n: real, body: Sexp): Sexp {
    List([Symbol("let"), List([Symbol(name), Number(n)]), body])
  }

  /** (- e) */
  function Minus(e: Sexp): Sexp {
    List([Symbol("-"), e])
  }

  function Body(b: Out): Proto {
    Proto(b.code + One(Return, 0), b.lists.consts, b.lists.ups, b.lists.prots)
  }

  function LetCode(n: real, op: Op, b: Out): Out {
    Out([Inst(Lambda, 0, 1), Inst(Push, 0, 0), Inst(op, 1, 0)], Lists([NumConst(n)], [], [Body(b)]))
  }

  function MinusCode(b: Out): Out {
    Out(b.code + One(Unm, 0), b.lists)
  }

  lemma LetGen(name: string, n: real, body: Sexp, tail: bool, scopes: seq<Scope>, op: Op, b: Out)
    requires scopes != [] && op == CallOrTail(tail, scopes, 1)[0].op
    requires Gen(body, true, false, 0, NOTHING, [Scope([name], false)] + scopes) == Some(b)
    ensures Gen(Let(name, n, body), tail, false, 0, NOTHING, scopes) == Some(LetCode(n, op, b))
  {
    var items := Let(name, n, body).items;
    var args := items[1].items;
    var p := Body(b);
    assert items[2..] == [body] && args[2..] == [];
    assert Keys([]) == Some([]) && [name] + [] == [name];
    assert Keys(args) == Some([name]);
    assert NOTHING.prots + [p] == [p];
    var f := Out([Inst(Lambda, 0, 1)], NOTHING.(prots := [p]));
    assert GenBody([body], 0, NOTHING, [Scope([name], false)] + scopes) == Some(b);
    assert GenClosure([name], 1, [body], NOTHING, scopes) == Some(f);
    assert [] + [NumConst(n)] == [NumConst(n)];
    var value := Out([Inst(Push, 0, 0)], f.lists.(consts := [NumConst(n)]));
    assert Gen(args[1], false, false, 1, f.lists, scopes) == Some(value);
    assert GenValues([], 2, value.lists, scopes) == Some(Out([], value.lists));
    assert value.code + [] == value.code;
    assert GenValues(args, 1, f.lists, scopes) == Some(value);
    assert f.code + value.code + One(op, 1) == LetCode(n, op, b).code;
    assert GenLet(items, tail, 0, NOTHING, scopes) == Some(LetCode(n, op, b));
    assert GenForm("let", items, tail, 0, NOTHING, scopes) == GenLet(items, tail, 0, NOTHING, scopes);
  }

  /** The body of a let sees its variable, those of the function around, and those further out. */
  function LetEnv(name: string, n: real, body: Sexp, env: Env): Env {
    Env([name], [Plain(Num(n))], env.labels, env.args, Beyond(env),
        Some(Clo([name], false, [body], env.labels, env.args, Beyond(env))))
  }

  lemma LetEval(name: string, n: real, body: Sexp, env: Env, fuel: nat)
    requires fuel > 0
    ensures Eval(Let(name, n, body), env, fuel) == Eval(body, LetEnv(name, n, body, env), fuel - 1)
  {
    var items := Let(name, n, body).items;
    var args := items[1].items;
    assert items[2..] == [body] && args[2..] == [];
    assert Keys([]) == Some([]) && [name] + [] == [name];
    assert Keys(args) == Some([name]);
    assert EvalValues([], env, fuel) == Vals([]) && [Plain(Num(n))] + [] == [Plain(Num(n))];
    assert EvalValues(args, env, fuel) == Vals([Plain(Num(n))]);
    assert Eval(Let(name, n, body), env, fuel) == EvalLet(items, env, fuel);
    var clo := Clo([name], false, [body], env.labels, env.args, Beyond(env));
    assert EvalLet(items, env, fuel) == Apply(clo, [Plain(Num(n))], fuel - 1);
    assert Apply(clo, [Plain(Num(n))], fuel - 1) == EvalBody([body], LetEnv(name, n, body, env), fuel - 1);
  }

  lemma LetCovered(name: string, n: real, body: Sexp, view: View, place: Place)
    ensures Covered(Let(name, n, body), view) <==> Covered(body, Inner(view, [name]))
    ensures forall tail :: DoOk(Let(name, n, body), tail, place) <==> DoOk(body, true, Within(place))
  {
    var items := Let(name, n, body).items;
    var args := items[1].items;
    assert items[2..] == [body] && args[2..] == [] && args[1..] == [Number(n)] && [body][1..] == [];
    assert Keys([]) == Some([]) && [name] + [] == [name];
    assert Keys(args) == Some([name]);
    assert CoveredValues([], view) && CoveredValues(args, view) && CoveredEach([], Inner(view, [name]));
    assert CoveredEach([body], Inner(view, [name])) == Covered(body, Inner(view, [name]));
    assert CoveredForm("let", items, view) == Covered(body, Inner(view, [name]));
    assert [Number(n)][1..] == [] && DoEachOk([], place) && DoEachOk([Number(n)], place);
    assert DoEachOk(args, place);
    assert |[body]| == 1 && [body][0] == body;
    assert DoBodyOk([body], Within(place)) == DoOk(body, true, Within(place));
    assert forall tail :: DoFormOk("let", items, tail, place) == DoOk(body, true, Within(place));
  }

  lemma LetFits(n: real, op: Op, b: Out)
    requires Fits(Body(b))
    ensures Fits(Body(LetCode(n, op, b)))
  {
    var p := Body(LetCode(n, op, b));
    assert p.insts == [Inst(Lambda, 0, 1), Inst(Push, 0, 0), Inst(op, 1, 0), Inst(Return, 0, 0)];
  }

  /** The closure and its argument are made. */
  lemma LetTurns(m: Machine, host: Host, s: State, n: real, inner: Proto, ups: seq<Value>)
    requires IsLoop(m, host) && s.pc == 0 && |s.func.proto.insts| > 2
    requires s.func.proto.insts[0] == Inst(Lambda, 0, 1) && s.func.proto.insts[1] == Inst(Push, 0, 0)
    requires s.func.proto.consts == [NumConst(n)] && s.func.proto.prots == [inner]
    requires Capture(s, inner.ups) == Some(ups)
    ensures Steps(m, Running(s), 2)
         == Running(s.(pc := 2, stack := s.stack + [Fun(Function(1, inner, ups)), Num(n)]))
  {
    var v := Fun(Function(1, inner, ups));
    var t := C.Push1(s, 1, v);
    C.OneStep(m, host, s, Running(t));
    C.OneStep(m, host, t, Running(C.Push1(t, 2, Num(n))));
    StepsAdd(m, Running(s), 1, 1);
    assert s.stack + [v] + [Num(n)] == s.stack + [v, Num(n)];
  }

  /** Outside tail position the caller's frame stays. */
  lemma LetCalls(m: Machine, host: Host, s: State, below: seq<Value>, f: Function, v: Value)
    requires IsLoop(m, host) && s.pc == 2 && |s.func.proto.insts| > 2 && s.func.proto.insts[2] == Inst(Call, 1, 0)
    requires s.stack == below + [Fun(f), v] && f.narg == 1
    ensures Steps(m, Running(s), 1)
         == Running(State(0, f, below + [Fun(f), v] + f.upvalues, s.frames + [Frame(s.func, |below|, 3)], s.globals))
  {
    assert s.stack[|below|] == Fun(f) && s.stack[|below| + 1..] == [v];
    assert s.stack[..|below| + 1] == below + [Fun(f)] && below + [Fun(f)] + [v] == below + [Fun(f), v];
    C.OneStep(m, host, s, DoCall(host, s, 1, 3));
  }

  /** In tail position the callee takes the place of the caller. */
  lemma LetTailCalls(m: Machine, host: Host, s: State, below: seq<Value>, own: seq<Value>, f: Function, v: Value,
                     frame: Frame, rest: seq<Frame>)
    requires IsLoop(m, host) && s.pc == 2 && |s.func.proto.insts| > 2 && s.func.proto.insts[2] == Inst(TailCall, 1, 0)
    requires s.stack == below + own + [Fun(f), v] && f.narg == 1
    requires s.frames == rest + [frame] && frame.top == |below|
    ensures Steps(m, Running(s), 1)
         == Running(State(0, f, below + [Fun(f), v] + f.upvalues, s.frames, s.globals))
  {
    assert s.stack[..|below|] == below && s.stack[|s.stack| - 2..] == [Fun(f), v];
    TailCallIs(host, s, 1, rest, frame, below, [Fun(f), v]);
    var moved := State(s.pc, frame.func, below + [Fun(f), v], rest, s.globals);
    assert moved.stack[|below|] == Fun(f) && moved.stack[|below| + 1..] == [v];
    assert moved.stack[..|below| + 1] + [v] == moved.stack;
    C.OneStep(m, host, s, DoCall(host, moved, 1, frame.ret));
  }

  predicate IsLet(p: Proto, n: real, op: Op, b: Out) {
    && |p.insts| > 2 && p.insts[0] == Inst(Lambda, 0, 1) && p.insts[1] == Inst(Push, 0, 0)
    && p.insts[2] == Inst(op, 1, 0)
    && p.consts == [NumConst(n)] && p.prots == [Body(b)]
  }

  lemma LetEnters(m: Machine, host: Host, s: State, n: real, b: Out, ups: seq<Value>)
    requires IsLoop(m, host) && s.pc == 0 && IsLet(s.func.proto, n, Call, b) && Capture(s, b.lists.ups) == Some(ups)
    ensures var f := Function(1, Body(b), ups);
      Steps(m, Running(s), 3)
      == Running(State(0, f, s.stack + [Fun(f), Num(n)] + ups, s.frames + [Frame(s.func, |s.stack|, 3)], s.globals))
  {
    var f := Function(1, Body(b), ups);
    LetTurns(m, host, s, n, Body(b), ups);
    LetCalls(m, host, s.(pc := 2, stack := s.stack + [Fun(f), Num(n)]), s.stack, f, Num(n));
    StepsAdd(m, Running(s), 2, 1);
  }

  lemma LetReplaces(m: Machine, host: Host, s: State, n: real, b: Out, ups: seq<Value>, below: seq<Value>,
                    own: seq<Value>, frame: Frame, rest: seq<Frame>)
    requires IsLoop(m, host) && s.pc == 0 && IsLet(s.func.proto, n, TailCall, b) && Capture(s, b.lists.ups) == Some(ups)
    requires s.stack == below + own && s.frames == rest + [frame] && frame.top == |below|
    ensures var f := Function(1, Body(b), ups);
      Steps(m, Running(s), 3) == Running(State(0, f, below + [Fun(f), Num(n)] + ups, s.frames, s.globals))
  {
    var f := Function(1, Body(b), ups);
    LetTurns(m, host, s, n, Body(b), ups);
    LetTailCalls(m, host, s.(pc := 2, stack := s.stack + [Fun(f), Num(n)]), below, own, f, Num(n), frame, rest);
    StepsAdd(m, Running(s), 2, 1);
  }

  /** A value goes back to the caller, in the place of the callee and all above it. */
  lemma Returns(m: Machine, host: Host, s: State, below: seq<Value>, own: seq<Value>, v: Value, frame: Frame,
                rest: seq<Frame>)
    requires IsLoop(m, host) && s.pc < |s.func.proto.insts| && s.func.proto.insts[s.pc] == Inst(Return, 0, 0)
    requires s.stack == below + own + [v] && s.frames == rest + [frame] && frame.top == |below|
    ensures Steps(m, Running(s), 1) == Running(State(frame.ret, frame.func, below + [v], rest, s.globals))
  {
    assert s.stack[..|below|] == below && Top(s, 0) == v && s.frames[..|s.frames| - 1] == rest;
    C.OneStep(m, host, s, DoReturn(s));
  }

  /** (lambda (...) body), as a program is wrapped. */
  function Program(body: Sexp): Sexp {
    List([Symbol("lambda"), List([Symbol("...")]), body])
  }

  function ProgramProto(b: Out): Proto {
    TopProto(Out([Inst(Lambda, 0, 1)], NOTHING.(prots := [Body(b)])))
  }

  const WRAPPED := [Scope(["..."], false), Scope([], true)]

  lemma ProgramGen(body: Sexp, b: Out)
    requires Gen(body, true, false, 0, NOTHING, WRAPPED) == Some(b)
    ensures GenTop(Program(body)) == Some(ProgramProto(b))
  {
    var items, scopes := Program(body).items, [Scope([], true)];
    assert items[2..] == [body] && Names([]) == Some([]) && ["..."] + [] == ["..."];
    assert Names(items[1].items) == Some(["..."]);
    assert [Scope(["..."], false)] + scopes == WRAPPED;
    assert GenBody([body], 0, NOTHING, WRAPPED) == Some(b);
    assert NOTHING.prots + [Body(b)] == [Body(b)];
    assert GenLambda(items, 0, NOTHING, scopes)
        == Some(Out([Inst(Lambda, 0, 1)], NOTHING.(prots := [Body(b)])));
    assert GenForm("lambda", items, false, 0, NOTHING, scopes) == GenLambda(items, 0, NOTHING, scopes);
  }

  lemma ProgramCovered(body: Sexp, view: View, place: Place)
    ensures Covered(Program(body), view) <==> Covered(body, Inner(view, ["..."]))
    ensures DoOk(Program(body), false, place) <==> DoOk(body, true, Within(place))
  {
    var items := Program(body).items;
    assert items[2..] == [body] && Names([]) == Some([]) && ["..."] + [] == ["..."] && [body][1..] == [];
    assert Names(items[1].items) == Some(["..."]);
    assert CoveredEach([body], Inner(view, ["..."])) == Covered(body, Inner(view, ["..."]));
    assert CoveredForm("lambda", items, view) == CoveredEach([body], Inner(view, ["..."]));
    assert DoBodyOk([body], Within(place)) == DoOk(body, true, Within(place));
    assert DoFormOk("lambda", items, false, place) == DoOk(body, true, Within(place));
  }

  lemma ProgramFits(b: Out)
    requires Fits(Body(b))
    ensures Fits(ProgramProto(b)) && |ProgramProto(b).insts| == 4
  {
    var p := ProgramProto(b);
    assert p.insts == [Inst(Lambda, 0, 1), Inst(Load, 0, 0), Inst(Call, 1, 0), Inst(Return, 0, 0)];
  }

  function ProgramEnv(body: Sexp, arg: SVal): Env {
    Env(["..."], [arg], [], [], [Layer([], [])], Some(Clo(["..."], false, [body], [], [], [Layer([], [])])))
  }

  lemma ProgramEval(body: Sexp, arg: SVal, fuel: nat)
    requires fuel > 0
    ensures EvalProgram(Program(body), arg, fuel) == Eval(body, ProgramEnv(body, arg), fuel - 1)
  {
    var items := Program(body).items;
    assert items[2..] == [body] && Names([]) == Some([]) && ["..."] + [] == ["..."];
    assert Names(items[1].items) == Some(["..."]);
    var env := Env([], [], [], [], [], None);
    assert [Layer([], [])] + [] == [Layer([], [])];
    var f := Clo(["..."], false, [body], [], [], [Layer([], [])]);
    assert EvalForm("lambda", items, env, fuel) == Val(f);
    assert Eval(Program(body), env, fuel) == Val(f);
    assert Apply(f, [arg], fuel - 1) == EvalBody([body], ProgramEnv(body, arg), fuel - 1);
  }

  /** The machine in the body of a program. */
  function InProgram(b: Out, w: Value): State {
    var f0, f1 := Function(-1, ProgramProto(b), []), Function(1, Body(b), []);
    State(0, f1, [Fun(f0), w, Fun(f1), w], [Frame(f0, 0, 0xffff), Frame(f0, 2, 3)], map[])
  }

  lemma ProgramBegins(m: Machine, host: Host, b: Out, w: Value)
    requires IsLoop(m, host) && b.lists.ups == []
    ensures Steps(m, Running(Start(ProgramProto(b), w)), 3) == Running(InProgram(b, w))
  {
    var p := ProgramProto(b);
    var s, f1 := Start(p, w), Fun(Function(1, Body(b), []));
    assert p.insts == [Inst(Lambda, 0, 1), Inst(Load, 0, 0), Inst(Call, 1, 0), Inst(Return, 0, 0)];
    assert Capture(s, []) == Some([]);
    var t := C.Push1(s, 1, f1);
    C.OneStep(m, host, s, Running(t));
    var u := C.Push1(t, 2, w);
    C.OneStep(m, host, t, Running(u));
    assert u.stack == [s.stack[0], w] + [f1, w];
    LetCalls(m, host, u, [s.stack[0], w], f1.f, w);
    assert [s.stack[0], w] + [f1, w] + [] == [s.stack[0], w, f1, w];
    assert s.frames + [Frame(s.func, 2, 3)] == InProgram(b, w).frames;
    StepsAdd(m, Running(s), 1, 1);
    StepsAdd(m, Running(s), 2, 1);
  }

  /** The value of the body is the value of the program. */
  lemma ProgramReturns(m: Machine, host: Host, b: Out, w: Value, own: seq<Value>, v: Value)
    requires IsLoop(m, host) && Body(b).insts[|b.code|] == Inst(Return, 0, 0)
    ensures var s := InProgram(b, w);
      Steps(m, Running(s.(pc := |b.code|, stack := s.stack[..2] + own + [v])), 3) == End(ProgramProto(b), v)
  {
    var p, s := ProgramProto(b), InProgram(b, w);
    var t := s.(pc := |b.code|, stack := s.stack[..2] + own + [v]);
    assert p.insts == [Inst(Lambda, 0, 1), Inst(Load, 0, 0), Inst(Call, 1, 0), Inst(Return, 0, 0)];
    assert s.frames == [s.frames[0]] + [s.frames[1]];
    Returns(m, host, t, s.stack[..2], own, v, s.frames[1], [s.frames[0]]);
    ProgramEnds(m, host, p, w, 3, v);
    assert s.stack[..2] == Start(p, w).stack;
    StepsAdd(m, Running(t), 1, 2);
  }

  // ---------------------------------------------------------------- two functions further out, in tail position

  /** (let (x 1) (let (y 2) (let (z 3) x))) */
  const LETS := Let("x", 1.0, Let("y", 2.0, Let("z", 3.0, Symbol("x"))))

  /** The parameter x of the function two further out, after the parameter z. */
  const FETCH := Out([Inst(Load, 1, 0)], Lists([], [Upvalue(2, 0)], []))

  const LET_Z := LetCode(3.0, TailCall, FETCH)
  const LET_Y := LetCode(2.0, TailCall, LET_Z)
  const LET_X := LetCode(1.0, Call, LET_Y)

  /** The functions around the use of x, from inside. */
  function Around(n: nat): seq<Scope> {
    if n == 0 then WRAPPED
    else [Scope([if n == 1 then "x" else if n == 2 then "y" else "z"], false)] + Around(n - 1)
  }

  lemma FetchGen(tail: bool)
    ensures Gen(Symbol("x"), tail, false, 0, NOTHING, Around(3)) == Some(FETCH)
  {
    var scopes := Around(3);
    assert scopes[0].labels == ["z"] && scopes[1..] == Around(2) && Around(2)[0].labels == ["y"];
    assert Around(2)[1..] == Around(1) && Around(1)[0].labels == ["x"];
    assert ["z"][..0] == [] && ["y"][..0] == [];
    assert FindLabel(["z"], "x") == None && FindLabel(["y"], "x") == None && FindLabel(["x"], "x") == Some(0);
    assert FindUp(Around(1), "x", 2) == Some(Upvalue(2, 0));
    assert FindUp(Around(2), "x", 1) == Some(Upvalue(2, 0));
    assert FindUp(scopes, "x", 0) == Some(Upvalue(2, 0));
    assert [] + [Upvalue(2, 0)] == [Upvalue(2, 0)];
  }

  lemma LetsGen()
    ensures GenTop(Program(LETS)) == Some(ProgramProto(LET_X))
  {
    FetchGen(true);
    var z := Let("z", 3.0, Symbol("x"));
    LetGen("z", 3.0, Symbol("x"), true, Around(2), TailCall, FETCH);
    LetGen("y", 2.0, z, true, Around(1), TailCall, LET_Z);
    LetGen("x", 1.0, Let("y", 2.0, z), true, WRAPPED, Call, LET_Y);
    ProgramGen(LETS, LET_X);
  }

  lemma LetsEval(arg: SVal, fuel: nat)
    requires fuel > 3
    ensures EvalProgram(Program(LETS), arg, fuel) == Val(Plain(Num(1.0)))
  {
    var z := Let("z", 3.0, Symbol("x"));
    ProgramEval(LETS, arg, fuel);
    var e0 := ProgramEnv(LETS, arg);
    LetEval("x", 1.0, Let("y", 2.0, z), e0, fuel - 1);
    var e1 := LetEnv("x", 1.0, Let("y", 2.0, z), e0);
    LetEval("y", 2.0, z, e1, fuel - 2);
    var e2 := LetEnv("y", 2.0, z, e1);
    LetEval("z", 3.0, Symbol("x"), e2, fuel - 3);
    FetchEval(e1, z, Symbol("x"), fuel - 4);
  }

  lemma FetchEval(env: Env, y: Sexp, z: Sexp, fuel: nat)
    requires env.labels == ["x"] && env.args == [Plain(Num(1.0))]
    ensures Eval(Symbol("x"), LetEnv("z", 3.0, z, LetEnv("y", 2.0, y, env)), fuel) == Val(Plain(Num(1.0)))
  {
    var e2 := LetEnv("y", 2.0, y, env);
    var e3 := LetEnv("z", 3.0, z, e2);
    assert ["z"][..0] == [] && ["y"][..0] == [];
    assert FindLabel(e3.labels, "x") == None && FindLabel(e3.outer, "x") == None;
    assert e3.far[0] == Layer(["x"], [Plain(Num(1.0))]) && FindLabel(["x"], "x") == Some(0);
    assert Lookup(e3, "x") == LookupFar(e3.far, "x");
  }

  lemma LetsRun(m: Machine, host: Host, w: Value)
    requires IsLoop(m, host)
    ensures Steps(m, Running(Start(ProgramProto(LET_X), w)), 17) == End(ProgramProto(LET_X), w)
  {
    var s0, s := Start(ProgramProto(LET_X), w), InProgram(LET_X, w);
    ProgramBegins(m, host, LET_X, w);
    assert Capture(s, []) == Some([]);
    LetEnters(m, host, s, 1.0, LET_Y, []);
    var f2, f3, f4 := Function(1, Body(LET_Y), []), Function(1, Body(LET_Z), []), Function(1, Body(FETCH), [w]);
    var g := Frame(s.func, 4, 3);
    var t := State(0, f2, s.stack + [Fun(f2), Num(1.0)], s.frames + [g], map[]);
    assert s.stack + [Fun(f2), Num(1.0)] + [] == t.stack;
    LetReplaces(m, host, t, 2.0, LET_Z, [], s.stack, [Fun(f2), Num(1.0)], g, s.frames);
    var u := t.(func := f3, stack := s.stack + [Fun(f3), Num(2.0)]);
    assert s.stack + [Fun(f3), Num(2.0)] + [] == u.stack;
    assert [Upvalue(2, 0)][1..] == [] && Capture(u, []) == Some([]);
    assert u.frames[|u.frames| - 2] == Frame(Start(ProgramProto(LET_X), w).func, 2, 3) && u.stack[3] == w;
    assert [u.stack[3]] + [] == [w];
    assert Capture(u, [Upvalue(2, 0)]) == Some([w]);
    LetReplaces(m, host, u, 3.0, FETCH, [w], s.stack, [Fun(f3), Num(2.0)], g, s.frames);
    LetsEnd(m, host, w, s.stack + [Fun(f4), Num(3.0)] + [w]);
    StepsAdd(m, Running(s0), 3, 3);
    StepsAdd(m, Running(s0), 6, 3);
    StepsAdd(m, Running(s0), 9, 3);
    StepsAdd(m, Running(s0), 12, 5);
  }

  lemma LetsEnd(m: Machine, host: Host, w: Value, stack: seq<Value>)
    requires IsLoop(m, host)
    requires var f4 := Function(1, Body(FETCH), [w]); stack == InProgram(LET_X, w).stack + [Fun(f4), Num(3.0)] + [w]
    ensures var s := InProgram(LET_X, w);
      Steps(m, Running(State(0, Function(1, Body(FETCH), [w]), stack, s.frames + [Frame(s.func, 4, 3)], map[])), 5)
      == End(ProgramProto(LET_X), w)
  {
    var s, f4 := InProgram(LET_X, w), Function(1, Body(FETCH), [w]);
    var g := Frame(s.func, 4, 3);
    var t := State(0, f4, stack, s.frames + [g], map[]);
    var u := C.Push1(t, 1, w);
    C.OneStep(m, host, t, Running(u));
    Returns(m, host, u, s.stack, [Fun(f4), Num(3.0), w], w, g, s.frames);
    assert s.stack + [w] == s.stack[..2] + s.stack[2..] + [w];
    ProgramReturns(m, host, LET_X, w, s.stack[2..], w);
    StepsAdd(m, Running(t), 1, 1);
    StepsAdd(m, Running(t), 2, 3);
  }

  /** Every function knows x, but the innermost one takes it from further out than its creator. */
  lemma LetsCovered(near: bool)
    ensures Covered(Program(LETS), TopView(near)) <==> !near
    ensures DoOk(Program(LETS), false, TOP)
  {
    var y, z, x := Let("y", 2.0, Let("z", 3.0, Symbol("x"))), Let("z", 3.0, Symbol("x")), Symbol("x");
    var v0 := Inner(TopView(near), ["..."]);
    var v1 := Inner(v0, ["x"]);
    var v2 := Inner(v1, ["y"]);
    ProgramCovered(LETS, TopView(near), TOP);
    LetCovered("x", 1.0, y, v0, Within(TOP));
    LetCovered("y", 2.0, z, v1, Within(Within(TOP)));
    LetCovered("z", 3.0, x, v2, Within(Within(Within(TOP))));
    FetchCovered(v1, near);
  }

  lemma FetchCovered(v: View, near: bool)
    requires v.labels == ["x"] && v.near == near
    ensures Covered(Symbol("x"), Inner(Inner(v, ["y"]), ["z"])) <==> !near
  {
    var w := Inner(Inner(v, ["y"]), ["z"]);
    assert w.labels == ["z"] && w.outer == ["y"] && w.far[0] == ["x"];
    assert "x" in w.far[0] && "x" !in ["z"] && "x" !in ["y"];
  }

  lemma LetsFit()
    ensures Fits(ProgramProto(LET_X))
  {
    assert Body(FETCH).insts == [Inst(Load, 1, 0), Inst(Return, 0, 0)];
    LetFits(3.0, TailCall, FETCH);
    LetFits(2.0, TailCall, LET_Z);
    LetFits(1.0, Call, LET_Y);
    ProgramFits(LET_X);
  }

  /** The text meets every condition of `ProgramAgrees` but that names come from the function's creator at most, and
      the machine gives the program's own argument where scoping gives 1: the frame two down is the program's, as the
      functions of x and of y have given theirs up by tail calls. */
  lemma CaptureFromBelow(host: Host, arg: SVal, w: Value, fuel: nat)
    requires fuel > 3
    ensures var e := Program(LETS);
      && Covered(e, TopView(false)) && !Covered(e, TopView(true)) && DoOk(e, false, TOP)
      && EvalProgram(e, arg, fuel) == Val(Plain(Num(1.0)))
      && GenTop(e).Some? && Fits(GenTop(e).value)
      && Steps(Loop(host), Running(Start(Encode(GenTop(e).value), w)), 17) == End(GenTop(e).value, w)
  {
    LetsCovered(false);
    LetsCovered(true);
    LetsEval(arg, fuel);
    LetsGen();
    LetsFit();
    EncodeFits(ProgramProto(LET_X));
    LetsRun(Loop(host), host, w);
  }

  // ---------------------------------------------------------------- the same, outside tail position

  /** (let (x 1) (- (let (y 2) (- (let (z 3) x))))) */
  const NEGATED := Let("x", 1.0, Minus(Let("y", 2.0, Minus(Let("z", 3.0, Symbol("x"))))))

  const NEG_Z := LetCode(3.0, Call, FETCH)
  const NEG_Y := LetCode(2.0, Call, MinusCode(NEG_Z))
  const NEG_X := LetCode(1.0, Call, MinusCode(NEG_Y))

  lemma MinusIs(e: Sexp, tail: bool, scopes: seq<Scope>, b: Out, env: Env, fuel: nat)
    requires scopes != [] && Gen(e, false, false, 0, NOTHING, scopes) == Some(b)
    ensures Gen(Minus(e), tail, false, 0, NOTHING, scopes) == Some(MinusCode(b))
    ensures Eval(Minus(e), env, fuel) == Negated(Eval(e, env, fuel))
  {
    var items := Minus(e).items;
    assert GenForm("-", items, tail, 0, NOTHING, scopes) == Some(MinusCode(b));
    assert EvalForm("-", items, env, fuel) == Negated(Eval(items[1], env, fuel));
  }

  lemma NegatedGen(arg: SVal, fuel: nat)
    requires fuel > 3
    ensures GenTop(Program(NEGATED)) == Some(ProgramProto(NEG_X))
    ensures EvalProgram(Program(NEGATED), arg, fuel) == Val(Plain(Num(1.0)))
  {
    var x, z := Symbol("x"), Let("z", 3.0, Symbol("x"));
    var y := Let("y", 2.0, Minus(z));
    var e0 := ProgramEnv(NEGATED, arg);
    var e1 := LetEnv("x", 1.0, Minus(y), e0);
    var e2 := LetEnv("y", 2.0, Minus(z), e1);
    ProgramEval(NEGATED, arg, fuel);
    LetEval("x", 1.0, Minus(y), e0, fuel - 1);
    LetEval("y", 2.0, Minus(z), e1, fuel - 2);
    LetEval("z", 3.0, x, e2, fuel - 3);
    FetchEval(e1, Minus(z), x, fuel - 4);
    FetchGen(true);
    LetGen("z", 3.0, x, false, Around(2), Call, FETCH);
    MinusIs(z, true, Around(2), NEG_Z, e2, fuel - 3);
    LetGen("y", 2.0, Minus(z), false, Around(1), Call, MinusCode(NEG_Z));
    MinusIs(y, true, Around(1), NEG_Y, e1, fuel - 2);
    LetGen("x", 1.0, Minus(y), true, WRAPPED, Call, MinusCode(NEG_Y));
    ProgramGen(NEGATED, NEG_X);
  }

  lemma NegatesAndReturns(m: Machine, host: Host, s: State, below: seq<Value>, own: seq<Value>, x: real, frame: Frame,
                          rest: seq<Frame>)
    requires IsLoop(m, host) && s.pc + 1 < |s.func.proto.insts| && s.func.proto.insts[s.pc] == Inst(Unm, 0, 0)
    requires s.func.proto.insts[s.pc + 1] == Inst(Return, 0, 0)
    requires s.stack == below + own + [Num(x)] && s.frames == rest + [frame] && frame.top == |below|
    ensures Steps(m, Running(s), 2) == Running(State(frame.ret, frame.func, below + [Num(-x)], rest, s.globals))
  {
    var t := s.(pc := s.pc + 1, stack := below + own + [Num(-x)]);
    assert s.stack[..|s.stack| - 1] == below + own && Top(s, 0) == Num(x);
    C.OneStep(m, host, s, Running(t));
    Returns(m, host, t, below, own, Num(-x), frame, rest);
    StepsAdd(m, Running(s), 1, 1);
  }

  /** The frames of x, of y and of z, in place. */
  function InLets(w: Value, k: nat): State
    decreases k
  {
    if k == 0 then InProgram(NEG_X, w)
    else
      var s := InLets(w, k - 1);
      var b := if k == 1 then MinusCode(NEG_Y) else if k == 2 then MinusCode(NEG_Z) else FETCH;
      var ups := if k < 3 then [] else [Num(1.0)];
      var f := Function(1, Body(b), ups);
      State(0, f, s.stack + [Fun(f), Num(k as real)] + ups, s.frames + [Frame(s.func, |s.stack|, 3)], map[])
  }

  lemma NegatedEnters(m: Machine, host: Host, w: Value)
    requires IsLoop(m, host)
    ensures Steps(m, Running(Start(ProgramProto(NEG_X), w)), 12) == Running(InLets(w, 3))
  {
    var s0, s, t, u := Start(ProgramProto(NEG_X), w), InLets(w, 0), InLets(w, 1), InLets(w, 2);
    ProgramBegins(m, host, NEG_X, w);
    assert Capture(s, []) == Some([]) && Capture(t, []) == Some([]) && Capture(u, []) == Some([]);
    LetEnters(m, host, s, 1.0, MinusCode(NEG_Y), []);
    LetEnters(m, host, t, 2.0, MinusCode(NEG_Z), []);
    assert u.frames[|u.frames| - 2] == Frame(s.func, 4, 3) && u.stack[5] == Num(1.0);
    assert [Upvalue(2, 0)][1..] == [] && [u.stack[5]] + [] == [Num(1.0)];
    assert Capture(u, [Upvalue(2, 0)]) == Some([Num(1.0)]);
    LetEnters(m, host, u, 3.0, FETCH, [Num(1.0)]);
    StepsAdd(m, Running(s0), 3, 3);
    StepsAdd(m, Running(s0), 6, 3);
    StepsAdd(m, Running(s0), 9, 3);
  }

  lemma NegatedLeaves(m: Machine, host: Host, w: Value)
    requires IsLoop(m, host)
    ensures Steps(m, Running(InLets(w, 3)), 9) == End(ProgramProto(NEG_X), Num(1.0))
  {
    var s, t, u, v := InLets(w, 0), InLets(w, 1), InLets(w, 2), InLets(w, 3);
    var one := Num(1.0);
    C.OneStep(m, host, v, Running(C.Push1(v, 1, one)));
    Returns(m, host, C.Push1(v, 1, one), u.stack, [Fun(v.func), Num(3.0), one], one, Frame(u.func, 8, 3), u.frames);
    NegatesAndReturns(m, host, C.Push1(u, 3, one), t.stack, [Fun(u.func), Num(2.0)], 1.0, Frame(t.func, 6, 3),
                      t.frames);
    NegatesAndReturns(m, host, C.Push1(t, 3, Num(-1.0)), s.stack, [Fun(t.func), Num(1.0)], -1.0,
                      Frame(s.func, 4, 3), s.frames);
    assert s.stack + [one] == s.stack[..2] + s.stack[2..] + [one];
    ProgramReturns(m, host, NEG_X, w, s.stack[2..], one);
    StepsAdd(m, Running(v), 1, 1);
    StepsAdd(m, Running(v), 2, 2);
    StepsAdd(m, Running(v), 4, 2);
    StepsAdd(m, Running(v), 6, 3);
  }

  lemma NegatedRun(m: Machine, host: Host, w: Value)
    requires IsLoop(m, host)
    ensures Steps(m, Running(Start(ProgramProto(NEG_X), w)), 21) == End(ProgramProto(NEG_X), Num(1.0))
  {
    NegatedEnters(m, host, w);
    NegatedLeaves(m, host, w);
    StepsAdd(m, Running(Start(ProgramProto(NEG_X), w)), 12, 9);
  }

  /** With the lets outside tail position the same variable, taken from as far out, has the value of scoping. */
  lemma CaptureFromAncestor(host: Host, arg: SVal, w: Value, fuel: nat)
    requires fuel > 3
    ensures var e := Program(NEGATED);
      && GenTop(e).Some? && !LocalCaptures(GenTop(e).value)
      && EvalProgram(e, arg, fuel) == Val(Plain(Num(1.0)))
      && Steps(Loop(host), Running(Start(Encode(GenTop(e).value), w)), 21) == End(GenTop(e).value, Num(1.0))
  {
    NegatedGen(arg, fuel);
    NegatedFits();
    EncodeFits(ProgramProto(NEG_X));
    NegatedRun(Loop(host), host, w);
  }

  lemma NegatedFits()
    ensures Fits(ProgramProto(NEG_X)) && !LocalCaptures(ProgramProto(NEG_X))
  {
    assert Body(FETCH).insts == [Inst(Load, 1, 0), Inst(Return, 0, 0)];
    LetFits(3.0, Call, FETCH);
    MinusFits(NEG_Z);
    LetFits(2.0, Call, MinusCode(NEG_Z));
    MinusFits(NEG_Y);
    LetFits(1.0, Call, MinusCode(NEG_Y));
    ProgramFits(NEG_X);
    assert !LocalCaptures(Body(FETCH)) by { assert Body(FETCH).ups[0].lv == 2; }
    assert !LocalCaptures(Body(MinusCode(NEG_Z))) by { assert Body(MinusCode(NEG_Z)).prots[0] == Body(FETCH); }
    assert !LocalCaptures(Body(MinusCode(NEG_Y))) by {
      assert Body(MinusCode(NEG_Y)).prots[0] == Body(MinusCode(NEG_Z));
    }
    assert !LocalCaptures(Body(NEG_X)) by { assert Body(NEG_X).prots[0] == Body(MinusCode(NEG_Y)); }
    assert ProgramProto(NEG_X).prots[0] == Body(NEG_X);
  }

  lemma MinusFits(b: Out)
    requires Fits(Body(b))
    ensures Fits(Body(MinusCode(b)))
  {
    var p := Body(MinusCode(b));
    forall k | 0 <= k < |p.insts| ensures p.insts[k].a < 256 && -0x8000 <= p.insts[k].b < 0x8000 {
      if k < |b.code| { assert p.insts[k] == Body(b).insts[k]; }
    }
  }
}
