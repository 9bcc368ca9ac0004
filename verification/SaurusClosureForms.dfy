/** One form at a time: the code of a form gives what the evaluator says, if the code of its parts does. */
module SaurusClosureForms {
  import opened Options
  import opened SaurusGen
  import opened SaurusVm
  import opened SaurusStack
  import opened SaurusSafety
  import opened SaurusEvaluator
  import opened SaurusClosures
  import C = SaurusCorrect

  // ---------------------------------------------------------------- values

  lemma ConstRuns(m: Machine, host: Host, c: Const, lists: Lists, base: nat, env: Env, fuel: nat)
    requires IsLoop(m, host)
    ensures Runs(m, base, GenConst(c, lists), env, Val(Plain(CreateValue(c))), fuel)
  {
    var i := ConstIndex(lists.consts, c);
    ConstAdded(lists.consts, c);
    forall s: State | Ready(s, base, GenConst(c, lists), env)
      ensures Gives(m, s, Val(Plain(CreateValue(c))), fuel, ToPush(s, base + 1))
    {
      C.PlacedOne(s.func.proto.insts, base, Inst(Push, i, 0));
      C.OneStep(m, host, s, Running(C.Push1(s, base + 1, CreateValue(c))));
      GivesNow(m, s, Plain(CreateValue(c)), CreateValue(c), 1, fuel, ToPush(s, base + 1));
    }
  }

  /** Loading a slot of the frame. */
  lemma SlotRuns(m: Machine, host: Host, s: State, id: nat, env: Env, sv: SVal, fuel: nat)
    requires IsLoop(m, host) && HasEnv(s, env) && s.pc < |s.func.proto.insts|
    requires s.func.proto.insts[s.pc] == Inst(Load, id, 0)
    requires var at := s.frames[|s.frames| - 1].top + 1 + id; at < |s.stack| && Rep(sv, s.stack[at])
    ensures Gives(m, s, Val(sv), fuel, ToPush(s, s.pc + 1))
  {
    var v := s.stack[s.frames[|s.frames| - 1].top + 1 + id];
    C.OneStep(m, host, s, Running(C.Push1(s, s.pc + 1, v)));
    GivesNow(m, s, sv, v, 1, fuel, ToPush(s, s.pc + 1));
  }

  /** The function itself. */
  lemma SelfRuns(m: Machine, host: Host, base: nat, lists: Lists, env: Env, fuel: nat)
    requires IsLoop(m, host) && env.self.Some?
    ensures Runs(m, base, Out(One(Copy, 0), lists), env, Val(env.self.value), fuel)
  {
    forall s: State | Ready(s, base, Out(One(Copy, 0), lists), env)
      ensures Gives(m, s, Val(env.self.value), fuel, ToPush(s, base + 1))
    {
      C.PlacedOne(s.func.proto.insts, base, Inst(Copy, 0, 0));
      var v := s.stack[s.frames[|s.frames| - 1].top];
      C.OneStep(m, host, s, Running(C.Push1(s, base + 1, v)));
      GivesNow(m, s, env.self.value, v, 1, fuel, ToPush(s, base + 1));
    }
  }

  /** The labels of a function and of its creator. */
  ghost predicate Fit(scopes: seq<Scope>, env: Env) {
    scopes != [] && LabelsOf(scopes) + [[]] == [env.labels, env.outer] + FarLabels(env.far)
  }

  lemma FitLayers(scopes: seq<Scope>, env: Env)
    requires Fit(scopes, env)
    ensures scopes[0].labels == env.labels && env.outer == (if |scopes| > 1 then scopes[1].labels else [])
    ensures |scopes| == 1 ==> env.far == []
    ensures |scopes| > 1 ==> LabelsOf(scopes[2..]) + [[]] == FarLabels(env.far)
  {
    var all, chain := LabelsOf(scopes) + [[]], [env.labels, env.outer] + FarLabels(env.far);
    assert all[0] == chain[0] && all[1] == chain[1] && |all| == |chain|;
    if |scopes| > 1 {
      assert all[2..] == LabelsOf(scopes[2..]) + [[]] && chain[2..] == FarLabels(env.far);
    }
  }

  /** A closure's body is generated where its creator's variables are one step out. */
  lemma FitInner(scopes: seq<Scope>, params: seq<string>, labels: seq<string>, far: seq<Layer>, env: Env)
    requires scopes != [] && LabelsOf(scopes) + [[]] == [labels] + FarLabels(far)
    requires env.labels == params && env.outer == labels && env.far == far
    ensures Fit([Scope(params, false)] + scopes, env)
  {
    assert LabelsOf([Scope(params, false)] + scopes) == [params] + LabelsOf(scopes);
    assert [env.labels, env.outer] + FarLabels(env.far) == [params] + ([labels] + FarLabels(far));
  }

  /** A name further out has a capture further out. */
  lemma {:induction false} FarUp(scopes: seq<Scope>, far: seq<Layer>, name: string, lv: nat)
    requires LabelsOf(scopes) + [[]] == FarLabels(far) && LookupFar(far, name).Some?
    ensures FindUp(scopes, name, lv).Some?
  {
    var all := LabelsOf(scopes) + [[]];
    assert all[0] == FarLabels(far)[0] == far[0].labels;
    if scopes != [] {
      assert all[1..] == LabelsOf(scopes[1..]) + [[]] && FarLabels(far)[1..] == FarLabels(far[1..]);
      if FindLabel(far[0].labels, name).None? { FarUp(scopes[1..], far[1..], name, lv + 1); }
    }
  }

  /** A variable from further out than the creator is captured by a number above 1. */
  lemma FarCaptured(name: string, lists: Lists, scopes: seq<Scope>, env: Env)
    requires Fit(scopes, env) && FindLabel(env.labels, name).None? && FindLabel(env.outer, name).None?
    requires Lookup(env, name).Some?
    ensures var ups := GenFetch(name, lists, scopes).lists.ups;
            |ups| == |lists.ups| + 1 && ups[|lists.ups|].lv >= 2
  {
    FitLayers(scopes, env);
    FarUp(scopes[2..], env.far, name, 2);
    FindUpOk(scopes[2..], name, 2);
    var up := FindUp(scopes[2..], name, 2).value;
    assert scopes[1..][1..] == scopes[2..] && scopes[1..][0] == scopes[1];
    assert FindUp(scopes, name, 0) == FindUp(scopes[1..], name, 1) == Some(up);
  }

  /** A function with local captures only uses no variable from further out. */
  lemma NotFar(p: Proto, name: string, lists: Lists, scopes: seq<Scope>, env: Env)
    requires Fit(scopes, env) && FindLabel(env.labels, name).None? && Lookup(env, name).Some? && LocalCaptures(p)
    requires Has(p, GenFetch(name, lists, scopes).lists)
    ensures |scopes| > 1 && FindLabel(env.outer, name).Some?
  {
    FitLayers(scopes, env);
    if FindLabel(env.outer, name).None? { FarCaptured(name, lists, scopes, env); }
  }

  lemma FetchRuns(m: Machine, host: Host, name: string, lists: Lists, scopes: seq<Scope>, base: nat, env: Env,
                  fuel: nat)
    requires IsLoop(m, host) && Fit(scopes, env) && Lookup(env, name).Some?
    ensures Runs(m, base, GenFetch(name, lists, scopes), env, Val(Lookup(env, name).value), fuel)
  {
    var x := GenFetch(name, lists, scopes);
    var id := FindLabel(env.labels, name);
    FitLayers(scopes, env);
    forall s: State | Ready(s, base, x, env)
      ensures Gives(m, s, Val(Lookup(env, name).value), fuel, ToPush(s, base + |x.code|))
    {
      if id.Some? {
        C.PlacedOne(s.func.proto.insts, base, Inst(Load, id.value, 0));
        SlotRuns(m, host, s, id.value, env, env.args[id.value], fuel);
      } else {
        NotFar(s.func.proto, name, lists, scopes, env);
        CapturedAt(s, name, lists, scopes, env);
        var j := FindLabel(env.outer, name).value;
        C.PlacedOne(s.func.proto.insts, base, x.code[0]);
        SlotRuns(m, host, s, |env.labels| + |lists.ups|, env, env.oargs[j], fuel);
      }
    }
  }

  /** A variable of the creator is the last capture so far. */
  lemma CapturedAt(s: State, name: string, lists: Lists, scopes: seq<Scope>, env: Env)
    requires Fit(scopes, env) && FindLabel(env.labels, name).None? && Lookup(env, name).Some? && HasEnv(s, env)
    requires Has(s.func.proto, GenFetch(name, lists, scopes).lists)
    requires |scopes| > 1 && FindLabel(env.outer, name).Some?
    ensures var x, j, k := GenFetch(name, lists, scopes), FindLabel(env.outer, name), |lists.ups|;
            && x.code == One(Load, |env.labels| + k) && j.Some? && j.value < |env.oargs|
            && var at := s.frames[|s.frames| - 1].top + 1 + |env.labels| + k;
               at < |s.stack| && Rep(env.oargs[j.value], s.stack[at])
  {
    FitLayers(scopes, env);
    var j := FindLabel(env.outer, name).value;
    assert scopes[1..][0] == scopes[1] && FindUp(scopes, name, 0) == FindUp(scopes[1..], name, 1);
    assert FindUp(scopes, name, 0) == Some(Upvalue(1, j));
    assert GenFetch(name, lists, scopes).lists.ups == lists.ups + [Upvalue(1, j)];
    var ups := s.func.proto.ups;
    assert ups[|lists.ups|] == (lists.ups + [Upvalue(1, j)])[|lists.ups|];
  }

  // ---------------------------------------------------------------- operators

  lemma MinusRuns(m: Machine, host: Host, x: Out, base: nat, env: Env, r: SRes, fuel: nat)
    requires IsLoop(m, host) && Runs(m, base, x, env, r, fuel)
    ensures Runs(m, base, Out(x.code + One(Unm, 0), x.lists), env, Negated(r), fuel)
  {
    var end, out := base + |x.code|, Out(x.code + One(Unm, 0), x.lists);
    forall s: State | Ready(s, base, out, env) ensures Gives(m, s, Negated(r), fuel, ToPush(s, end + 1)) {
      C.PlacedParts(s.func.proto.insts, base, x.code, One(Unm, 0));
      C.PlacedOne(s.func.proto.insts, end, Inst(Unm, 0, 0));
      assert Ready(s, base, x, env);
      if r.Val? {
        forall v | Rep(r.v, v) ensures Gives(m, C.Push1(s, end, v), Negated(r), fuel, ToPush(s, end + 1)) {
          MinusTurn(m, host, s, end, r.v, v, fuel);
        }
      }
      Then(m, s, r, end, Negated(r), fuel, ToPush(s, end + 1));
    }
  }

  lemma MinusTurn(m: Machine, host: Host, s: State, end: nat, sv: SVal, v: Value, fuel: nat)
    requires IsLoop(m, host) && end < |s.func.proto.insts| && s.func.proto.insts[end] == Inst(Unm, 0, 0) && Rep(sv, v)
    ensures Gives(m, C.Push1(s, end, v), Negated(Val(sv)), fuel, ToPush(s, end + 1))
  {
    C.MinusStep(m, host, s, end, v);
    NumberRep(sv, v);
    if IsNumber(sv) {
      GivesNow(m, C.Push1(s, end, v), Plain(Num(-v.n)), Num(-v.n), 1, fuel, ToPush(s, end + 1));
    } else {
      assert RaisesAt(m, C.Push1(s, end, v), BadArgument(TypeOf(v)), 1);
    }
  }

  lemma NumberRep(sv: SVal, v: Value)
    requires Rep(sv, v)
    ensures IsNumber(sv) <==> v.Num?
    ensures IsNumber(sv) ==> sv.v == v
    ensures TypeOfS(sv) == TypeOf(v) && (TruthyS(sv) <==> Truthy(v))
  {
  }

  /** The instruction of an operator, with its two operands on the stack. */
  lemma OperatorTurn(m: Machine, host: Host, name: string, op: Op, s: State, a: SVal, x: Value, mid: nat,
                     b: SVal, y: Value, end: nat, fuel: nat)
    requires IsLoop(m, host) && C.IsOperator(name) && op == BinaryOp(name).value && Rep(a, x) && Rep(b, y)
    requires end < |s.func.proto.insts| && s.func.proto.insts[end] == Inst(op, 0, 0)
    ensures Gives(m, C.Push1(C.Push1(s, mid, x), end, y), Combined(name, Val(a), Val(b)), fuel, ToPush(s, end + 1))
  {
    var t := C.Push1(C.Push1(s, mid, x), end, y);
    C.OperatorStep(m, host, name, op, s, x, mid, y, end);
    NumberRep(a, x);
    NumberRep(b, y);
    var r := C.Combine(name, Ok(x), Ok(y));
    if r.Ok? {
      GivesNow(m, t, Plain(r.value), r.value, 1, fuel, ToPush(s, end + 1));
    } else {
      assert RaisesAt(m, t, r.error, 1);
    }
  }

  /** The parts of an operation, in their places. */
  lemma BinaryPlaced(s: State, base: nat, x: Out, y: Out, op: Op, mid: nat, end: nat, env: Env)
    requires Grows(x.lists, y.lists) && mid == base + |x.code| && end == mid + |y.code|
    requires Ready(s, base, Out(x.code + y.code + One(op, 0), y.lists), env)
    ensures Ready(s, base, x, env) && C.Placed(s.func.proto.insts, mid, y.code)
    ensures end < |s.func.proto.insts| && s.func.proto.insts[end] == Inst(op, 0, 0)
  {
    C.PlacedParts(s.func.proto.insts, base, x.code + y.code, One(op, 0));
    C.PlacedParts(s.func.proto.insts, base, x.code, y.code);
    C.PlacedOne(s.func.proto.insts, end, Inst(op, 0, 0));
  }

  lemma BinaryRuns(m: Machine, host: Host, name: string, op: Op, x: Out, y: Out, out: Out, base: nat, mid: nat,
                   end: nat, env: Env, first: SRes, second: SRes, fuel: nat)
    requires IsLoop(m, host) && C.IsOperator(name) && op == BinaryOp(name).value && Grows(x.lists, y.lists)
    requires out == Out(x.code + y.code + One(op, 0), y.lists) && mid == base + |x.code| && end == mid + |y.code|
    requires Runs(m, base, x, env, first, fuel) && Runs(m, mid, y, env, second, fuel)
    ensures Runs(m, base, out, env, Combined(name, first, second), fuel)
  {
    assert base + |out.code| == end + 1;
    forall s: State | Ready(s, base, out, env)
      ensures Gives(m, s, Combined(name, first, second), fuel, ToPush(s, end + 1))
    {
      BinaryFrom(m, host, name, op, x, y, out, s, base, mid, end, env, first, second, fuel);
    }
  }

  /** From the start of the first operand. */
  lemma BinaryFrom(m: Machine, host: Host, name: string, op: Op, x: Out, y: Out, out: Out, s: State, base: nat,
                   mid: nat, end: nat, env: Env, first: SRes, second: SRes, fuel: nat)
    requires IsLoop(m, host) && C.IsOperator(name) && op == BinaryOp(name).value && Grows(x.lists, y.lists)
    requires Ready(s, base, out, env)
    requires out == Out(x.code + y.code + One(op, 0), y.lists) && mid == base + |x.code| && end == mid + |y.code|
    requires Runs(m, base, x, env, first, fuel) && Runs(m, mid, y, env, second, fuel)
    ensures Gives(m, s, Combined(name, first, second), fuel, ToPush(s, end + 1))
  {
    var r := Combined(name, first, second);
    BinaryPlaced(s, base, x, y, op, mid, end, env);
    if first.Val? {
      forall v | Rep(first.v, v) ensures Gives(m, C.Push1(s, mid, v), r, fuel, ToPush(s, end + 1)) {
        BinaryAt(m, host, name, op, y, s, mid, end, env, first.v, v, second, fuel);
      }
    }
    Then(m, s, first, mid, r, fuel, ToPush(s, end + 1));
  }

  /** With the first operand on the stack. */
  lemma BinaryAt(m: Machine, host: Host, name: string, op: Op, y: Out, s: State, mid: nat, end: nat, env: Env,
                 a: SVal, x: Value, second: SRes, fuel: nat)
    requires IsLoop(m, host) && C.IsOperator(name) && op == BinaryOp(name).value && Rep(a, x)
    requires Runs(m, mid, y, env, second, fuel) && end == mid + |y.code|
    requires HasEnv(s, env) && Has(s.func.proto, y.lists) && C.Placed(s.func.proto.insts, mid, y.code)
    requires end < |s.func.proto.insts| && s.func.proto.insts[end] == Inst(op, 0, 0)
    ensures Gives(m, C.Push1(s, mid, x), Combined(name, Val(a), second), fuel, ToPush(s, end + 1))
  {
    var t := C.Push1(s, mid, x);
    EnvKept(s, t, env);
    assert Ready(t, mid, y, env);
    if second.Val? {
      forall v | Rep(second.v, v)
        ensures Gives(m, C.Push1(t, end, v), Combined(name, Val(a), second), fuel, ToPush(s, end + 1))
      {
        OperatorTurn(m, host, name, op, s, a, x, mid, second.v, v, end, fuel);
      }
    }
    Then(m, t, second, end, Combined(name, Val(a), second), fuel, ToPush(s, end + 1));
  }

  // ---------------------------------------------------------------- sequences

  /** A value is dropped and the rest begins. */
  lemma DropAt(m: Machine, host: Host, s: State, at: nat, v: Value, last: SRes, fuel: nat, f: Value -> State,
               g: Value -> State)
    requires IsLoop(m, host) && at < |s.func.proto.insts| && s.func.proto.insts[at] == Inst(Pop, 1, 0)
    requires Gives(m, s.(pc := at + 1), last, fuel, f) && forall v :: f(v) == g(v)
    ensures Gives(m, C.Push1(s, at, v), last, fuel, g)
  {
    C.PopStep(m, host, s, at, v);
    Prefixed(m, C.Push1(s, at, v), 1, s.(pc := at + 1), last, fuel, fuel, f, g);
  }

  /** The parts of a body, in their places. */
  lemma BodyPlaced(s: State, base: nat, at: nat, x: Out, rest: Out, env: Env)
    requires Grows(x.lists, rest.lists) && at == base + |x.code|
    requires Ready(s, base, Out(x.code + One(Pop, 1) + rest.code, rest.lists), env)
    ensures Ready(s, base, x, env) && Ready(s.(pc := at + 1), at + 1, rest, env)
    ensures at < |s.func.proto.insts| && s.func.proto.insts[at] == Inst(Pop, 1, 0)
  {
    C.PlacedParts(s.func.proto.insts, base, x.code + One(Pop, 1), rest.code);
    C.PlacedParts(s.func.proto.insts, base, x.code, One(Pop, 1));
    C.PlacedOne(s.func.proto.insts, at, Inst(Pop, 1, 0));
    EnvKept(s, s.(pc := at + 1), env);
  }

  /** From the first value, through its being dropped, to the value of the rest. */
  lemma SequenceGives(m: Machine, host: Host, s: State, at: nat, first: SRes, last: SRes, fuel: nat,
                      f: Value -> State, g: Value -> State)
    requires IsLoop(m, host) && at < |s.func.proto.insts| && s.func.proto.insts[at] == Inst(Pop, 1, 0)
    requires Gives(m, s, first, fuel, ToPush(s, at)) && Gives(m, s.(pc := at + 1), last, fuel, f)
    requires forall v :: f(v) == g(v)
    ensures Gives(m, s, Sequenced(first, last), fuel, g)
  {
    if first.Val? {
      forall v | Rep(first.v, v) ensures Gives(m, C.Push1(s, at, v), last, fuel, g) {
        DropAt(m, host, s, at, v, last, fuel, f, g);
      }
    }
    Then(m, s, first, at, Sequenced(first, last), fuel, g);
  }

  lemma BodyRuns(m: Machine, host: Host, x: Out, rest: Out, base: nat, env: Env, first: SRes, last: SRes, fuel: nat)
    requires IsLoop(m, host) && Grows(x.lists, rest.lists)
    requires Runs(m, base, x, env, first, fuel) && Runs(m, base + |x.code| + 1, rest, env, last, fuel)
    ensures Runs(m, base, Out(x.code + One(Pop, 1) + rest.code, rest.lists), env, Sequenced(first, last), fuel)
  {
    var out := Out(x.code + One(Pop, 1) + rest.code, rest.lists);
    var at, end := base + |x.code|, base + |out.code|;
    forall s: State | Ready(s, base, out, env) ensures Gives(m, s, Sequenced(first, last), fuel, ToPush(s, end)) {
      BodyPlaced(s, base, at, x, rest, env);
      SequenceGives(m, host, s, at, first, last, fuel, ToPush(s.(pc := at + 1), end), ToPush(s, end));
    }
  }

  lemma BodyFinishes(m: Machine, host: Host, x: Out, rest: Out, base: nat, env: Env, first: SRes, last: SRes, fuel: nat)
    requires IsLoop(m, host) && Grows(x.lists, rest.lists)
    requires Runs(m, base, x, env, first, fuel) && Finishes(m, base + |x.code| + 1, rest, env, last, fuel)
    ensures Finishes(m, base, Out(x.code + One(Pop, 1) + rest.code, rest.lists), env, Sequenced(first, last), fuel)
  {
    var out := Out(x.code + One(Pop, 1) + rest.code, rest.lists);
    var at := base + |x.code|;
    forall s: State | Ready(s, base, out, env) && Leads(s.func.proto.insts, base + |out.code|)
      ensures Gives(m, s, Sequenced(first, last), fuel, ToBack(s))
    {
      BodyPlaced(s, base, at, x, rest, env);
      SequenceGives(m, host, s, at, first, last, fuel, ToBack(s.(pc := at + 1)), ToBack(s));
    }
  }

  // ---------------------------------------------------------------- conditionals

  /** The test takes the condition and goes on in one of the branches. */
  lemma TestAt(m: Machine, host: Host, s: State, test: nat, sv: SVal, v: Value, toThen: nat, r: SRes, fuel: nat,
               f: Value -> State, g: Value -> State)
    requires IsLoop(m, host) && test < |s.func.proto.insts| && s.func.proto.insts[test] == Inst(Test, toThen, 0)
    requires Rep(sv, v)
    requires Gives(m, s.(pc := if TruthyS(sv) then toThen else test + 1), r, fuel, f) && forall v :: f(v) == g(v)
    ensures Gives(m, C.Push1(s, test, v), r, fuel, g)
  {
    NumberRep(sv, v);
    C.TestStep(m, host, s, test, v, toThen);
    Prefixed(m, C.Push1(s, test, v), 1, s.(pc := if TruthyS(sv) then toThen else test + 1), r, fuel, fuel, f, g);
  }

  /** The parts of a conditional, in their places. */
  lemma BranchesReady(s: State, base: nat, c: Out, f: Out, t: Out, toThen: nat, env: Env)
    requires toThen == base + |c.code| + |f.code| + 2 && Grows(c.lists, f.lists) && Grows(f.lists, t.lists)
    requires Ready(s, base, Branches(c, f, t, toThen), env)
    ensures Ready(s, base, c, env) && Ready(s.(pc := toThen), toThen, t, env)
    ensures Ready(s.(pc := base + |c.code| + 1), base + |c.code| + 1, f, env)
    ensures toThen <= |s.func.proto.insts| && base + |c.code| < |s.func.proto.insts|
    ensures s.func.proto.insts[base + |c.code|] == Inst(Test, toThen, 0)
    ensures s.func.proto.insts[toThen - 1] == Inst(Jmp, toThen + |t.code|, 0)
  {
    C.BranchesPlaced(s.func.proto.insts, base, c, f, t, toThen);
    EnvKept(s, s.(pc := toThen), env);
    EnvKept(s, s.(pc := base + |c.code| + 1), env);
  }

  /** The `else` branch runs into the jump over the `then` branch. */
  lemma ElseGives(m: Machine, host: Host, u: State, r: SRes, at: nat, end: nat, fuel: nat)
    requires IsLoop(m, host) && Gives(m, u, r, fuel, ToPush(u, at))
    requires at < |u.func.proto.insts| && u.func.proto.insts[at] == Inst(Jmp, end, 0)
    ensures Gives(m, u, r, fuel, ToPush(u, end))
  {
    if r.Val? {
      forall v | Rep(r.v, v) ensures Gives(m, C.Push1(u, at, v), r, fuel, ToPush(u, end)) {
        JumpStep(m, host, C.Push1(u, at, v));
        GivesNow(m, C.Push1(u, at, v), r.v, v, 1, fuel, ToPush(u, end));
      }
    }
    Then(m, u, r, at, r, fuel, ToPush(u, end));
  }

  lemma BranchRuns(m: Machine, host: Host, c: Out, f: Out, t: Out, base: nat, toThen: nat, env: Env,
                   rc: SRes, rt: SRes, rf: SRes, fuel: nat)
    requires IsLoop(m, host) && Grows(c.lists, f.lists) && Grows(f.lists, t.lists)
    requires toThen == base + |c.code| + |f.code| + 2
    requires Runs(m, base, c, env, rc, fuel) && Runs(m, base + |c.code| + 1, f, env, rf, fuel)
    requires Runs(m, toThen, t, env, rt, fuel)
    ensures Runs(m, base, Branches(c, f, t, toThen), env, Chosen(rc, rt, rf), fuel)
  {
    var out := Branches(c, f, t, toThen);
    forall s: State | Ready(s, base, out, env)
      ensures Gives(m, s, Chosen(rc, rt, rf), fuel, ToPush(s, base + |out.code|))
    {
      BranchesReady(s, base, c, f, t, toThen, env);
      ChoiceRuns(m, host, s, base + |c.code|, toThen, toThen + |t.code|, rc, rt, rf, fuel);
    }
  }

  /** From the condition to the end of the form, through one of the branches. */
  lemma ChoiceRuns(m: Machine, host: Host, s: State, test: nat, toThen: nat, end: nat, rc: SRes, rt: SRes, rf: SRes,
                   fuel: nat)
    requires IsLoop(m, host) && test < toThen <= |s.func.proto.insts|
    requires s.func.proto.insts[test] == Inst(Test, toThen, 0) && s.func.proto.insts[toThen - 1] == Inst(Jmp, end, 0)
    requires Gives(m, s, rc, fuel, ToPush(s, test))
    requires Gives(m, s.(pc := toThen), rt, fuel, ToPush(s.(pc := toThen), end))
    requires Gives(m, s.(pc := test + 1), rf, fuel, ToPush(s.(pc := test + 1), toThen - 1))
    ensures Gives(m, s, Chosen(rc, rt, rf), fuel, ToPush(s, end))
  {
    var r := Chosen(rc, rt, rf);
    if rc.Val? {
      var u := s.(pc := if TruthyS(rc.v) then toThen else test + 1);
      if !TruthyS(rc.v) { ElseGives(m, host, u, rf, toThen - 1, end, fuel); }
      forall v | Rep(rc.v, v) ensures Gives(m, C.Push1(s, test, v), r, fuel, ToPush(s, end)) {
        TestAt(m, host, s, test, rc.v, v, toThen, r, fuel, ToPush(u, end), ToPush(s, end));
      }
    }
    Then(m, s, rc, test, r, fuel, ToPush(s, end));
  }

  lemma BranchFinishes(m: Machine, host: Host, c: Out, f: Out, t: Out, base: nat, toThen: nat, env: Env,
                       rc: SRes, rt: SRes, rf: SRes, fuel: nat)
    requires IsLoop(m, host) && Grows(c.lists, f.lists) && Grows(f.lists, t.lists)
    requires toThen == base + |c.code| + |f.code| + 2
    requires Runs(m, base, c, env, rc, fuel) && Finishes(m, base + |c.code| + 1, f, env, rf, fuel)
    requires Finishes(m, toThen, t, env, rt, fuel)
    ensures Finishes(m, base, Branches(c, f, t, toThen), env, Chosen(rc, rt, rf), fuel)
  {
    var out := Branches(c, f, t, toThen);
    forall s: State | Ready(s, base, out, env) && Leads(s.func.proto.insts, base + |out.code|)
      ensures Gives(m, s, Chosen(rc, rt, rf), fuel, ToBack(s))
    {
      BranchFinishesFrom(m, host, s, c, f, t, base, toThen, toThen + |t.code|, env, rc, rt, rf, fuel);
    }
  }

  lemma BranchFinishesFrom(m: Machine, host: Host, s: State, c: Out, f: Out, t: Out, base: nat, toThen: nat, end: nat,
                           env: Env, rc: SRes, rt: SRes, rf: SRes, fuel: nat)
    requires IsLoop(m, host) && Grows(c.lists, f.lists) && Grows(f.lists, t.lists)
    requires toThen == base + |c.code| + |f.code| + 2 && end == toThen + |t.code|
    requires Runs(m, base, c, env, rc, fuel) && Finishes(m, base + |c.code| + 1, f, env, rf, fuel)
    requires Finishes(m, toThen, t, env, rt, fuel)
    requires Ready(s, base, Branches(c, f, t, toThen), env) && Leads(s.func.proto.insts, end)
    ensures Gives(m, s, Chosen(rc, rt, rf), fuel, ToBack(s))
  {
    BranchesReady(s, base, c, f, t, toThen, env);
    JumpLeads(s.func.proto.insts, toThen - 1, end);
    ChoiceFinishes(m, host, s, base + |c.code|, toThen, rc, rt, rf, fuel);
  }

  lemma JumpLeads(insts: seq<Inst>, at: nat, end: nat)
    requires at < |insts| && insts[at] == Inst(Jmp, end, 0) && at < end && Leads(insts, end)
    ensures Leads(insts, at)
  {
  }

  /** From the condition to the end of the function, through one of the branches. */
  lemma ChoiceFinishes(m: Machine, host: Host, s: State, test: nat, toThen: nat, rc: SRes, rt: SRes, rf: SRes,
                       fuel: nat)
    requires IsLoop(m, host) && test < |s.func.proto.insts| && s.func.proto.insts[test] == Inst(Test, toThen, 0)
    requires Gives(m, s, rc, fuel, ToPush(s, test)) && s.frames != []
    requires Gives(m, s.(pc := toThen), rt, fuel, ToBack(s.(pc := toThen)))
    requires Gives(m, s.(pc := test + 1), rf, fuel, ToBack(s.(pc := test + 1)))
    ensures Gives(m, s, Chosen(rc, rt, rf), fuel, ToBack(s))
  {
    var r := Chosen(rc, rt, rf);
    if rc.Val? {
      var u := s.(pc := if TruthyS(rc.v) then toThen else test + 1);
      forall v | Rep(rc.v, v) ensures Gives(m, C.Push1(s, test, v), r, fuel, ToBack(s)) {
        TestAt(m, host, s, test, rc.v, v, toThen, r, fuel, ToBack(u), ToBack(s));
      }
    }
    Then(m, s, rc, test, r, fuel, ToBack(s));
  }
}
