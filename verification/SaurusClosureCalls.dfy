/** Closures and calls: making a closure, computing the callee and its arguments, entering the callee, and
    coming back, by an ordinary call or by one that gives up the caller's frame (src/vm/core.c). */
module SaurusClosureCalls {
  import opened Options
  import opened SaurusGen
  import opened SaurusVm
  import opened SaurusStack
  import opened SaurusEvaluator
  import opened SaurusClosures
  import opened SaurusClosureForms
  import C = SaurusCorrect

  // ---------------------------------------------------------------- making a closure

  /** Captures from the running function are the values of its parameters. */
  lemma {:induction false} CaptureIs(s: State, ups: seq<Upvalue>, env: Env)
    requires HasEnv(s, env) && forall k | 0 <= k < |ups| :: ups[k].lv == 1 && ups[k].idx < |env.args|
    ensures Capture(s, ups).Some? && |Capture(s, ups).value| == |ups|
    ensures forall k | 0 <= k < |ups| :: Rep(env.args[ups[k].idx], Capture(s, ups).value[k])
  {
    if ups != [] {
      CaptureIs(s, ups[1..], env);
      var v := s.stack[s.frames[|s.frames| - 1].top + 1 + ups[0].idx];
      assert Rep(env.args[ups[0].idx], v);
      CaptureMore(ups, env, v, Capture(s, ups[1..]).value, Capture(s, ups).value);
    }
  }

  lemma CaptureMore(ups: seq<Upvalue>, env: Env, v: Value, rest: seq<Value>, all: seq<Value>)
    requires ups != [] && |rest| == |ups| - 1 && all == [v] + rest
    requires forall k | 0 <= k < |ups| :: ups[k].idx < |env.args|
    requires Rep(env.args[ups[0].idx], v)
    requires forall k | 0 <= k < |ups| - 1 :: Rep(env.args[ups[1..][k].idx], rest[k])
    ensures forall k | 0 <= k < |ups| :: Rep(env.args[ups[k].idx], all[k])
  {
    forall k | 0 <= k < |ups| ensures Rep(env.args[ups[k].idx], all[k]) {
      if k > 0 { assert ups[1..][k - 1] == ups[k] && Rep(env.args[ups[1..][k - 1].idx], rest[k - 1]); }
    }
  }

  /** The prototype that a function gets as its next one, and the closure over it. */
  lemma ClosureMade(m: Machine, host: Host, s: State, id: nat, params: seq<string>, rest: bool, body: seq<Sexp>,
                    env: Env, fuel: nat)
    requires IsLoop(m, host) && HasEnv(s, env) && id < |s.func.proto.prots| && s.pc < |s.func.proto.insts|
    requires s.func.proto.insts[s.pc] == Inst(Lambda, id, Arity(params, rest)) && (rest ==> |params| == 1)
    requires IsCode(s.func.proto.prots[id], params, body, env.labels, Beyond(env))
    requires CapturesOk(s.func.proto.prots[id].ups, |env.labels|)
    ensures Gives(m, s, Val(Clo(params, rest, body, env.labels, env.args, Beyond(env))), fuel, ToPush(s, s.pc + 1))
  {
    var p := s.func.proto.prots[id];
    CaptureIs(s, p.ups, env);
    var v := Fun(Function(Arity(params, rest), p, Capture(s, p.ups).value));
    assert Rep(Clo(params, rest, body, env.labels, env.args, Beyond(env)), v);
    C.OneStep(m, host, s, Running(C.Push1(s, s.pc + 1, v)));
    GivesNow(m, s, Clo(params, rest, body, env.labels, env.args, Beyond(env)), v, 1, fuel, ToPush(s, s.pc + 1));
  }

  lemma BeyondLabels(env: Env)
    ensures [env.labels] + FarLabels(Beyond(env)) == [env.labels, env.outer] + FarLabels(env.far)
  {
    assert FarLabels(Beyond(env)) == [env.outer] + FarLabels(env.far);
  }

  lemma ClosureRuns(m: Machine, host: Host, params: seq<string>, rest: bool, body: seq<Sexp>, lists: Lists,
                    scopes: seq<Scope>, x: Out, base: nat, env: Env, fuel: nat)
    requires IsLoop(m, host) && Fit(scopes, env) && body != [] && CleanEach(body, false)
    requires DoBodyOk(body, Within(PlaceOf(scopes)))
    requires GenClosure(params, Arity(params, rest), body, lists, scopes) == Some(x) && (rest ==> |params| == 1)
    ensures Runs(m, base, x, env, Val(Clo(params, rest, body, env.labels, env.args, Beyond(env))), fuel)
  {
    var inner := [Scope(params, false)] + scopes;
    GenBodyGood(body, 0, NOTHING, inner);
    var b := GenBody(body, 0, NOTHING, inner).value;
    var p := Proto(b.code + One(Return, 0), b.lists.consts, b.lists.ups, b.lists.prots);
    FitLayers(scopes, env);
    BeyondLabels(env);
    assert HasCode(p, params, body, env.labels, Beyond(env), scopes, b);
    assert CapturesOk(p.ups, |env.labels|) by { assert inner[1] == scopes[0]; }
    var id := |lists.prots|;
    assert x == Out([Inst(Lambda, id, Arity(params, rest))], lists.(prots := lists.prots + [p]));
    forall s: State | Ready(s, base, x, env)
      ensures Gives(m, s, Val(Clo(params, rest, body, env.labels, env.args, Beyond(env))), fuel,
                    ToPush(s, base + |x.code|))
    {
      C.PlacedOne(s.func.proto.insts, base, Inst(Lambda, id, Arity(params, rest)));
      assert (lists.prots + [p])[id] == p && s.func.proto.prots[id] == p;
      ClosureMade(m, host, s, id, params, rest, body, env, fuel);
    }
  }

  // ---------------------------------------------------------------- several values

  function PushN(s: State, pc: nat, ws: seq<Value>): State {
    s.(pc := pc, stack := s.stack + ws)
  }

  ghost predicate GivesAllAt(m: Machine, s: State, vs: seq<SVal>, ws: seq<Value>, n: nat, end: nat) {
    RepAll(vs, ws) && Steps(m, Running(s), n) == Running(PushN(s, end, ws))
  }

  /** The values end up on the stack, or the run stops on the way to them. */
  ghost predicate GivesAll(m: Machine, s: State, rs: SList, fuel: nat, end: nat) {
    match rs
    case Vals(vs) => exists ws: seq<Value>, n: nat :: GivesAllAt(m, s, vs, ws, n, end)
    case Stop(r) => !r.Val? && Gives(m, s, r, fuel, ToPush(s, end))
  }

  ghost predicate RunsAll(m: Machine, base: nat, out: Out, env: Env, rs: SList, fuel: nat) {
    forall s: State :: Ready(s, base, out, env) ==> GivesAll(m, s, rs, fuel, base + |out.code|)
  }

  /** Without a value it does not matter where one would go. */
  lemma NoTarget(m: Machine, s: State, r: SRes, fuel: nat, f: Value -> State, g: Value -> State)
    requires !r.Val? && Gives(m, s, r, fuel, f)
    ensures Gives(m, s, r, fuel, g)
  {
  }

  lemma NoneRun(m: Machine, base: nat, lists: Lists, env: Env, fuel: nat)
    ensures RunsAll(m, base, Out([], lists), env, Vals([]), fuel)
  {
    forall s: State | Ready(s, base, Out([], lists), env) ensures GivesAll(m, s, Vals([]), fuel, base) {
      assert GivesAllAt(m, s, [], [], 0, base);
    }
  }

  /** One value is there, and the others follow. */
  lemma OneMore(m: Machine, s: State, sv: SVal, v: Value, n: nat, mid: nat, rs: SList, fuel: nat, end: nat)
    requires GivesAt(m, s, sv, v, n, ToPush(s, mid)) && GivesAll(m, C.Push1(s, mid, v), rs, fuel, end)
    ensures GivesAll(m, s, Cons(Val(sv), rs), fuel, end)
  {
    var t := C.Push1(s, mid, v);
    match rs
    case Vals(vs) =>
      var ws: seq<Value>, k: nat :| GivesAllAt(m, t, vs, ws, k, end);
      StepsAdd(m, Running(s), n, k);
      assert s.stack + [v] + ws == s.stack + ([v] + ws);
      assert GivesAllAt(m, s, [sv] + vs, [v] + ws, n + k, end);
    case Stop(r) =>
      Prefixed(m, s, n, t, r, fuel, fuel, ToPush(t, end), ToPush(t, end));
      NoTarget(m, s, r, fuel, ToPush(t, end), ToPush(s, end));
  }

  lemma ConsRuns(m: Machine, x: Out, rest: Out, base: nat, env: Env, r: SRes, rs: SList, fuel: nat)
    requires Grows(x.lists, rest.lists)
    requires Runs(m, base, x, env, r, fuel) && RunsAll(m, base + |x.code|, rest, env, rs, fuel)
    ensures RunsAll(m, base, Out(x.code + rest.code, rest.lists), env, Cons(r, rs), fuel)
  {
    var out := Out(x.code + rest.code, rest.lists);
    var mid, end := base + |x.code|, base + |out.code|;
    forall s: State | Ready(s, base, out, env) ensures GivesAll(m, s, Cons(r, rs), fuel, end) {
      C.PlacedParts(s.func.proto.insts, base, x.code, rest.code);
      assert Ready(s, base, x, env);
      if r.Val? {
        var v: Value, n: nat :| GivesAt(m, s, r.v, v, n, ToPush(s, mid));
        EnvKept(s, C.Push1(s, mid, v), env);
        assert Ready(C.Push1(s, mid, v), mid, rest, env);
        OneMore(m, s, r.v, v, n, mid, rs, fuel, end);
      } else {
        NoTarget(m, s, r, fuel, ToPush(s, mid), ToPush(s, end));
      }
    }
  }

  // ---------------------------------------------------------------- calls

  /** What comes of an outcome. */
  ghost predicate GivesFrom(m: Machine, o: Outcome, r: SRes, fuel: nat, target: Value -> State) {
    match o
    case Running(t) => Gives(m, t, r, fuel, target)
    case Raised(e) => r == Fail(e) || r.Outside?
    case Done(_) => r.Outside?
    case Stuck => r.Outside?
  }

  /** The caller with one value in the place of the topmost `size` ones. */
  function ToCaller(u: State, size: nat, ret: nat): Value -> State {
    v => State(ret, u.func, (if size <= |u.stack| then u.stack[..|u.stack| - size] else []) + [v], u.frames, u.globals)
  }

  ghost predicate Called(m: Machine, host: Host, u: State, ws: seq<Value>, ret: nat, r: SRes, fuel: nat) {
    && 0 < |ws| <= |u.stack|
    && GivesFrom(m, DoCall(host, u, |ws| - 1, ret), r, fuel, ToCaller(u, |ws|, ret))
  }

  /** Calling the first of these values with the others gives this, whoever calls. */
  ghost predicate Applies(m: Machine, host: Host, vs: seq<SVal>, r: SRes, fuel: nat) {
    forall u: State, below: seq<Value>, ws: seq<Value>, ret: nat ::
      u.stack == below + ws && RepAll(vs, ws) ==> Called(m, host, u, ws, ret, r, fuel)
  }

  /** A value that cannot be called, or the wrong number of arguments. */
  lemma CallFails(m: Machine, host: Host, u: State, below: seq<Value>, f: SVal, vs: seq<SVal>, ws: seq<Value>,
                  ret: nat, fuel: nat)
    requires u.stack == below + ws && RepAll([f] + vs, ws) && !f.Many? && (f.Clo? ==> !f.rest && |f.params| != |vs|)
    ensures Called(m, host, u, ws, ret, Apply(f, vs, fuel), fuel)
  {
    assert ([f] + vs)[0] == f && Rep(f, ws[0]);
    assert u.stack[|u.stack| - |ws|] == ws[0];
  }

  /** A vector gives the element at the index. */
  lemma VectorCalled(m: Machine, host: Host, u: State, below: seq<Value>, f: SVal, vs: seq<SVal>, ws: seq<Value>,
                     ret: nat, fuel: nat)
    requires u.stack == below + ws && RepAll([f] + vs, ws) && f.Many?
    ensures Called(m, host, u, ws, ret, Index(f.elems, vs), fuel)
  {
    assert ([f] + vs)[0] == f && Rep(f, ws[0]);
    assert u.stack[|u.stack| - |ws|] == ws[0] && u.stack[..|u.stack| - |ws|] == below;
    if |vs| == 1 {
      assert ([f] + vs)[1] == vs[0] && u.stack[|below| + 1..][0] == ws[1];
      NumberRep(vs[0], ws[1]);
      var r := Index(f.elems, vs);
      if r.Val? {
        var i := Truncate(ws[1].n);
        var v := ws[0].elems[i];
        GivesNow(m, State(ret, u.func, below + [v], u.frames, u.globals), f.elems[i], v, 0, fuel,
                 ToCaller(u, |ws|, ret));
      }
    }
  }

  /** The arguments as the callee finds them. */
  function GivenValues(rest: bool, args: seq<Value>): seq<Value> {
    if rest then [Vec(args)] else args
  }

  lemma GivenRep(rest: bool, f: SVal, vs: seq<SVal>, ws: seq<Value>)
    requires RepAll([f] + vs, ws)
    ensures RepAll(Given(rest, vs), GivenValues(rest, ws[1..]))
  {
    forall k | 0 <= k < |vs| ensures Rep(vs[k], ws[1..][k]) {
      assert Rep(([f] + vs)[k + 1], ws[k + 1]);
    }
    assert RepAll(vs, ws[1..]);
  }

  /** A frame, part by part: the function, its arguments, its captures. */
  ghost predicate InFrame(stack: seq<Value>, top: nat, w: Value, ws: seq<Value>, ups: seq<Value>) {
    && top + |ws| + |ups| < |stack| && stack[top] == w
    && (forall k | 0 <= k < |ws| :: stack[top + 1 + k] == ws[k])
    && (forall k | 0 <= k < |ups| :: stack[top + 1 + |ws| + k] == ups[k])
  }

  lemma EntrySlots(below: seq<Value>, w: Value, ws: seq<Value>, ups: seq<Value>)
    ensures InFrame(below + [w] + ws + ups, |below|, w, ws, ups)
  {
    var front := below + [w] + ws;
    assert front[|below|] == w && |front| == |below| + 1 + |ws|;
    forall k | 0 <= k < |ws| ensures (front + ups)[|below| + 1 + k] == ws[k] {
      assert front[|below| + 1 + k] == ws[k];
    }
  }

  lemma EntryEnv(t: State, f: SVal, w: Value, vs: seq<SVal>, ws: seq<Value>, top: nat)
    requires f.Clo? && Rep(f, w) && RepAll(vs, ws) && |f.params| == |vs| && t.func == w.f
    requires t.frames != [] && t.frames[|t.frames| - 1].top == top && InFrame(t.stack, top, w, ws, w.f.upvalues)
    ensures HasEnv(t, Env(f.params, vs, f.labels, f.args, f.far, Some(f)))
  {
    var ups := t.func.proto.ups;
    forall k | 0 <= k < |ups| ensures ups[k].idx < |f.args| && Rep(f.args[ups[k].idx], t.stack[top + 1 + |ws| + k]) {
      assert t.stack[top + 1 + |ws| + k] == w.f.upvalues[k];
    }
  }

  /** A function's code is its body's, and then the return. */
  lemma WholeCode(p: Proto, b: Out)
    requires p == Proto(b.code + One(Return, 0), b.lists.consts, b.lists.ups, b.lists.prots)
    ensures C.Placed(p.insts, 0, b.code) && Has(p, b.lists) && Leads(p.insts, |b.code|)
  {
    assert p.insts[|b.code|] == Inst(Return, 0, 0);
  }

  /** What the machine does on a call of a closure. */
  lemma Enters(host: Host, u: State, below: seq<Value>, f: Function, rest: bool, args: seq<Value>, ret: nat)
    requires u.stack == below + ([Fun(f)] + args) && (if rest then f.narg == -1 else f.narg == |args|)
    ensures DoCall(host, u, |args|, ret)
         == Running(State(0, f, below + [Fun(f)] + GivenValues(rest, args) + f.upvalues,
                          u.frames + [Frame(u.func, |below|, ret)], u.globals))
  {
    var at := |below|;
    assert u.stack[at] == Fun(f) && u.stack[at + 1..] == args && u.stack[..at + 1] == below + [Fun(f)];
  }

  lemma EntryHas(t: State, below: seq<Value>, f: SVal, w: Value, vs: seq<SVal>, ws: seq<Value>)
    requires f.Clo? && Rep(f, w) && RepAll(vs, ws) && |f.params| == |vs| && t.func == w.f
    requires t.stack == below + [w] + ws + t.func.upvalues
    requires t.frames != [] && t.frames[|t.frames| - 1].top == |below|
    ensures HasEnv(t, Env(f.params, vs, f.labels, f.args, f.far, Some(f)))
  {
    EntrySlots(below, w, ws, t.func.upvalues);
    EntryEnv(t, f, w, vs, ws, |below|);
  }

  lemma EntryReady(t: State, b: Out, env: Env)
    requires t.func.proto == Proto(b.code + One(Return, 0), b.lists.consts, b.lists.ups, b.lists.prots)
    requires t.pc == 0 && HasEnv(t, env)
    ensures Ready(t, 0, b, env) && Leads(t.func.proto.insts, |b.code|)
  {
    WholeCode(t.func.proto, b);
  }

  /** The callee's body runs in a frame of its own and leaves its value to the caller. */
  lemma CallEnters(m: Machine, host: Host, u: State, below: seq<Value>, f: SVal, vs: seq<SVal>, ws: seq<Value>,
                   ret: nat, b: Out, env: Env, r: SRes, fuel: nat)
    requires f.Clo? && u.stack == below + ws && RepAll([f] + vs, ws) && (f.rest || |f.params| == |vs|) && ws[0].Fun?
    requires ws[0].f.proto == Proto(b.code + One(Return, 0), b.lists.consts, b.lists.ups, b.lists.prots)
    requires env == Env(f.params, Given(f.rest, vs), f.labels, f.args, f.far, Some(f))
    requires Finishes(m, 0, b, env, r, fuel)
    ensures Called(m, host, u, ws, ret, r, fuel)
  {
    var t := CalleeHas(host, u, below, f, vs, ws, ws[0], ws[1..], ret, env);
    EntryReady(t, b, env);
    EntryBack(t, u, below, ws, ret);
    Prefixed(m, t, 0, t, r, fuel, fuel, ToBack(t), ToCaller(u, |ws|, ret));
  }

  /** The state in which the callee starts. */
  lemma CalleeHas(host: Host, u: State, below: seq<Value>, f: SVal, vs: seq<SVal>, ws: seq<Value>, w: Value,
                  args: seq<Value>, ret: nat, env: Env)
    returns (t: State)
    requires f.Clo? && u.stack == below + ws && RepAll([f] + vs, ws) && (f.rest || |f.params| == |vs|)
    requires w == ws[0] && args == ws[1..] && w.Fun?
    requires env == Env(f.params, Given(f.rest, vs), f.labels, f.args, f.far, Some(f))
    ensures DoCall(host, u, |ws| - 1, ret) == Running(t) && HasEnv(t, env) && t.func == w.f && t.pc == 0
    ensures t.frames == u.frames + [Frame(u.func, |below|, ret)] && t.globals == u.globals && below <= t.stack
  {
    assert Rep(([f] + vs)[0], w) && ws == [w] + args;
    Enters(host, u, below, w.f, f.rest, args, ret);
    t := DoCall(host, u, |args|, ret).s;
    GivenRep(f.rest, f, vs, ws);
    EntryHas(t, below, f, w, Given(f.rest, vs), GivenValues(f.rest, args));
  }

  lemma EntryBack(t: State, u: State, below: seq<Value>, ws: seq<Value>, ret: nat)
    requires u.stack == below + ws && t.frames == u.frames + [Frame(u.func, |below|, ret)] && t.globals == u.globals
    requires below <= t.stack
    ensures forall v :: ToBack(t)(v) == ToCaller(u, |ws|, ret)(v)
  {
    assert t.stack[..|below|] == below == u.stack[..|u.stack| - |ws|] && t.frames[..|t.frames| - 1] == u.frames;
  }

  /** One turn, and then what comes of it. */
  lemma Turned(m: Machine, u: State, o: Outcome, r: SRes, less: nat, fuel: nat, f: Value -> State, g: Value -> State)
    requires Steps(m, Running(u), 1) == o && GivesFrom(m, o, r, less, f) && fuel <= less + 1
    requires forall v :: f(v) == g(v)
    ensures Gives(m, u, r, fuel, g)
  {
    if o.Running? {
      Prefixed(m, u, 1, o.s, r, less, fuel, f, g);
    } else {
      assert !r.Outside? ==> RaisesAt(m, u, o.e, 1);
    }
  }

  /** What a call gives after its callee and arguments, if each call costs one unit of fuel. */
  ghost predicate Follows(m: Machine, host: Host, rs: SList, r: SRes, fuel: nat) {
    if rs.Stop? then r == rs.r
    else if fuel == 0 then r == Timeout
    else Applies(m, host, rs.vs, r, fuel - 1)
  }

  /** After the values: the run stopped before, or something happens at the call. */
  lemma AllThen(m: Machine, s: State, rs: SList, end: nat, r: SRes, fuel: nat, target: Value -> State)
    requires GivesAll(m, s, rs, fuel, end) && (rs.Stop? ==> r == rs.r)
    requires rs.Vals? ==> forall ws | RepAll(rs.vs, ws) :: Gives(m, PushN(s, end, ws), r, fuel, target)
    ensures Gives(m, s, r, fuel, target)
  {
    if rs.Vals? {
      var ws: seq<Value>, n: nat :| GivesAllAt(m, s, rs.vs, ws, n, end);
      Prefixed(m, s, n, PushN(s, end, ws), r, fuel, fuel, target, target);
    } else {
      NoTarget(m, s, r, fuel, ToPush(s, end), target);
    }
  }

  lemma OutOfFuel(m: Machine, u: State, target: Value -> State)
    ensures Gives(m, u, Timeout, 0, target)
  {
    assert RunsAt(m, u, 0);
  }

  /** An ordinary call puts the value in the place of the callee and its arguments. */
  lemma CallTurn(m: Machine, host: Host, s: State, at: nat, vs: seq<SVal>, ws: seq<Value>, r: SRes, fuel: nat)
    requires IsLoop(m, host) && RepAll(vs, ws) && vs != [] && fuel > 0 && Applies(m, host, vs, r, fuel - 1)
    requires at < |s.func.proto.insts| && s.func.proto.insts[at] == Inst(Call, |vs| - 1, 0)
    ensures Gives(m, PushN(s, at, ws), r, fuel, ToPush(s, at + 1))
  {
    var u := PushN(s, at, ws);
    var o := DoCall(host, u, |ws| - 1, at + 1);
    assert Called(m, host, u, ws, at + 1, r, fuel - 1);
    C.OneStep(m, host, u, o);
    assert u.stack[..|u.stack| - |ws|] == s.stack;
    Turned(m, u, o, r, fuel - 1, fuel, ToCaller(u, |ws|, at + 1), ToPush(s, at + 1));
  }

  /** The machine calls as if from the caller of this function. */
  lemma TailMoves(m: Machine, host: Host, s: State, at: nat, ws: seq<Value>, f: Frame, rest: seq<Frame>, moved: State)
    requires IsLoop(m, host) && ws != [] && s.frames == rest + [f] && f.top < |s.stack|
    requires at < |s.func.proto.insts| && s.func.proto.insts[at] == Inst(TailCall, |ws| - 1, 0)
    requires moved == State(at, f.func, s.stack[..f.top] + ws, rest, s.globals)
    ensures Steps(m, Running(PushN(s, at, ws)), 1) == DoCall(host, moved, |ws| - 1, f.ret)
  {
    var u := PushN(s, at, ws);
    assert u.stack[..f.top] == s.stack[..f.top] && u.stack[|u.stack| - |ws|..] == ws;
    TailCallIs(host, u, |ws| - 1, rest, f, s.stack[..f.top], ws);
    StepCalls(m, host, u);
    assert Steps(m, m(u), 0) == m(u);
  }

  /** A tail call leaves it to the callee to go back to the caller of this function. */
  lemma TailTurn(m: Machine, host: Host, s: State, at: nat, vs: seq<SVal>, ws: seq<Value>, r: SRes, fuel: nat,
                 f: Frame, rest: seq<Frame>, p: seq<Value>)
    requires IsLoop(m, host) && RepAll(vs, ws) && vs != [] && fuel > 0 && Applies(m, host, vs, r, fuel - 1)
    requires at < |s.func.proto.insts| && s.func.proto.insts[at] == Inst(TailCall, |vs| - 1, 0)
    requires s.frames == rest + [f] && f.top < |s.stack| && p == s.stack[..f.top]
    ensures Gives(m, PushN(s, at, ws), r, fuel, ToBack(s))
  {
    var moved := State(at, f.func, p + ws, rest, s.globals);
    TailMoves(m, host, s, at, ws, f, rest, moved);
    var o := DoCall(host, moved, |ws| - 1, f.ret);
    assert Called(m, host, moved, ws, f.ret, r, fuel - 1);
    assert moved.stack[..|moved.stack| - |ws|] == p && s.frames[..|s.frames| - 1] == rest;
    Turned(m, PushN(s, at, ws), o, r, fuel - 1, fuel, ToCaller(moved, |ws|, f.ret), ToBack(s));
  }

  lemma CallRuns(m: Machine, host: Host, all: Out, base: nat, env: Env, rs: SList, n: nat, r: SRes, fuel: nat)
    requires IsLoop(m, host) && RunsAll(m, base, all, env, rs, fuel) && Follows(m, host, rs, r, fuel)
    requires rs.Vals? ==> |rs.vs| == n + 1
    ensures Runs(m, base, Out(all.code + One(Call, n), all.lists), env, r, fuel)
  {
    var out, at := Out(all.code + One(Call, n), all.lists), base + |all.code|;
    forall s: State | Ready(s, base, out, env) ensures Gives(m, s, r, fuel, ToPush(s, at + 1)) {
      C.PlacedParts(s.func.proto.insts, base, all.code, One(Call, n));
      C.PlacedOne(s.func.proto.insts, at, Inst(Call, n, 0));
      assert Ready(s, base, all, env);
      if rs.Vals? {
        forall ws | RepAll(rs.vs, ws) ensures Gives(m, PushN(s, at, ws), r, fuel, ToPush(s, at + 1)) {
          if fuel == 0 {
            OutOfFuel(m, PushN(s, at, ws), ToPush(s, at + 1));
          } else {
            CallTurn(m, host, s, at, rs.vs, ws, r, fuel);
          }
        }
      }
      AllThen(m, s, rs, at, r, fuel, ToPush(s, at + 1));
    }
  }

  lemma TailCallFinishes(m: Machine, host: Host, all: Out, base: nat, env: Env, rs: SList, n: nat, r: SRes, fuel: nat)
    requires IsLoop(m, host) && RunsAll(m, base, all, env, rs, fuel) && Follows(m, host, rs, r, fuel)
    requires rs.Vals? ==> |rs.vs| == n + 1
    ensures Finishes(m, base, Out(all.code + One(TailCall, n), all.lists), env, r, fuel)
  {
    var out, at := Out(all.code + One(TailCall, n), all.lists), base + |all.code|;
    forall s: State | Ready(s, base, out, env) && Leads(s.func.proto.insts, base + |out.code|)
      ensures Gives(m, s, r, fuel, ToBack(s))
    {
      C.PlacedParts(s.func.proto.insts, base, all.code, One(TailCall, n));
      C.PlacedOne(s.func.proto.insts, at, Inst(TailCall, n, 0));
      assert Ready(s, base, all, env);
      if rs.Vals? {
        forall ws | RepAll(rs.vs, ws) ensures Gives(m, PushN(s, at, ws), r, fuel, ToBack(s)) {
          if fuel == 0 {
            OutOfFuel(m, PushN(s, at, ws), ToBack(s));
          } else {
            var last := |s.frames| - 1;
            TailTurn(m, host, s, at, rs.vs, ws, r, fuel, s.frames[last], s.frames[..last],
                     s.stack[..s.frames[last].top]);
          }
        }
      }
      AllThen(m, s, rs, at, r, fuel, ToBack(s));
    }
  }
}
