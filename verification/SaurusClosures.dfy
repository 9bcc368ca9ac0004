/** Running the code of expressions with closures and calls: what each form needs of the machine
    (src/compiler/gen.lua, src/vm/core.c). */
module SaurusClosures {
  import opened Options
  import opened SaurusGen
  import opened SaurusVm
  import opened SaurusStack
  import opened SaurusSafety
  import opened SaurusEvaluator
  import C = SaurusCorrect

  // ---------------------------------------------------------------- where a lost tail call can hide

  /** The last thing done for the value is no call, so it never leaves the function. */
  predicate PlainEnd(e: Sexp)
    decreases e, 1
  {
    match e
    case Number(_) => true
    case Symbol(_) => true
    case List(items) => items == [] || (items[0].Symbol? && PlainForm(items[0].name, items))
  }

  predicate PlainForm(name: string, items: seq<Sexp>)
    requires items != []
    decreases items, 1
  {
    if name == "if" then
      (|items| > 2 ==> PlainEnd(items[2])) && (|items| > 3 ==> PlainEnd(items[3]))
    else if name == "do" then |items| > 1 ==> PlainBody(items[1..])
    else name == "lambda" || (C.IsOperator(name) && (|items| == 3 || (name == "-" && |items| == 2)))
  }

  predicate PlainBody(items: seq<Sexp>)
    requires items != []
    decreases items, 0
  {
    if |items| == 1 then PlainEnd(items[0]) else PlainBody(items[1..])
  }

  /** A function under generation: whether its calls in tail position are tail calls, and whether it is the
      top one, of whose own functions they are not. */
  datatype Place = Place(tailCalls: bool, top: bool)

  function PlaceOf(scopes: seq<Scope>): Place
    requires scopes != []
  {
    Place(|scopes| < 2 || !scopes[1].top, scopes[0].top)
  }

  /** A function made in that one. */
  function Within(place: Place): Place {
    Place(!place.top, false)
  }

  /** A `do` outside tail position does not end in a call: its code would be a tail call all the same. */
  predicate DoOk(e: Sexp, tail: bool, place: Place)
    decreases e, 1
  {
    match e
    case Number(_) => true
    case Symbol(_) => true
    case List(items) =>
      || items == []
      || (if items[0].Symbol? then DoFormOk(items[0].name, items, tail, place) else DoEachOk(items, place))
  }

  predicate DoFormOk(name: string, items: seq<Sexp>, tail: bool, place: Place)
    requires items != []
    decreases items, 1
  {
    if name == "if" then
      && (|items| > 1 ==> DoOk(items[1], false, place)) && (|items| > 2 ==> DoOk(items[2], tail, place))
      && (|items| > 3 ==> DoOk(items[3], tail, place))
    else if name == "do" then
      |items| > 1 ==>
        DoBodyOk(items[1..], place) && (tail || !place.tailCalls || PlainBody(items[1..]))
    else if name == "lambda" then |items| > 2 ==> DoBodyOk(items[2..], Within(place))
    else if name == "let" then
      && (|items| > 2 ==> DoBodyOk(items[2..], Within(place)))
      && (|items| > 1 && items[1].List? ==> DoEachOk(items[1].items, place))
    else DoEachOk(items, place)
  }

  predicate DoEachOk(items: seq<Sexp>, place: Place)
    decreases items, 0
  {
    items == [] || (DoOk(items[0], false, place) && DoEachOk(items[1..], place))
  }

  predicate DoBodyOk(items: seq<Sexp>, place: Place)
    requires items != []
    decreases items, 0
  {
    if |items| == 1 then DoOk(items[0], true, place)
    else DoOk(items[0], false, place) && DoBodyOk(items[1..], place)
  }

  // ---------------------------------------------------------------- values and frames

  predicate IsPlain(v: Value) {
    !v.Fun? && !v.Vec?
  }

  ghost predicate HasCode(p: Proto, params: seq<string>, body: seq<Sexp>, labels: seq<string>, far: seq<Layer>,
                          scopes: seq<Scope>, b: Out)
    requires body != []
  {
    && scopes != [] && LabelsOf(scopes) + [[]] == [labels] + FarLabels(far) && DoBodyOk(body, Within(PlaceOf(scopes)))
    && GenBody(body, 0, NOTHING, [Scope(params, false)] + scopes) == Some(b)
    && p == Proto(b.code + One(Return, 0), b.lists.consts, b.lists.ups, b.lists.prots)
  }

  /** The prototype is what this function compiles to, where its creator has these labels. */
  ghost predicate IsCode(p: Proto, params: seq<string>, body: seq<Sexp>, labels: seq<string>, far: seq<Layer>) {
    && body != [] && CleanEach(body, false) && Fits(p) && LocalCaptures(p)
    && exists scopes, b :: HasCode(p, params, body, labels, far, scopes, b)
  }

  function Arity(params: seq<string>, rest: bool): int {
    if rest then -1 else |params|
  }

  /** The machine's value stands for the evaluator's: a closure has compiled code and the captured values. */
  ghost predicate Rep(sv: SVal, v: Value)
    decreases sv
  {
    match sv
    case Plain(w) => v == w && IsPlain(w)
    case Many(elems) =>
      v.Vec? && |v.elems| == |elems| && forall k | 0 <= k < |elems| :: Rep(elems[k], v.elems[k])
    case Clo(params, rest, body, labels, args, far) =>
      && v.Fun? && v.f.narg == Arity(params, rest) && (rest ==> |params| == 1)
      && IsCode(v.f.proto, params, body, labels, far) && |labels| == |args|
      && |v.f.upvalues| == |v.f.proto.ups|
      && forall k | 0 <= k < |v.f.upvalues| ::
           && v.f.proto.ups[k].lv == 1 && v.f.proto.ups[k].idx < |args|
           && Rep(args[v.f.proto.ups[k].idx], v.f.upvalues[k])
  }

  ghost predicate RepAll(vs: seq<SVal>, ws: seq<Value>) {
    |vs| == |ws| && forall k | 0 <= k < |vs| :: Rep(vs[k], ws[k])
  }

  /** The frame of the running function holds the function, its arguments and its captures. */
  ghost predicate HasEnv(s: State, env: Env) {
    && |env.labels| == |env.args| && s.frames != [] && Fits(s.func.proto) && LocalCaptures(s.func.proto)
    && var top, n, ups := s.frames[|s.frames| - 1].top, |env.args|, s.func.proto.ups;
       && top + n + |ups| < |s.stack| && (env.self.Some? ==> Rep(env.self.value, s.stack[top]))
       && (forall k | 0 <= k < n :: Rep(env.args[k], s.stack[top + 1 + k]))
       && (forall k | 0 <= k < |ups| ::
             ups[k].idx < |env.oargs| && Rep(env.oargs[ups[k].idx], s.stack[top + 1 + n + k]))
  }

  ghost predicate Has(p: Proto, l: Lists) {
    l.consts <= p.consts && l.ups <= p.ups && l.prots <= p.prots
  }

  ghost predicate Ready(s: State, base: nat, out: Out, env: Env) {
    && s.pc == base && C.Placed(s.func.proto.insts, base, out.code)
    && Has(s.func.proto, out.lists) && HasEnv(s, env)
  }

  /** More on top of the stack, or another place in the code, changes nothing for the frame. */
  lemma EnvKept(s: State, t: State, env: Env)
    requires HasEnv(s, env) && t.frames == s.frames && t.func == s.func && s.stack <= t.stack
    ensures HasEnv(t, env)
  {
  }

  // ---------------------------------------------------------------- what a run gives

  ghost predicate GivesAt(m: Machine, s: State, sv: SVal, v: Value, n: nat, target: Value -> State) {
    Rep(sv, v) && Steps(m, Running(s), n) == Running(target(v))
  }

  ghost predicate RaisesAt(m: Machine, s: State, e: Error, n: nat) {
    Steps(m, Running(s), n) == Raised(e)
  }

  ghost predicate RunsAt(m: Machine, s: State, n: nat) {
    Steps(m, Running(s), n).Running?
  }

  /** The run reaches the target with a value for this one, or raises this error, or goes on for longer than
      the calls that were allowed. */
  ghost predicate Gives(m: Machine, s: State, r: SRes, fuel: nat, target: Value -> State) {
    match r
    case Val(sv) => exists v: Value, n: nat :: GivesAt(m, s, sv, v, n, target)
    case Fail(e) => exists n: nat :: RaisesAt(m, s, e, n)
    case Timeout => exists n: nat :: n >= fuel && RunsAt(m, s, n)
    case Outside => true
  }

  function ToPush(s: State, end: nat): Value -> State {
    v => C.Push1(s, end, v)
  }

  /** The caller, with the value in the place of the call. */
  function Back(s: State, v: Value): State
    requires s.frames != []
  {
    var f := s.frames[|s.frames| - 1];
    State(f.ret, f.func, (if f.top <= |s.stack| then s.stack[..f.top] else s.stack) + [v],
          s.frames[..|s.frames| - 1], s.globals)
  }

  function ToBack(s: State): Value -> State {
    v => if s.frames == [] then s else Back(s, v)
  }

  /** Some turns before. */
  lemma Prefixed(m: Machine, s: State, k: nat, t: State, r: SRes, less: nat, fuel: nat,
                 f: Value -> State, g: Value -> State)
    requires Steps(m, Running(s), k) == Running(t) && Gives(m, t, r, less, f) && fuel <= less + k
    requires forall v :: f(v) == g(v)
    ensures Gives(m, s, r, fuel, g)
  {
    match r
    case Val(sv) =>
      var v: Value, n: nat :| GivesAt(m, t, sv, v, n, f);
      StepsAdd(m, Running(s), k, n);
      assert GivesAt(m, s, sv, v, k + n, g);
    case Fail(e) =>
      var n: nat :| RaisesAt(m, t, e, n);
      StepsAdd(m, Running(s), k, n);
      assert RaisesAt(m, s, e, k + n);
    case Timeout =>
      var n: nat :| n >= less && RunsAt(m, t, n);
      StepsAdd(m, Running(s), k, n);
      assert RunsAt(m, s, k + n);
    case Outside =>
  }

  /** A value is delivered, and the run goes on from there, whatever the value. */
  lemma Then(m: Machine, s: State, r: SRes, mid: nat, last: SRes, fuel: nat, target: Value -> State)
    requires Gives(m, s, r, fuel, ToPush(s, mid))
    requires !r.Val? ==> last == r
    requires r.Val? ==> forall v | Rep(r.v, v) :: Gives(m, C.Push1(s, mid, v), last, fuel, target)
    ensures Gives(m, s, last, fuel, target)
  {
    if r.Val? {
      var v: Value, n: nat :| GivesAt(m, s, r.v, v, n, ToPush(s, mid));
      Prefixed(m, s, n, C.Push1(s, mid, v), last, fuel, fuel, target, target);
    }
  }

  /** One turn that leaves a value for this one. */
  lemma GivesNow(m: Machine, s: State, sv: SVal, v: Value, n: nat, fuel: nat, target: Value -> State)
    requires Rep(sv, v) && Steps(m, Running(s), n) == Running(target(v))
    ensures Gives(m, s, Val(sv), fuel, target)
  {
    assert GivesAt(m, s, sv, v, n, target);
  }

  /** Wherever this code is placed, in a frame for these variables, running it gives this. */
  ghost predicate Runs(m: Machine, base: nat, out: Out, env: Env, r: SRes, fuel: nat) {
    forall s: State :: Ready(s, base, out, env) ==> Gives(m, s, r, fuel, ToPush(s, base + |out.code|))
  }

  /** The value at this place is the function's: only jumps lie between it and the return. */
  predicate Leads(insts: seq<Inst>, pos: nat)
    decreases |insts| - pos
  {
    && pos < |insts|
    && (insts[pos].op == Return || (insts[pos].op == Jmp && pos < insts[pos].a && Leads(insts, insts[pos].a)))
  }

  /** The same for code in tail position: the function returns this. */
  ghost predicate Finishes(m: Machine, base: nat, out: Out, env: Env, r: SRes, fuel: nat) {
    forall s: State :: Ready(s, base, out, env) && Leads(s.func.proto.insts, base + |out.code|) ==>
      Gives(m, s, r, fuel, ToBack(s))
  }

  lemma JumpStep(m: Machine, host: Host, s: State)
    requires IsLoop(m, host) && s.pc < |s.func.proto.insts| && s.func.proto.insts[s.pc].op == Jmp
    ensures Steps(m, Running(s), 1) == Running(s.(pc := s.func.proto.insts[s.pc].a))
  {
    C.OneStep(m, host, s, Step(host, s));
  }

  lemma ReturnTurn(m: Machine, host: Host, s: State, pos: nat, v: Value)
    requires IsLoop(m, host) && pos < |s.func.proto.insts| && s.func.proto.insts[pos].op == Return
    requires s.frames != [] && s.frames[|s.frames| - 1].top < |s.stack|
    ensures Steps(m, Running(C.Push1(s, pos, v)), 1) == Running(Back(s, v))
  {
    var t := C.Push1(s, pos, v);
    var f := s.frames[|s.frames| - 1];
    assert t.stack[..f.top] == s.stack[..f.top] && Top(t, 0) == v;
    C.OneStep(m, host, t, DoReturn(t));
  }

  /** From a value that is the function's the run goes back to the caller. */
  lemma {:induction false} LeadsBack(m: Machine, host: Host, s: State, pos: nat, v: Value) returns (n: nat)
    requires IsLoop(m, host) && Leads(s.func.proto.insts, pos)
    requires s.frames != [] && s.frames[|s.frames| - 1].top < |s.stack|
    ensures Steps(m, Running(C.Push1(s, pos, v)), n) == Running(Back(s, v))
    decreases |s.func.proto.insts| - pos
  {
    var i := s.func.proto.insts[pos];
    if i.op == Return {
      ReturnTurn(m, host, s, pos, v);
      n := 1;
    } else {
      JumpStep(m, host, C.Push1(s, pos, v));
      var k := LeadsBack(m, host, s, i.a, v);
      StepsAdd(m, Running(C.Push1(s, pos, v)), 1, k);
      n := 1 + k;
    }
  }

  lemma RunsFinish(m: Machine, host: Host, base: nat, out: Out, env: Env, r: SRes, fuel: nat)
    requires IsLoop(m, host) && Runs(m, base, out, env, r, fuel)
    ensures Finishes(m, base, out, env, r, fuel)
  {
    var end := base + |out.code|;
    forall s: State | Ready(s, base, out, env) && Leads(s.func.proto.insts, end)
      ensures Gives(m, s, r, fuel, ToBack(s))
    {
      if r.Val? {
        forall v | Rep(r.v, v) ensures Gives(m, C.Push1(s, end, v), r, fuel, ToBack(s)) {
          var n := LeadsBack(m, host, s, end, v);
          GivesNow(m, C.Push1(s, end, v), r.v, v, n, fuel, ToBack(s));
        }
      }
      Then(m, s, r, end, r, fuel, ToBack(s));
    }
  }
}
