/** Whole-run safety of compiled programs: the machine never reads below the stack, never leaves its
    code, and never names a constant, prototype or captured value that is not there. */
module SaurusSafety {
  import opened Options
  import opened SaurusGen
  import opened SaurusVm
  import opened SaurusStack
  import opened StackFlow

  // ---------------------------------------------------------------- well-formed values

  /** Captures come from the creator's own frame only, here and in every prototype inside. */
  ghost predicate LocalCaptures(p: Proto)
    decreases p
  {
    && (forall k | 0 <= k < |p.ups| :: p.ups[k].lv == 1)
    && (forall k | 0 <= k < |p.prots| :: LocalCaptures(p.prots[k]))
  }

  ghost predicate CodeSafe(narg: int, p: Proto) {
    ProtoOk(p, Slots(narg)) && LocalCaptures(p)
  }

  ghost predicate ValueOk(v: Value)
    decreases v, 0
  {
    match v
    case Fun(f) => CodeSafe(f.narg, f.proto) && |f.upvalues| == |f.proto.ups| && AllOk(f.upvalues)
    case Vec(elems) => AllOk(elems)
    case _ => true
  }

  ghost predicate AllOk(vs: seq<Value>)
    decreases vs, 1
  {
    forall k | 0 <= k < |vs| :: ValueOk(vs[k])
  }

  ghost predicate FunOk(f: Function) {
    ValueOk(Fun(f))
  }

  /** Native functions make no functions of their own. */
  ghost predicate HostOk(host: Host) {
    forall id, args | AllOk(args) && host.native(id, args).Some? :: ValueOk(host.native(id, args).value)
  }

  ghost predicate GlobalsOk(globals: map<string, Value>) {
    forall name | name in globals :: ValueOk(globals[name])
  }

  // ---------------------------------------------------------------- well-formed states

  function Body(p: Proto): seq<Inst>
    requires p.insts != []
  {
    p.insts[..|p.insts| - 1]
  }

  ghost predicate HeightsOf(p: Proto, h: Heights)
    requires p.insts != []
  {
    && Flows(Effects(Body(p)), 0, |p.insts| - 1, h)
    && h(0) == 0 && h(|p.insts| - 1) == 1
  }

  /** The function may stand before this instruction with this many values above its own. */
  ghost predicate Stands(f: Function, pc: nat, depth: int) {
    f.proto.insts != [] && pc < |f.proto.insts| && exists h: Heights :: HeightsOf(f.proto, h) && h(pc) == depth
  }

  /** A function standing at `pc` in the frame whose callee lies at `top`, with `size` values on the stack. */
  ghost predicate Placed(f: Function, pc: nat, top: nat, size: nat) {
    FunOk(f) && Stands(f, pc, size - (top + 1 + Slots(f.narg) + |f.upvalues|))
  }

  /** Every caller will find its own stack again when its callee returns. */
  ghost predicate FrameOk(frames: seq<Frame>, k: nat)
    requires k < |frames|
  {
    var f := frames[k];
    if k == 0 then FunOk(f.func) && f.ret >= |f.func.proto.insts|
    else Placed(f.func, f.ret, frames[k - 1].top, f.top + 1) && frames[k - 1].top < f.top
  }

  ghost predicate FramesOk(frames: seq<Frame>) {
    forall k: nat | k < |frames| :: FrameOk(frames, k)
  }

  ghost predicate Live(s: State) {
    s.frames != [] && FramesOk(s.frames) && Placed(s.func, s.pc, s.frames[|s.frames| - 1].top, |s.stack|)
  }

  /** The last frame is gone, and with it the run. */
  ghost predicate Finished(s: State) {
    s.frames == [] && s.pc >= |s.func.proto.insts|
  }

  ghost predicate Safe(s: State) {
    AllOk(s.stack) && GlobalsOk(s.globals) && (Live(s) || Finished(s))
  }

  ghost predicate SafeOutcome(o: Outcome) {
    match o
    case Running(s) => Safe(s)
    case Done(s) => true
    case Raised(_) => true
    case Stuck => false
  }

  // ---------------------------------------------------------------- standing at an instruction

  /** The height here is one of those of a witness, and the instruction flows. */
  lemma StandsFlow(f: Function, pc: nat, depth: int) returns (h: Heights)
    requires Stands(f, pc, depth)
    ensures HeightsOf(f.proto, h) && h(pc) == depth
    ensures pc < |f.proto.insts| - 1 ==> FlowAt(EffectOf(f.proto.insts[pc]), pc, |f.proto.insts| - 1, h)
    ensures pc == |f.proto.insts| - 1 ==> depth == 1
  {
    h :| HeightsOf(f.proto, h) && h(pc) == depth;
    if pc < |f.proto.insts| - 1 {
      assert Effects(Body(f.proto))[pc] == EffectOf(f.proto.insts[pc]);
      assert FlowAt(Effects(Body(f.proto))[pc], 0 + pc, |f.proto.insts| - 1, h);
    }
  }

  /** After an instruction that falls through. */
  lemma FallsTo(f: Function, pc: nat, depth: int)
    requires Stands(f, pc, depth) && FunOk(f) && EffectOf(f.proto.insts[pc]).Falls?
    ensures var e := EffectOf(f.proto.insts[pc]);
      depth >= e.needs && Stands(f, pc + 1, depth + e.delta)
    ensures pc < |f.proto.insts| - 1
  {
    var h := StandsFlow(f, pc, depth);
    assert f.proto.insts[|f.proto.insts| - 1] == Inst(Return, 0, 0);
    assert HeightsOf(f.proto, h) && h(pc + 1) == depth + EffectOf(f.proto.insts[pc]).delta;
  }

  lemma JumpsTo(f: Function, pc: nat, depth: int, op: Op)
    requires Stands(f, pc, depth) && FunOk(f) && f.proto.insts[pc].op == op && (op == Jmp || op == Test)
    ensures op == Jmp ==> depth >= 0 && Stands(f, f.proto.insts[pc].a, depth)
    ensures op == Test ==> depth >= 1 && Stands(f, f.proto.insts[pc].a, depth - 1) && Stands(f, pc + 1, depth - 1)
  {
    var h := StandsFlow(f, pc, depth);
    assert f.proto.insts[|f.proto.insts| - 1] == Inst(Return, 0, 0);
    var a := f.proto.insts[pc].a;
    if op == Jmp {
      assert HeightsOf(f.proto, h) && h(a) == depth;
    } else {
      assert HeightsOf(f.proto, h) && h(a) == depth - 1 && h(pc + 1) == depth - 1;
    }
  }

  lemma AtReturn(f: Function, pc: nat, depth: int)
    requires Stands(f, pc, depth) && FunOk(f) && f.proto.insts[pc].op == Return
    ensures depth == 1
  {
    var h := StandsFlow(f, pc, depth);
  }

  /** A function starts with nothing above its own values. */
  lemma Starts(f: Function)
    requires FunOk(f)
    ensures Stands(f, 0, 0)
  {
    assert ProtoOk(f.proto, Slots(f.narg)) && SaurusStack.Leaves(Body(f.proto), 0, 1);
    var h := Witness(Effects(Body(f.proto)), 0, |f.proto.insts| - 1, 1);
    assert HeightsOf(f.proto, h) && h(0) == 0;
  }

  lemma OperandHere(f: Function, pc: nat)
    requires FunOk(f) && pc < |f.proto.insts|
    ensures OperandOk(f.proto.insts[pc], Slots(f.narg), f.proto.consts, |f.proto.ups|, f.proto.prots)
  {
    var p := f.proto;
    assert ProtoOk(p, Slots(f.narg));
    assert OperandsOk(Body(p), Slots(f.narg), p.consts, |p.ups|, p.prots);
    if pc < |p.insts| - 1 {
      assert OperandOk(Body(p)[pc], Slots(f.narg), p.consts, |p.ups|, p.prots);
    }
  }

  // ---------------------------------------------------------------- one turn

  /** The rest of a state, unchanged but for the place and the stack. */
  lemma StaysLive(s: State, t: State, depth: int)
    requires Live(s) && t.func == s.func && t.frames == s.frames
    requires Stands(s.func, t.pc, depth)
    requires |t.stack| - |s.stack| == depth - Depth(s)
    ensures Live(t)
  {
  }

  /** How many values lie above the running function's own. */
  ghost function Depth(s: State): int
    requires s.frames != []
  {
    |s.stack| - (s.frames[|s.frames| - 1].top + 1 + Slots(s.func.narg) + |s.func.upvalues|)
  }

  lemma LiveStands(s: State)
    requires Live(s)
    ensures FunOk(s.func) && Stands(s.func, s.pc, Depth(s))
  {
  }

  lemma AllOkConcat(a: seq<Value>, b: seq<Value>)
    requires AllOk(a) && AllOk(b)
    ensures AllOk(a + b)
  {
  }

  lemma AllOkSlice(a: seq<Value>, i: nat, j: nat)
    requires AllOk(a) && i <= j <= |a|
    ensures AllOk(a[i..j]) && AllOk(a[..j]) && AllOk(a[i..])
  {
  }

  lemma NextLive(s: State, t: State, delta: int)
    requires Live(s) && EffectOf(s.func.proto.insts[s.pc]).Falls? && delta == EffectOf(s.func.proto.insts[s.pc]).delta
    requires t.func == s.func && t.frames == s.frames && t.pc == s.pc + 1 && |t.stack| == |s.stack| + delta
    ensures Live(t)
  {
    LiveStands(s);
    FallsTo(s.func, s.pc, Depth(s));
    StaysLive(s, t, Depth(s) + delta);
  }

  /** An instruction that replaces the topmost values. */
  lemma NextSafe(s: State, drop: nat, values: seq<Value>)
    requires Live(s) && AllOk(s.stack) && GlobalsOk(s.globals) && AllOk(values)
    requires drop <= |s.stack| && EffectOf(s.func.proto.insts[s.pc]).Falls?
    requires |values| - drop == EffectOf(s.func.proto.insts[s.pc]).delta
    ensures SafeOutcome(Next(s, drop, values))
  {
    var t := Next(s, drop, values).s;
    AllOkSlice(s.stack, 0, |s.stack| - drop);
    AllOkConcat(s.stack[..|s.stack| - drop], values);
    NextLive(s, t, EffectOf(s.func.proto.insts[s.pc]).delta);
  }

  /** The values an instruction needs are its function's own to take. */
  lemma HasNeeds(s: State)
    requires Live(s) && EffectOf(s.func.proto.insts[s.pc]).Falls?
    ensures EffectOf(s.func.proto.insts[s.pc]).needs <= Depth(s) < |s.stack|
  {
    FallsTo(s.func, s.pc, Depth(s));
  }

  lemma PushSafe(m: Machine, host: Host, s: State)
    requires IsLoop(m, host)
    requires Live(s) && AllOk(s.stack) && GlobalsOk(s.globals)
    requires s.func.proto.insts[s.pc].op == Push || s.func.proto.insts[s.pc].op == Pop
    ensures SafeOutcome(m(s))
  {
    var i := s.func.proto.insts[s.pc];
    HasNeeds(s);
    OperandHere(s.func, s.pc);
    StepStack(m, host, s);
    if i.op == Push {
      NextSafe(s, 0, [CreateValue(s.func.proto.consts[i.a])]);
    } else {
      NextSafe(s, i.a, []);
    }
  }

  lemma OneOperandSafe(m: Machine, host: Host, s: State)
    requires IsLoop(m, host)
    requires Live(s) && AllOk(s.stack) && GlobalsOk(s.globals)
    requires s.func.proto.insts[s.pc].op == Unm || s.func.proto.insts[s.pc].op == Not
    ensures SafeOutcome(m(s))
  {
    HasNeeds(s);
    StepStack(m, host, s);
    if s.func.proto.insts[s.pc].op == Not {
      NextSafe(s, 1, [Bool(Negation(Top(s, 0)))]);
    } else if Top(s, 0).Num? {
      NextSafe(s, 1, [Num(-Top(s, 0).n)]);
    }
  }

  lemma TwoOperandsSafe(m: Machine, host: Host, s: State)
    requires IsLoop(m, host)
    requires Live(s) && AllOk(s.stack) && GlobalsOk(s.globals)
    requires var op := s.func.proto.insts[s.pc].op; op == Eq || op == And || op == Or
    ensures SafeOutcome(m(s))
  {
    var op := s.func.proto.insts[s.pc].op;
    HasNeeds(s);
    StepStack(m, host, s);
    if op == Eq {
      NextSafe(s, 2, [Bool(Equal(host, Top(s, 1), Top(s, 0)))]);
    } else {
      NextSafe(s, 2, [Bool(Logic(op, Top(s, 1), Top(s, 0)))]);
    }
  }

  lemma BinarySafe(m: Machine, host: Host, s: State)
    requires IsLoop(m, host)
    requires Live(s) && AllOk(s.stack) && GlobalsOk(s.globals)
    requires IsArith(s.func.proto.insts[s.pc].op) || IsCompare(s.func.proto.insts[s.pc].op)
    ensures SafeOutcome(m(s))
  {
    HasNeeds(s);
    StepBinary(m, host, s);
    var r := Binary(host, s.func.proto.insts[s.pc].op, Top(s, 1), Top(s, 0));
    if r.Ok? { NextSafe(s, 2, [r.value]); }
  }

  lemma FetchSafe(s: State, offset: nat)
    requires Live(s) && AllOk(s.stack) && GlobalsOk(s.globals)
    requires EffectOf(s.func.proto.insts[s.pc]) == Falls(0, 1) && offset <= Slots(s.func.narg) + |s.func.upvalues|
    ensures SafeOutcome(DoFetch(s, offset))
  {
    HasNeeds(s);
    NextSafe(s, 0, [s.stack[s.frames[|s.frames| - 1].top + offset]]);
  }

  lemma GetGlobalSafe(s: State, c: Const)
    requires Live(s) && AllOk(s.stack) && GlobalsOk(s.globals) && EffectOf(s.func.proto.insts[s.pc]) == Falls(0, 1)
    ensures SafeOutcome(DoGetGlobal(s, c))
  {
    var key := CreateValue(c);
    if key.Str? && key.s in s.globals { NextSafe(s, 0, [s.globals[key.s]]); }
  }

  lemma SetGlobalSafe(s: State, c: Const)
    requires Live(s) && AllOk(s.stack) && GlobalsOk(s.globals) && EffectOf(s.func.proto.insts[s.pc]) == Falls(1, 0)
    ensures SafeOutcome(DoSetGlobal(s, c))
  {
    HasNeeds(s);
    var key := CreateValue(c);
    if key.Str? && key.s !in s.globals {
      NextLive(s, s.(pc := s.pc + 1, globals := s.globals[key.s := Top(s, 0)]), 0);
    }
  }

  lemma JmpSafe(s: State)
    requires Live(s) && AllOk(s.stack) && GlobalsOk(s.globals) && s.func.proto.insts[s.pc].op == Jmp
    ensures Safe(s.(pc := s.func.proto.insts[s.pc].a))
  {
    LiveStands(s);
    JumpsTo(s.func, s.pc, Depth(s), Jmp);
    StaysLive(s, s.(pc := s.func.proto.insts[s.pc].a), Depth(s));
  }

  lemma TestSafe(s: State, pc: nat)
    requires Live(s) && AllOk(s.stack) && GlobalsOk(s.globals) && s.func.proto.insts[s.pc].op == Test
    requires pc == s.func.proto.insts[s.pc].a || pc == s.pc + 1
    ensures s.stack != [] && Safe(s.(pc := pc, stack := s.stack[..|s.stack| - 1]))
  {
    LiveStands(s);
    JumpsTo(s.func, s.pc, Depth(s), Test);
    AllOkSlice(s.stack, 0, |s.stack| - 1);
    StaysLive(s, s.(pc := pc, stack := s.stack[..|s.stack| - 1]), Depth(s) - 1);
  }

  lemma {:induction false} CaptureOk(s: State, ups: seq<Upvalue>, labels: nat)
    requires s.frames != [] && AllOk(s.stack) && s.frames[|s.frames| - 1].top + labels < |s.stack|
    requires forall k | 0 <= k < |ups| :: ups[k].lv == 1 && ups[k].idx < labels
    ensures Capture(s, ups).Some? && AllOk(Capture(s, ups).value) && |Capture(s, ups).value| == |ups|
  {
    if ups != [] { CaptureOk(s, ups[1..], labels); }
  }

  lemma LambdaSafe(s: State, a: nat, b: int)
    requires Live(s) && AllOk(s.stack) && GlobalsOk(s.globals) && s.func.proto.insts[s.pc] == Inst(Lambda, a, b)
    ensures SafeOutcome(DoLambda(s, a, b))
  {
    HasNeeds(s);
    OperandHere(s.func, s.pc);
    var p := s.func.proto.prots[a];
    assert LocalCaptures(p);
    CaptureOk(s, p.ups, Slots(s.func.narg));
    var f := Function(b, p, Capture(s, p.ups).value);
    assert FunOk(f);
    NextSafe(s, 0, [Fun(f)]);
  }

  // ---------------------------------------------------------------- calls

  /** The frame stack with one frame more, whose caller goes on at `ret` with its result on the stack. */
  lemma FramesPush(frames: seq<Frame>, f: Frame)
    requires FramesOk(frames) && frames != []
    requires Placed(f.func, f.ret, frames[|frames| - 1].top, f.top + 1) && frames[|frames| - 1].top < f.top
    ensures FramesOk(frames + [f])
  {
    var more := frames + [f];
    forall k: nat | k < |more| ensures FrameOk(more, k) {
      if k < |frames| { assert FrameOk(frames, k); }
    }
  }

  lemma FramesPop(frames: seq<Frame>)
    requires FramesOk(frames) && frames != []
    ensures FramesOk(frames[..|frames| - 1])
  {
    var fewer := frames[..|frames| - 1];
    forall k: nat | k < |fewer| ensures FrameOk(fewer, k) {
      assert FrameOk(frames, k);
    }
  }

  /** A state about to call: what lies on the stack, and the frame that the callee is to have. */
  lemma EntersFunction(s: State, t: State, narg: nat, frame: Frame)
    requires narg < |s.stack| && AllOk(s.stack) && GlobalsOk(s.globals)
    requires s.stack[|s.stack| - narg - 1].Fun? && frame.top == |s.stack| - narg - 1
    requires FramesOk(s.frames + [frame])
    requires var f := s.stack[frame.top].f;
      var args := s.stack[frame.top + 1..];
      && (f.narg >= 0 ==> f.narg == narg)
      && t == State(0, f, s.stack[..frame.top + 1] + (if f.narg < 0 then [Vec(args)] else args) + f.upvalues,
                    s.frames + [frame], s.globals)
    ensures Safe(t)
  {
    var f := s.stack[frame.top].f;
    var args := s.stack[frame.top + 1..];
    assert ValueOk(s.stack[frame.top]);
    Starts(f);
    AllOkSlice(s.stack, frame.top + 1, |s.stack|);
    var given := if f.narg < 0 then [Vec(args)] else args;
    assert AllOk(given) by { assert ValueOk(Vec(args)); }
    AllOkConcat(s.stack[..frame.top + 1], given);
    AllOkConcat(s.stack[..frame.top + 1] + given, f.upvalues);
    assert |given| == Slots(f.narg);
    assert Placed(f, 0, frame.top, |t.stack|);
  }

  /** What a call makes of a state whose caller will be well placed afterwards. */
  lemma CallSafe(host: Host, s: State, narg: nat, ret: nat)
    requires HostOk(host) && narg < |s.stack| && AllOk(s.stack) && GlobalsOk(s.globals)
    requires FramesOk(s.frames + [Frame(s.func, |s.stack| - narg - 1, ret)])
    requires forall t: State | t.func == s.func && t.frames == s.frames && t.pc == ret
             && |t.stack| == |s.stack| - narg ::
      Live(t) || Finished(t)
    ensures SafeOutcome(DoCall(host, s, narg, ret))
  {
    var at := |s.stack| - narg - 1;
    var args := s.stack[at + 1..];
    var o := DoCall(host, s, narg, ret);
    AllOkSlice(s.stack, at + 1, |s.stack|);
    AllOkSlice(s.stack, 0, at);
    assert ValueOk(s.stack[at]);
    match s.stack[at]
    case Fun(f) =>
      if o.Running? { EntersFunction(s, o.s, narg, Frame(s.func, at, ret)); }
    case Native(id) =>
      var r := host.native(id, args);
      var v := if r.Some? then r.value else Nil;
      assert ValueOk(v);
      AllOkConcat(s.stack[..at], [v]);
    case Vec(elems) =>
      if o.Running? {
        var v := elems[Truncate(args[0].n)];
        assert AllOk(elems) && ValueOk(v);
        AllOkConcat(s.stack[..at], [v]);
      }
    case _ =>
  }

  lemma PlainCallSafe(host: Host, s: State, a: nat)
    requires HostOk(host) && Live(s) && AllOk(s.stack) && GlobalsOk(s.globals)
    requires s.func.proto.insts[s.pc].op == Call && a == s.func.proto.insts[s.pc].a
    ensures a < |s.stack| && SafeOutcome(DoCall(host, s, a, s.pc + 1))
  {
    CallFrames(s, a);
    assert EffectOf(s.func.proto.insts[s.pc]) == Falls(a + 1, -(a as int));
    forall t: State | t.func == s.func && t.frames == s.frames && t.pc == s.pc + 1 && |t.stack| == |s.stack| - a
      ensures Live(t)
    {
      NextLive(s, t, -(a as int));
    }
    CallSafe(host, s, a, s.pc + 1);
  }

  lemma CallFrames(s: State, a: nat)
    requires Live(s) && (s.func.proto.insts[s.pc].op == Call || s.func.proto.insts[s.pc].op == TailCall)
    requires a == s.func.proto.insts[s.pc].a
    ensures a < |s.stack| && s.frames[|s.frames| - 1].top < |s.stack| - a - 1
    ensures FramesOk(s.frames + [Frame(s.func, |s.stack| - a - 1, s.pc + 1)])
  {
    LiveStands(s);
    FallsTo(s.func, s.pc, Depth(s));
    FramesPush(s.frames, Frame(s.func, |s.stack| - a - 1, s.pc + 1));
  }

  /** A frame given up: its caller goes on where the callee would have returned to. */
  lemma CallerStands(frames: seq<Frame>, t: State)
    requires FramesOk(frames) && frames != []
    requires var f := frames[|frames| - 1];
      t.func == f.func && t.pc == f.ret && t.frames == frames[..|frames| - 1] && |t.stack| == f.top + 1
    ensures Live(t) || Finished(t)
  {
    var last := |frames| - 1;
    assert FrameOk(frames, last);
    if last > 0 {
      FramesPop(frames);
      assert t.frames[|t.frames| - 1] == frames[last - 1];
    }
  }

  lemma TailCallSafe(host: Host, s: State, a: nat)
    requires HostOk(host) && Live(s) && AllOk(s.stack) && GlobalsOk(s.globals)
    requires s.func.proto.insts[s.pc].op == TailCall && a == s.func.proto.insts[s.pc].a
    ensures SafeOutcome(DoTailCall(host, s, a))
  {
    var moved := TailMoved(s, a);
    var f := s.frames[|s.frames| - 1];
    TailCallIs(host, s, a, moved.frames, f, s.stack[..f.top], s.stack[|s.stack| - a - 1..]);
    assert DoTailCall(host, s, a) == DoCall(host, moved, a, f.ret);
    CallerGoesOn(s.frames, moved, a);
    CallSafe(host, moved, a, f.ret);
  }

  lemma CallerGoesOn(frames: seq<Frame>, moved: State, a: nat)
    requires FramesOk(frames) && frames != []
    requires var f := frames[|frames| - 1];
      moved.func == f.func && moved.frames == frames[..|frames| - 1] && |moved.stack| - a == f.top + 1
    ensures forall t: State | t.func == moved.func && t.frames == moved.frames && t.pc == frames[|frames| - 1].ret
      && |t.stack| == |moved.stack| - a :: Live(t) || Finished(t)
  {
    forall t: State | t.func == moved.func && t.frames == moved.frames && t.pc == frames[|frames| - 1].ret
      && |t.stack| == |moved.stack| - a
      ensures Live(t) || Finished(t)
    {
      CallerStands(frames, t);
    }
  }

  /** The state in which a tail call is an ordinary one, made by the caller of the current function. */
  lemma TailMoved(s: State, a: nat) returns (moved: State)
    requires Live(s) && AllOk(s.stack)
    requires s.func.proto.insts[s.pc].op == TailCall && a == s.func.proto.insts[s.pc].a
    ensures a < |s.stack| && s.frames[|s.frames| - 1].top <= |s.stack| - a - 1
    ensures var f := s.frames[|s.frames| - 1];
      && moved == State(s.pc, f.func, s.stack[..f.top] + s.stack[|s.stack| - a - 1..],
                        s.frames[..|s.frames| - 1], s.globals)
      && FramesOk(moved.frames + [Frame(f.func, |moved.stack| - a - 1, f.ret)])
    ensures AllOk(moved.stack)
  {
    CallFrames(s, a);
    var f := s.frames[|s.frames| - 1];
    var at := |s.stack| - a - 1;
    var rest := s.frames[..|s.frames| - 1];
    moved := State(s.pc, f.func, s.stack[..f.top] + s.stack[at..], rest, s.globals);
    AllOkSlice(s.stack, at, |s.stack|);
    AllOkSlice(s.stack, 0, f.top);
    AllOkConcat(s.stack[..f.top], s.stack[at..]);
    assert rest + [Frame(f.func, f.top, f.ret)] == s.frames;
  }

  lemma ReturnSafe(s: State)
    requires Live(s) && AllOk(s.stack) && GlobalsOk(s.globals) && s.func.proto.insts[s.pc].op == Return
    ensures SafeOutcome(DoReturn(s))
  {
    LiveStands(s);
    AtReturn(s.func, s.pc, Depth(s));
    var f := s.frames[|s.frames| - 1];
    var t := State(f.ret, f.func, s.stack[..f.top] + [Top(s, 0)], s.frames[..|s.frames| - 1], s.globals);
    AllOkSlice(s.stack, 0, f.top);
    AllOkConcat(s.stack[..f.top], [Top(s, 0)]);
    CallerStands(s.frames, t);
  }

  // ---------------------------------------------------------------- the theorem

  lemma ReadSafe(m: Machine, host: Host, s: State)
    requires IsLoop(m, host)
    requires Live(s) && AllOk(s.stack) && GlobalsOk(s.globals)
    requires s.func.proto.insts[s.pc].op == Copy || s.func.proto.insts[s.pc].op == Load
    ensures SafeOutcome(m(s))
  {
    var i := s.func.proto.insts[s.pc];
    OperandHere(s.func, s.pc);
    StepAccess(m, host, s);
    FetchSafe(s, if i.op == Copy then i.a else i.a + 1);
  }

  lemma GlobalSafe(m: Machine, host: Host, s: State)
    requires IsLoop(m, host)
    requires Live(s) && AllOk(s.stack) && GlobalsOk(s.globals)
    requires s.func.proto.insts[s.pc].op == GetGlobal || s.func.proto.insts[s.pc].op == SetGlobal
    ensures SafeOutcome(m(s))
  {
    var i := s.func.proto.insts[s.pc];
    OperandHere(s.func, s.pc);
    StepAccess(m, host, s);
    if i.op == GetGlobal {
      GetGlobalSafe(s, s.func.proto.consts[i.a]);
    } else {
      SetGlobalSafe(s, s.func.proto.consts[i.a]);
    }
  }

  lemma ClosureSafe(m: Machine, host: Host, s: State)
    requires IsLoop(m, host)
    requires Live(s) && AllOk(s.stack) && GlobalsOk(s.globals)
    requires s.func.proto.insts[s.pc].op == Lambda
    ensures SafeOutcome(m(s))
  {
    var i := s.func.proto.insts[s.pc];
    StepAccess(m, host, s);
    LambdaSafe(s, i.a, i.b);
  }

  lemma JumpSafe(m: Machine, host: Host, s: State)
    requires IsLoop(m, host)
    requires Live(s) && AllOk(s.stack) && GlobalsOk(s.globals)
    requires s.func.proto.insts[s.pc].op == Jmp || s.func.proto.insts[s.pc].op == Test
    ensures SafeOutcome(m(s))
  {
    var i := s.func.proto.insts[s.pc];
    StepJumps(m, host, s);
    if i.op == Jmp {
      JmpSafe(s);
    } else {
      TestSafe(s, if s.stack != [] && Truthy(Top(s, 0)) then i.a else s.pc + 1);
    }
  }

  lemma ControlSafe(m: Machine, host: Host, s: State)
    requires IsLoop(m, host)
    requires HostOk(host) && Live(s) && AllOk(s.stack) && GlobalsOk(s.globals)
    requires var op := s.func.proto.insts[s.pc].op; op == Call || op == TailCall || op == Return
    ensures SafeOutcome(m(s))
  {
    var i := s.func.proto.insts[s.pc];
    StepCalls(m, host, s);
    if i.op == Call {
      PlainCallSafe(host, s, i.a);
    } else if i.op == TailCall {
      TailCallSafe(host, s, i.a);
    } else {
      ReturnSafe(s);
    }
  }

  /** Every turn keeps a safe state safe, raises an error of the language, or ends the run. */
  lemma StepSafe(m: Machine, host: Host, s: State)
    requires IsLoop(m, host)
    requires HostOk(host) && Safe(s)
    ensures SafeOutcome(m(s))
  {
    if s.pc >= |s.func.proto.insts| {
      StepEnds(m, host, s);
    } else {
      match s.func.proto.insts[s.pc].op
      case Push | Pop => PushSafe(m, host, s);
      case Unm | Not => OneOperandSafe(m, host, s);
      case Eq | And | Or => TwoOperandsSafe(m, host, s);
      case Add | Sub | Mul | Div | Mod | Pow | Less | LessEqual => BinarySafe(m, host, s);
      case Copy | Load => ReadSafe(m, host, s);
      case GetGlobal | SetGlobal => GlobalSafe(m, host, s);
      case Lambda => ClosureSafe(m, host, s);
      case Jmp | Test => JumpSafe(m, host, s);
      case Call | TailCall | Return => ControlSafe(m, host, s);
    }
  }

  lemma {:induction false} StepsSafe(m: Machine, host: Host, o: Outcome, n: nat)
    requires IsLoop(m, host) && HostOk(host) && SafeOutcome(o)
    ensures SafeOutcome(Steps(m, o, n))
    decreases n
  {
    if n > 0 && o.Running? {
      StepSafe(m, host, o.s);
      StepsSafe(m, host, m(o.s), n - 1);
    }
  }

  /** su_load and su_call: the function of a whole program, called with one argument. */
  function Start(p: Proto, arg: Value): State {
    var f := Function(-1, p, []);
    State(0, f, [Fun(f), arg], [Frame(f, 0, 0xffff)], map[])
  }

  lemma NoCaptures(ups: seq<Upvalue>)
    requires CapturesOk(ups, 0) && forall k | 0 <= k < |ups| :: ups[k].lv == 1
    ensures ups == []
  {
    assert ups != [] ==> ups[0].lv == 1;
  }

  lemma StartSafe(p: Proto, arg: Value)
    requires CodeSafe(-1, p) && p.ups == [] && |p.insts| <= 0xffff && ValueOk(arg)
    ensures Safe(Start(p, arg))
  {
    var f := Function(-1, p, []);
    var s := Start(p, arg);
    assert FunOk(f);
    Starts(f);
    assert FrameOk(s.frames, 0);
    assert Placed(f, 0, 0, 2);
  }

  /** A program compiled from source without two-operand `not`, whose operands fit their bytes and whose
      captures are local, never gets stuck, however long it runs. */
  lemma CompiledNeverStuck(host: Host, e: Sexp, p: Proto, arg: Value, n: nat)
    requires HostOk(host) && Clean(e, false) && GenTop(e) == Some(p)
    requires Fits(p) && LocalCaptures(p) && |p.insts| <= 0xffff && ValueOk(arg)
    ensures !Steps(Loop(host), Running(Start(Encode(p), arg)), n).Stuck?
  {
    EncodeFits(p);
    CompiledIsOk(e);
    NoCaptures(p.ups);
    StartSafe(p, arg);
    StepsSafe(Loop(host), host, Running(Start(p, arg)), n);
  }
}
