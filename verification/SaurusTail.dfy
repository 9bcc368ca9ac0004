/** Tail calls: TCALL n has the same outcome as CALL n followed by RETURN, and keeps no frame
    (src/vm/core.c). */
module SaurusTail {
  import opened SaurusGen
  import opened SaurusVm
  import opened SaurusStack
  import opened SaurusSafety

  /** What an ordinary call keeps and a tail call does not: the caller's frame, above `frames` others,
      and the caller's values, above `size` others. */
  datatype Gap = Gap(frames: nat, size: nat, values: seq<Value>, frame: Frame)

  function Raise(frames: seq<Frame>, d: nat): (r: seq<Frame>)
    ensures |r| == |frames| && forall k | 0 <= k < |r| :: r[k] == frames[k].(top := frames[k].top + d)
  {
    seq(|frames|, k requires 0 <= k < |frames| => frames[k].(top := frames[k].top + d))
  }

  function LiftStack(stack: seq<Value>, gap: Gap): seq<Value>
    requires gap.size <= |stack|
  {
    stack[..gap.size] + gap.values + stack[gap.size..]
  }

  function LiftFrames(frames: seq<Frame>, gap: Gap): seq<Frame>
    requires gap.frames <= |frames|
  {
    frames[..gap.frames] + [gap.frame] + Raise(frames[gap.frames..], |gap.values|)
  }

  /** The same state of a run in which the ordinary call was made. */
  function Lift(s: State, gap: Gap): State
    requires gap.size <= |s.stack| && gap.frames <= |s.frames|
  {
    s.(stack := LiftStack(s.stack, gap), frames := LiftFrames(s.frames, gap))
  }

  /** The gap lies at the foot of a frame that both runs share, and its own frame is about to return. */
  ghost predicate GapOk(s: State, gap: Gap) {
    && 1 <= gap.frames <= |s.frames| && gap.size <= |s.stack|
    && s.frames[gap.frames - 1].top == gap.size
    && (forall k | gap.frames <= k < |s.frames| :: s.frames[k].top > gap.size)
    && gap.frame.top == gap.size + |gap.values|
    && gap.frame.ret < |gap.frame.func.proto.insts| && gap.frame.func.proto.insts[gap.frame.ret].op == Return
  }

  /** What one turn of each run makes of two states a gap apart: still a gap apart, or one RETURN apart. */
  ghost predicate Follows(m: Machine, o: Outcome, lifted: Outcome, gap: Gap) {
    match o
    case Running(t) =>
      || (GapOk(t, gap) && lifted == Running(Lift(t, gap)))
      || (lifted.Running? && m(lifted.s) == o)
    case _ => lifted == o
  }

  lemma LiftTop(s: State, gap: Gap, k: nat)
    requires GapOk(s, gap) && k < |s.stack| - gap.size
    ensures k < |Lift(s, gap).stack| && Top(Lift(s, gap), k) == Top(s, k)
  {
  }

  lemma LastTop(s: State, gap: Gap)
    requires GapOk(s, gap)
    ensures var frames := Lift(s, gap).frames;
      frames != [] && frames[|frames| - 1].top == s.frames[|s.frames| - 1].top + |gap.values|
  {
  }

  /** An instruction that only replaces values above the gap. */
  lemma LiftNext(s: State, gap: Gap, drop: nat, values: seq<Value>)
    requires GapOk(s, gap) && drop <= |s.stack| - gap.size
    ensures drop <= |Lift(s, gap).stack|
    ensures GapOk(Next(s, drop, values).s, gap)
    ensures Next(Lift(s, gap), drop, values) == Running(Lift(Next(s, drop, values).s, gap))
  {
    var t := s.stack[..|s.stack| - drop] + values;
    assert LiftStack(s.stack, gap)[..|LiftStack(s.stack, gap)| - drop] + values == LiftStack(t, gap) by {
      assert t[..gap.size] == s.stack[..gap.size];
      assert t[gap.size..] == s.stack[gap.size..][..|s.stack| - gap.size - drop] + values;
    }
  }

  lemma LiftAt(stack: seq<Value>, gap: Gap, k: nat)
    requires gap.size <= k < |stack|
    ensures k + |gap.values| < |LiftStack(stack, gap)| && LiftStack(stack, gap)[k + |gap.values|] == stack[k]
  {
  }

  lemma LiftFetch(s: State, gap: Gap, offset: nat)
    requires GapOk(s, gap) && s.frames[|s.frames| - 1].top + offset < |s.stack|
    ensures Follows0(DoFetch(s, offset), DoFetch(Lift(s, gap), offset), gap)
  {
    var at := s.frames[|s.frames| - 1].top + offset;
    LastTop(s, gap);
    LiftAt(s.stack, gap, at);
    assert DoFetch(s, offset) == Next(s, 0, [s.stack[at]]);
    assert DoFetch(Lift(s, gap), offset) == Next(Lift(s, gap), 0, [s.stack[at]]);
    LiftNext(s, gap, 0, [s.stack[at]]);
  }

  /** Still a gap apart, or the same error. */
  ghost predicate Follows0(o: Outcome, lifted: Outcome, gap: Gap) {
    match o
    case Running(t) => GapOk(t, gap) && lifted == Running(Lift(t, gap))
    case _ => lifted == o
  }

  /** The values above the last frame's foot, `d` places higher up. */
  ghost predicate SameAbove(s: State, u: State, d: nat) {
    && s.frames != [] && u.frames != [] && u.frames[|u.frames| - 1].top == s.frames[|s.frames| - 1].top + d
    && |u.stack| == |s.stack| + d
    && (forall k | s.frames[|s.frames| - 1].top <= k < |s.stack| :: u.stack[k + d] == s.stack[k])
  }

  lemma {:induction false} SameCapture(s: State, u: State, d: nat, ups: seq<Upvalue>)
    requires SameAbove(s, u, d) && (forall k | 0 <= k < |ups| :: ups[k].lv == 1) && Capture(s, ups).Some?
    ensures Capture(u, ups) == Capture(s, ups)
  {
    if ups != [] { SameCapture(s, u, d, ups[1..]); }
  }

  lemma {:induction false} LiftCapture(s: State, gap: Gap, ups: seq<Upvalue>)
    requires GapOk(s, gap) && (forall k | 0 <= k < |ups| :: ups[k].lv == 1) && Capture(s, ups).Some?
    ensures Capture(Lift(s, gap), ups) == Capture(s, ups)
  {
    LastTop(s, gap);
    SameCapture(s, Lift(s, gap), |gap.values|, ups);
  }

  lemma LiftLambda(s: State, gap: Gap, a: nat, b: int)
    requires GapOk(s, gap) && a < |s.func.proto.prots| && LocalCaptures(s.func.proto.prots[a])
    requires Capture(s, s.func.proto.prots[a].ups).Some?
    ensures Follows0(DoLambda(s, a, b), DoLambda(Lift(s, gap), a, b), gap)
  {
    var p := s.func.proto.prots[a];
    LiftCapture(s, gap, p.ups);
    LiftNext(s, gap, 0, [Fun(Function(b, p, Capture(s, p.ups).value))]);
  }

  // ---------------------------------------------------------------- calls above the gap

  /** The callee and the arguments of a call above the gap. */
  lemma LiftArgs(s: State, gap: Gap, at: nat)
    requires GapOk(s, gap) && gap.size < at < |s.stack|
    ensures var u := LiftStack(s.stack, gap); var d := |gap.values|;
      at + d < |u| && u[at + d] == s.stack[at] && u[at + d + 1..] == s.stack[at + 1..]
      && u[..at + d] == LiftStack(s.stack[..at], gap)
  {
  }

  /** A call that delivers its result at once. */
  lemma LiftResult(s: State, gap: Gap, at: nat, ret: nat, v: Value)
    requires GapOk(s, gap) && gap.size < at < |s.stack|
    ensures var t := s.(pc := ret, stack := s.stack[..at] + [v]);
      GapOk(t, gap) && Lift(t, gap) == Lift(s, gap).(pc := ret, stack := LiftStack(s.stack[..at], gap) + [v])
  {
    var t := s.stack[..at] + [v];
    assert t[..gap.size] == s.stack[..gap.size];
    assert t[gap.size..] == s.stack[..at][gap.size..] + [v];
  }

  lemma LiftCall(host: Host, s: State, gap: Gap, narg: nat, ret: nat)
    requires GapOk(s, gap) && narg < |s.stack| - gap.size - 1
    ensures narg < |Lift(s, gap).stack|
    ensures Follows0(DoCall(host, s, narg, ret), DoCall(host, Lift(s, gap), narg, ret), gap)
  {
    if s.stack[|s.stack| - narg - 1].Fun? {
      LiftCallFun(host, s, gap, narg, ret);
    } else {
      LiftCallOther(host, s, gap, narg, ret);
    }
  }

  /** What a callee that is no function delivers, from the callee and its arguments alone. */
  function Answer(host: Host, callee: Value, args: seq<Value>): Result {
    match callee
    case Native(id) => var r := host.native(id, args); Ok(if r.Some? then r.value else Nil)
    case Vec(elems) =>
      if |args| == 0 then Err(TooFewArguments)
      else if |args| > 1 then Err(NotImplemented)
      else if !args[0].Num? then Err(BadArgument(TypeOf(args[0])))
      else
        var i := Truncate(args[0].n);
        if 0 <= i < |elems| then Ok(elems[i]) else Err(IndexOutOfBounds(i))
    case _ => Err(NotCallable(TypeOf(callee)))
  }

  lemma CallDelivers(host: Host, s: State, narg: nat, at: nat, ret: nat)
    requires narg < |s.stack| && at == |s.stack| - narg - 1 && !s.stack[at].Fun?
    ensures DoCall(host, s, narg, ret)
         == match Answer(host, s.stack[at], s.stack[at + 1..])
            case Ok(v) => Running(s.(pc := ret, stack := s.stack[..at] + [v]))
            case Err(e) => Raised(e)
  {
  }

  lemma LiftCallOther(host: Host, s: State, gap: Gap, narg: nat, ret: nat)
    requires GapOk(s, gap) && narg < |s.stack| - gap.size - 1 && !s.stack[|s.stack| - narg - 1].Fun?
    ensures narg < |Lift(s, gap).stack|
    ensures Follows0(DoCall(host, s, narg, ret), DoCall(host, Lift(s, gap), narg, ret), gap)
  {
    var at := |s.stack| - narg - 1;
    LiftArgs(s, gap, at);
    CallDelivers(host, s, narg, at, ret);
    CallDelivers(host, Lift(s, gap), narg, at + |gap.values|, ret);
    var r := Answer(host, s.stack[at], s.stack[at + 1..]);
    if r.Ok? { LiftResult(s, gap, at, ret, r.value); }
  }

  function Arrange(f: Function, args: seq<Value>): seq<Value> {
    (if f.narg < 0 then [Vec(args)] else args) + f.upvalues
  }

  lemma CallEnters(host: Host, s: State, narg: nat, at: nat, ret: nat, f: Function, args: seq<Value>)
    requires narg < |s.stack| && at == |s.stack| - narg - 1 && s.stack[at] == Fun(f) && args == s.stack[at + 1..]
    ensures DoCall(host, s, narg, ret)
         == if f.narg >= 0 && f.narg != narg then Raised(BadArity(f.narg, narg))
            else Running(State(0, f, s.stack[..at + 1] + Arrange(f, args), s.frames + [Frame(s.func, at, ret)],
                s.globals))
  {
    Assoc(s.stack[..at + 1], if f.narg < 0 then [Vec(args)] else args, f.upvalues);
  }

  lemma LiftCallFun(host: Host, s: State, gap: Gap, narg: nat, ret: nat)
    requires GapOk(s, gap) && narg < |s.stack| - gap.size - 1 && s.stack[|s.stack| - narg - 1].Fun?
    ensures narg < |Lift(s, gap).stack|
    ensures Follows0(DoCall(host, s, narg, ret), DoCall(host, Lift(s, gap), narg, ret), gap)
  {
    var at := |s.stack| - narg - 1;
    var f, args := s.stack[at].f, s.stack[at + 1..];
    LiftArgs(s, gap, at);
    CallEnters(host, s, narg, at, ret, f, args);
    CallEnters(host, Lift(s, gap), narg, at + |gap.values|, ret, f, args);
    LiftEnter(s, gap, at, ret, Arrange(f, args));
    EnterGapOk(s, gap, at, ret, f, Arrange(f, args));
  }

  lemma EnterGapOk(s: State, gap: Gap, at: nat, ret: nat, f: Function, rest: seq<Value>)
    requires GapOk(s, gap) && gap.size < at < |s.stack|
    ensures GapOk(State(0, f, s.stack[..at + 1] + rest, s.frames + [Frame(s.func, at, ret)], s.globals), gap)
  {
  }

  lemma Assoc(a: seq<Value>, b: seq<Value>, c: seq<Value>)
    ensures a + b + c == a + (b + c)
  {
  }

  lemma LiftEnter(s: State, gap: Gap, at: nat, ret: nat, rest: seq<Value>)
    requires GapOk(s, gap) && gap.size < at < |s.stack|
    ensures LiftStack(s.stack[..at + 1] + rest, gap) == LiftStack(s.stack, gap)[..at + |gap.values| + 1] + rest
    ensures LiftFrames(s.frames + [Frame(s.func, at, ret)], gap)
         == LiftFrames(s.frames, gap) + [Frame(s.func, at + |gap.values|, ret)]
  {
    var t := s.stack[..at + 1] + rest;
    assert t[..gap.size] == s.stack[..gap.size];
    assert t[gap.size..] == s.stack[gap.size..at + 1] + rest;
    assert LiftStack(s.stack,
           gap)[..at + |gap.values| + 1] == s.stack[..gap.size] + gap.values + s.stack[gap.size..at + 1];
    var frame := Frame(s.func, at, ret);
    assert (s.frames + [frame])[gap.frames..] == s.frames[gap.frames..] + [frame];
    assert (s.frames + [frame])[..gap.frames] == s.frames[..gap.frames];
  }

  // ---------------------------------------------------------------- calls and returns at the gap

  /** One run is back in the caller of both; the other is about to return there. */
  lemma ReturnAgrees(m: Machine, host: Host, t: State, u: State, p: seq<Value>, values: seq<Value>, v: Value, f: Frame)
    requires IsLoop(m, host)
    requires t.stack == p + [v] && t.pc == f.ret && t.func == f.func && f.top == |p|
    requires u.stack == p + values + [v] && u.frames == t.frames + [f] && u.globals == t.globals
    requires u.pc < |u.func.proto.insts| && u.func.proto.insts[u.pc].op == Return
    ensures m(u) == Running(t)
  {
    StepCalls(m, host, u);
    assert u.frames[|u.frames| - 1] == f && u.frames[..|u.frames| - 1] == t.frames;
    assert u.stack[..f.top] == p && Top(u, 0) == v;
  }

  /** The same call made by the caller of `f` in its place, and by `y` above `f`. */
  lemma BaseCall(m: Machine, host: Host, x: State, y: State, p: seq<Value>, values: seq<Value>, tail: seq<Value>,
                 f: Frame, ret: nat)
    requires IsLoop(m, host)
    requires tail != [] && x.stack == p + tail && y.stack == p + values + tail && x.globals == y.globals
    requires x.func == f.func && y.frames == x.frames + [f] && f.top == |p|
    requires forall k | 0 <= k < |x.frames| :: x.frames[k].top < f.top
    requires ret < |y.func.proto.insts| && y.func.proto.insts[ret].op == Return
    ensures Follows(m, DoCall(host, x, |tail| - 1, f.ret), DoCall(host, y, |tail| - 1, ret),
                    Gap(|x.frames| + 1, |p|, values, Frame(y.func, |p| + |values|, ret)))
  {
    var args := tail[1..];
    assert x.stack[|p|] == tail[0] && x.stack[|p| + 1..] == args && x.stack[..|p|] == p;
    assert y.stack[|p| + |values|] == tail[0] && y.stack[|p| + |values| + 1..] == args
           && y.stack[..|p| + |values|] == p + values;
    if tail[0].Fun? {
      BaseCallFun(host, x, y, p, values, tail, f, ret);
    } else {
      var o, q := DoCall(host, x, |tail| - 1, f.ret), DoCall(host, y, |tail| - 1, ret);
      if o.Running? {
        var v := o.s.stack[|p|];
        assert o.s.stack == p + [v] && q.s.stack == p + values + [v];
        ReturnAgrees(m, host, o.s, q.s, p, values, v, f);
      }
    }
  }

  lemma BaseCallFun(host: Host, x: State, y: State, p: seq<Value>, values: seq<Value>, tail: seq<Value>, f: Frame,
                    ret: nat)
    requires tail != [] && x.stack == p + tail && y.stack == p + values + tail && x.globals == y.globals && tail[0].Fun?
    requires x.func == f.func && y.frames == x.frames + [f] && f.top == |p|
    requires ret < |y.func.proto.insts| && y.func.proto.insts[ret].op == Return
    ensures Follows0(DoCall(host, x, |tail| - 1, f.ret), DoCall(host, y, |tail| - 1, ret),
                     Gap(|x.frames| + 1, |p|, values, Frame(y.func, |p| + |values|, ret)))
  {
    var g, args, d := tail[0].f, tail[1..], |values|;
    var gap := Gap(|x.frames| + 1, |p|, values, Frame(y.func, |p| + d, ret));
    CallEnters(host, x, |tail| - 1, |p|, f.ret, g, args);
    CallEnters(host, y, |tail| - 1, |p| + d, ret, g, args);
    var o := DoCall(host, x, |tail| - 1, f.ret);
    if o.Running? {
      assert x.stack[..|p| + 1] == p + [tail[0]] && y.stack[..|p| + d + 1] == p + values + [tail[0]];
      Assoc(p, [tail[0]], Arrange(g, args));
      assert o.s.stack[..|p|] == p && o.s.stack[|p|..] == [tail[0]] + Arrange(g, args);
      Assoc(p + values, [tail[0]], Arrange(g, args));
      assert Frame(x.func, |p|, f.ret) == f;
      assert o.s.frames[..gap.frames] == x.frames + [f] && Raise(o.s.frames[gap.frames..], d) == [];
    }
  }

  lemma LiftTailCall(m: Machine, host: Host, s: State, gap: Gap, narg: nat)
    requires IsLoop(m, host)
    requires FramesOk(s.frames) && GapOk(s, gap) && s.frames[|s.frames| - 1].top < |s.stack| - narg - 1
    ensures Follows(m, DoTailCall(host, s, narg), DoTailCall(host, Lift(s, gap), narg), gap)
  {
    if |s.frames| == gap.frames { TailCallAtGap(m, host, s, gap, narg); } else { TailCallAboveGap(m, host, s, gap,
        narg); }
  }

  lemma TailCallAtGap(m: Machine, host: Host, s: State, gap: Gap, narg: nat)
    requires IsLoop(m, host)
    requires FramesOk(s.frames) && GapOk(s, gap) && s.frames[|s.frames| - 1].top < |s.stack| - narg - 1
    requires |s.frames| == gap.frames
    ensures Follows(m, DoTailCall(host, s, narg), DoTailCall(host, Lift(s, gap), narg), gap)
  {
    var last, at := |s.frames| - 1, |s.stack| - narg - 1;
    var f, tail, p := s.frames[last], s.stack[at..], s.stack[..gap.size];
    var moved := State(s.pc, f.func, p + tail, s.frames[..last], s.globals);
    var lower := State(s.pc, gap.frame.func, p + gap.values + tail, s.frames, s.globals);
    TailCallIs(host, s, narg, s.frames[..last], f, p, tail);
    UpperTailCall(host, s, gap, narg, at, lower);
    AtGapBase(m, host, s, gap, tail, moved, lower);
  }

  lemma AtGapBase(m: Machine, host: Host, s: State, gap: Gap, tail: seq<Value>, moved: State, lower: State)
    requires IsLoop(m, host) && FramesOk(s.frames) && GapOk(s, gap) && |s.frames| == gap.frames && tail != []
    requires var f := s.frames[|s.frames| - 1];
      moved == State(s.pc, f.func, s.stack[..gap.size] + tail, s.frames[..|s.frames| - 1], s.globals)
    requires lower == State(s.pc, gap.frame.func, s.stack[..gap.size] + gap.values + tail, s.frames, s.globals)
    ensures Follows(m, DoCall(host, moved, |tail| - 1, s.frames[|s.frames| - 1].ret),
                    DoCall(host, lower, |tail| - 1, gap.frame.ret), gap)
  {
    var last, p := |s.frames| - 1, s.stack[..gap.size];
    TopsRise(s.frames, last);
    assert lower.frames == moved.frames + [s.frames[last]];
    assert gap == Gap(|moved.frames| + 1, |p|, gap.values, Frame(lower.func, |p| + |gap.values|, gap.frame.ret));
    BaseCall(m, host, moved, lower, p, gap.values, tail, s.frames[last], gap.frame.ret);
  }

  lemma UpperTailCall(host: Host, s: State, gap: Gap, narg: nat, at: nat, lower: State)
    requires GapOk(s, gap) && |s.frames| == gap.frames && gap.size < at && at == |s.stack| - narg - 1
    requires lower == State(s.pc, gap.frame.func, s.stack[..gap.size] + gap.values + s.stack[at..], s.frames, s.globals)
    ensures DoTailCall(host, Lift(s, gap), narg) == DoCall(host, lower, narg, gap.frame.ret)
  {
    LiftedAtGap(s, gap, at);
    TailCallIs(host, Lift(s, gap), narg, s.frames, gap.frame, s.stack[..gap.size] + gap.values, s.stack[at..]);
  }

  lemma LiftedAtGap(s: State, gap: Gap, at: nat)
    requires GapOk(s, gap) && |s.frames| == gap.frames && gap.size < at < |s.stack|
    ensures var u := Lift(s, gap);
      && u.frames == s.frames + [gap.frame] && |u.stack| == |s.stack| + |gap.values|
      && u.stack[..gap.frame.top] == s.stack[..gap.size] + gap.values
      && u.stack[at + |gap.values|..] == s.stack[at..]
  {
  }

  lemma TailCallAboveGap(m: Machine, host: Host, s: State, gap: Gap, narg: nat)
    requires IsLoop(m, host) && GapOk(s, gap) && s.frames[|s.frames| - 1].top < |s.stack| - narg - 1
             && |s.frames| > gap.frames
    ensures Follows(m, DoTailCall(host, s, narg), DoTailCall(host, Lift(s, gap), narg), gap)
  {
    var last, at := |s.frames| - 1, |s.stack| - narg - 1;
    var rest, f, tail, u := s.frames[..last], s.frames[last], s.stack[at..], Lift(s, gap);
    var moved := State(s.pc, f.func, s.stack[..f.top] + tail, rest, s.globals);
    TailCallIs(host, s, narg, rest, f, s.stack[..f.top], tail);
    LiftMoved(s, gap, at, moved);
    LiftArgs(s, gap, at);
    var g := u.frames[|u.frames| - 1];
    TailCallIs(host, u, narg, u.frames[..|u.frames| - 1], g, u.stack[..g.top], tail);
    LiftCall(host, moved, gap, narg, f.ret);
  }

  lemma {:induction false} TopsRise(frames: seq<Frame>, k: nat)
    requires FramesOk(frames) && k < |frames|
    ensures forall j | 0 <= j < k :: frames[j].top < frames[k].top
  {
    if k > 0 {
      TopsRise(frames, k - 1);
      assert FrameOk(frames, k);
    }
  }

  /** Giving up a frame above the gap. */
  lemma LiftMoved(s: State, gap: Gap, at: nat, moved: State)
    requires GapOk(s, gap) && |s.frames| > gap.frames && s.frames[|s.frames| - 1].top < at < |s.stack|
    requires var f := s.frames[|s.frames| - 1];
      moved == State(s.pc, f.func, s.stack[..f.top] + s.stack[at..], s.frames[..|s.frames| - 1], s.globals)
    ensures GapOk(moved, gap)
    ensures var u := Lift(s, gap); var f := u.frames[|u.frames| - 1];
      && f == s.frames[|s.frames| - 1].(top := s.frames[|s.frames| - 1].top + |gap.values|)
      && Lift(moved, gap) == State(s.pc, f.func, u.stack[..f.top] + s.stack[at..],
                                   u.frames[..|u.frames| - 1], s.globals)
  {
    var last := |s.frames| - 1;
    var f := s.frames[last];
    assert moved.stack[..gap.size] == s.stack[..gap.size];
    assert moved.stack[gap.size..] == s.stack[gap.size..f.top] + s.stack[at..];
    assert LiftStack(s.stack,
           gap)[..f.top + |gap.values|] == s.stack[..gap.size] + gap.values + s.stack[gap.size..f.top];
    assert s.frames[..last][gap.frames..] == s.frames[gap.frames..][..last - gap.frames];
    assert s.frames[..last][..gap.frames] == s.frames[..gap.frames];
  }

  lemma LiftReturn(m: Machine, host: Host, s: State, gap: Gap)
    requires IsLoop(m, host) && GapOk(s, gap) && s.frames[|s.frames| - 1].top < |s.stack| - 1
    ensures Follows(m, DoReturn(s), DoReturn(Lift(s, gap)), gap)
  {
    if |s.frames| == gap.frames { ReturnAtGap(m, host, s, gap); } else { ReturnAboveGap(s, gap); }
  }

  lemma ReturnAtGap(m: Machine, host: Host, s: State, gap: Gap)
    requires IsLoop(m, host) && GapOk(s, gap) && gap.size < |s.stack| - 1 && |s.frames| == gap.frames
    ensures Follows(m, DoReturn(s), DoReturn(Lift(s, gap)), gap)
  {
    var last := |s.frames| - 1;
    var f, u := s.frames[last], Lift(s, gap);
    LiftedAtGap(s, gap, |s.stack| - 1);
    LiftTop(s, gap, 0);
    assert u.frames[..|u.frames| - 1] == s.frames == s.frames[..last] + [f];
    ReturnAgrees(m, host, DoReturn(s).s, DoReturn(u).s, s.stack[..f.top], gap.values, Top(s, 0), f);
  }

  lemma ReturnAboveGap(s: State, gap: Gap)
    requires GapOk(s, gap) && s.frames[|s.frames| - 1].top < |s.stack| - 1 && |s.frames| > gap.frames
    ensures Follows0(DoReturn(s), DoReturn(Lift(s, gap)), gap)
  {
    var last, u := |s.frames| - 1, Lift(s, gap);
    var f, tail := s.frames[last], s.stack[|s.stack| - 1..];
    var moved := State(s.pc, f.func, s.stack[..f.top] + tail, s.frames[..last], s.globals);
    LiftTop(s, gap, 0);
    LiftMoved(s, gap, |s.stack| - 1, moved);
    assert tail == [Top(s, 0)];
    assert DoReturn(s) == Running(moved.(pc := f.ret));
    assert DoReturn(u) == Running(Lift(moved, gap).(pc := f.ret));
  }

  // ---------------------------------------------------------------- one turn of both runs

  /** What lies above the gap of a live state is enough for any instruction. */
  lemma Above(s: State, gap: Gap)
    requires Live(s) && GapOk(s, gap)
    ensures EffectOf(s.func.proto.insts[s.pc]).Falls?
            ==> EffectOf(s.func.proto.insts[s.pc]).needs < |s.stack| - gap.size
    ensures s.func.proto.insts[s.pc].op == Test || s.func.proto.insts[s.pc].op == Return ==> 1 < |s.stack| - gap.size
    ensures gap.size <= s.frames[|s.frames| - 1].top < |s.stack|
  {
    LiveStands(s);
    var op := s.func.proto.insts[s.pc].op;
    if op == Return {
      AtReturn(s.func, s.pc, Depth(s));
    } else if op == Test || op == Jmp {
      JumpsTo(s.func, s.pc, Depth(s), op);
    } else {
      FallsTo(s.func, s.pc, Depth(s));
    }
  }

  lemma LiftJump(m: Machine, host: Host, s: State, gap: Gap)
    requires IsLoop(m, host)
    requires GapOk(s, gap) && s.pc < |s.func.proto.insts| && 1 < |s.stack| - gap.size
    requires s.func.proto.insts[s.pc].op == Test
    ensures Follows0(m(s), m(Lift(s, gap)), gap)
  {
    StepJumps(m, host, s);
    StepJumps(m, host, Lift(s, gap));
    LiftTop(s, gap, 0);
    LiftNext(s, gap, 1, []);
    assert s.stack[..|s.stack| - 1] + [] == s.stack[..|s.stack| - 1];
    var t := Lift(s, gap).stack;
    assert t[..|t| - 1] + [] == t[..|t| - 1];
  }

  lemma LiftOneOperand(m: Machine, host: Host, s: State, gap: Gap)
    requires IsLoop(m, host)
    requires GapOk(s, gap) && s.pc < |s.func.proto.insts| && 1 < |s.stack| - gap.size
    requires var op := s.func.proto.insts[s.pc].op; op == Unm || op == Not
    ensures Follows0(m(s), m(Lift(s, gap)), gap)
  {
    StepStack(m, host, s);
    StepStack(m, host, Lift(s, gap));
    LiftTop(s, gap, 0);
    if s.func.proto.insts[s.pc].op == Not {
      LiftNext(s, gap, 1, [Bool(Negation(Top(s, 0)))]);
    } else if Top(s, 0).Num? {
      LiftNext(s, gap, 1, [Num(-Top(s, 0).n)]);
    }
  }

  lemma LiftTwoOperands(m: Machine, host: Host, s: State, gap: Gap)
    requires IsLoop(m, host)
    requires GapOk(s, gap) && s.pc < |s.func.proto.insts| && 2 < |s.stack| - gap.size
    requires var op := s.func.proto.insts[s.pc].op; op == Eq || op == And || op == Or
    ensures Follows0(m(s), m(Lift(s, gap)), gap)
  {
    var op := s.func.proto.insts[s.pc].op;
    StepStack(m, host, s);
    StepStack(m, host, Lift(s, gap));
    LiftTop(s, gap, 0);
    LiftTop(s, gap, 1);
    if op == Eq {
      LiftNext(s, gap, 2, [Bool(Equal(host, Top(s, 1), Top(s, 0)))]);
    } else {
      LiftNext(s, gap, 2, [Bool(Logic(op, Top(s, 1), Top(s, 0)))]);
    }
  }

  lemma LiftBinary(m: Machine, host: Host, s: State, gap: Gap)
    requires IsLoop(m, host)
    requires GapOk(s, gap) && s.pc < |s.func.proto.insts| && 2 < |s.stack| - gap.size
    requires IsArith(s.func.proto.insts[s.pc].op) || IsCompare(s.func.proto.insts[s.pc].op)
    ensures Follows0(m(s), m(Lift(s, gap)), gap)
  {
    StepBinary(m, host, s);
    StepBinary(m, host, Lift(s, gap));
    LiftTop(s, gap, 0);
    LiftTop(s, gap, 1);
    var r := Binary(host, s.func.proto.insts[s.pc].op, Top(s, 1), Top(s, 0));
    if r.Ok? { LiftNext(s, gap, 2, [r.value]); }
  }

  lemma LiftPush(m: Machine, host: Host, s: State, gap: Gap)
    requires IsLoop(m, host)
    requires Live(s) && GapOk(s, gap)
    requires s.func.proto.insts[s.pc].op == Push || s.func.proto.insts[s.pc].op == Pop
    ensures Follows0(m(s), m(Lift(s, gap)), gap)
  {
    var i := s.func.proto.insts[s.pc];
    Above(s, gap);
    OperandHere(s.func, s.pc);
    StepStack(m, host, s);
    StepStack(m, host, Lift(s, gap));
    if i.op == Push {
      LiftNext(s, gap, 0, [CreateValue(s.func.proto.consts[i.a])]);
    } else {
      LiftNext(s, gap, i.a, []);
    }
  }

  lemma LiftRead(m: Machine, host: Host, s: State, gap: Gap)
    requires IsLoop(m, host)
    requires Live(s) && GapOk(s, gap)
    requires s.func.proto.insts[s.pc].op == Copy || s.func.proto.insts[s.pc].op == Load
    ensures Follows0(m(s), m(Lift(s, gap)), gap)
  {
    var i := s.func.proto.insts[s.pc];
    ReadBound(s);
    LiftReadAt(m, host, s, gap, if i.op == Copy then i.a else i.a + 1);
  }

  lemma LiftReadAt(m: Machine, host: Host, s: State, gap: Gap, offset: nat)
    requires IsLoop(m, host)
    requires GapOk(s, gap) && s.pc < |s.func.proto.insts|
    requires var i := s.func.proto.insts[s.pc]; (i.op == Copy && offset == i.a) || (i.op == Load && offset == i.a + 1)
    requires s.frames[|s.frames| - 1].top + offset < |s.stack|
    ensures Follows0(m(s), m(Lift(s, gap)), gap)
  {
    FetchTurn(m, host, s, offset);
    FetchTurn(m, host, Lift(s, gap), offset);
    LiftFetch(s, gap, offset);
  }

  lemma FetchTurn(m: Machine, host: Host, s: State, offset: nat)
    requires IsLoop(m, host) && s.pc < |s.func.proto.insts|
    requires var i := s.func.proto.insts[s.pc]; (i.op == Copy && offset == i.a) || (i.op == Load && offset == i.a + 1)
    ensures m(s) == DoFetch(s, offset)
  {
    StepAccess(m, host, s);
  }

  lemma ReadBound(s: State)
    requires Live(s) && (s.func.proto.insts[s.pc].op == Copy || s.func.proto.insts[s.pc].op == Load)
    ensures var i := s.func.proto.insts[s.pc];
      s.frames[|s.frames| - 1].top + (if i.op == Copy then i.a else i.a + 1) < |s.stack|
  {
    HasNeeds(s);
    OperandHere(s.func, s.pc);
  }

  lemma LiftGlobal(m: Machine, host: Host, s: State, gap: Gap)
    requires IsLoop(m, host)
    requires Live(s) && GapOk(s, gap)
    requires s.func.proto.insts[s.pc].op == GetGlobal || s.func.proto.insts[s.pc].op == SetGlobal
    ensures Follows0(m(s), m(Lift(s, gap)), gap)
  {
    var i := s.func.proto.insts[s.pc];
    Above(s, gap);
    OperandHere(s.func, s.pc);
    StepAccess(m, host, s);
    StepAccess(m, host, Lift(s, gap));
    var key := CreateValue(s.func.proto.consts[i.a]);
    if i.op == GetGlobal {
      if key.Str? && key.s in s.globals { LiftNext(s, gap, 0, [s.globals[key.s]]); }
    } else {
      LiftTop(s, gap, 0);
    }
  }

  lemma LiftClosure(m: Machine, host: Host, s: State, gap: Gap)
    requires IsLoop(m, host)
    requires Live(s) && GapOk(s, gap) && AllOk(s.stack) && s.func.proto.insts[s.pc].op == Lambda
    ensures Follows0(m(s), m(Lift(s, gap)), gap)
  {
    var i := s.func.proto.insts[s.pc];
    HasNeeds(s);
    OperandHere(s.func, s.pc);
    StepAccess(m, host, s);
    StepAccess(m, host, Lift(s, gap));
    var p := s.func.proto.prots[i.a];
    assert LocalCaptures(p);
    CaptureOk(s, p.ups, Slots(s.func.narg));
    LiftLambda(s, gap, i.a, i.b);
  }

  lemma LiftCallStep(m: Machine, host: Host, s: State, gap: Gap)
    requires IsLoop(m, host)
    requires Live(s) && GapOk(s, gap) && s.func.proto.insts[s.pc].op == Call
    ensures Follows0(m(s), m(Lift(s, gap)), gap)
  {
    Above(s, gap);
    LiftCallTurn(m, host, s, gap, s.func.proto.insts[s.pc].a);
  }

  lemma LiftCallTurn(m: Machine, host: Host, s: State, gap: Gap, a: nat)
    requires IsLoop(m, host) && GapOk(s, gap) && a < |s.stack| - gap.size - 1 && s.pc < |s.func.proto.insts|
    requires s.func.proto.insts[s.pc].op == Call && s.func.proto.insts[s.pc].a == a
    ensures Follows0(m(s), m(Lift(s, gap)), gap)
  {
    CallTurn(m, host, s, a);
    assert a < |Lift(s, gap).stack|;
    CallTurn(m, host, Lift(s, gap), a);
    LiftCall(host, s, gap, a, s.pc + 1);
  }

  lemma CallTurn(m: Machine, host: Host, s: State, a: nat)
    requires IsLoop(m, host) && a < |s.stack| && s.pc < |s.func.proto.insts|
    requires s.func.proto.insts[s.pc].op == Call && s.func.proto.insts[s.pc].a == a
    ensures m(s) == DoCall(host, s, a, s.pc + 1)
  {
    StepCalls(m, host, s);
  }

  lemma LiftTailStep(m: Machine, host: Host, s: State, gap: Gap)
    requires IsLoop(m, host)
    requires Live(s) && GapOk(s, gap) && s.func.proto.insts[s.pc].op == TailCall
    ensures Follows(m, m(s), m(Lift(s, gap)), gap)
  {
    StepCalls(m, host, s);
    StepCalls(m, host, Lift(s, gap));
    CallFrames(s, s.func.proto.insts[s.pc].a);
    LiftTailCall(m, host, s, gap, s.func.proto.insts[s.pc].a);
  }

  lemma LiftReturnStep(m: Machine, host: Host, s: State, gap: Gap)
    requires IsLoop(m, host)
    requires Live(s) && GapOk(s, gap) && s.func.proto.insts[s.pc].op == Return
    ensures Follows(m, m(s), m(Lift(s, gap)), gap)
  {
    StepCalls(m, host, s);
    StepCalls(m, host, Lift(s, gap));
    LiveStands(s);
    AtReturn(s.func, s.pc, Depth(s));
    LiftReturn(m, host, s, gap);
  }

  /** One turn of both runs. */
  lemma LiftStep(m: Machine, host: Host, s: State, gap: Gap)
    requires IsLoop(m, host)
    requires Live(s) && AllOk(s.stack) && GapOk(s, gap)
    ensures Follows(m, m(s), m(Lift(s, gap)), gap)
  {
    Above(s, gap);
    match s.func.proto.insts[s.pc].op
    case Push | Pop => LiftPush(m, host, s, gap);
    case Unm | Not => LiftOneOperand(m, host, s, gap);
    case Eq | And | Or => LiftTwoOperands(m, host, s, gap);
    case Add | Sub | Mul | Div | Mod | Pow | Less | LessEqual => LiftBinary(m, host, s, gap);
    case Copy | Load => LiftRead(m, host, s, gap);
    case GetGlobal | SetGlobal => LiftGlobal(m, host, s, gap);
    case Lambda => LiftClosure(m, host, s, gap);
    case Jmp => StepJumps(m, host, s); StepJumps(m, host, Lift(s, gap));
    case Test => LiftJump(m, host, s, gap);
    case Call => LiftCallStep(m, host, s, gap);
    case TailCall => LiftTailStep(m, host, s, gap);
    case Return => LiftReturnStep(m, host, s, gap);
  }

  // ---------------------------------------------------------------- whole runs

  /** Two runs in step: a gap apart between live states, or at the same outcome. */
  ghost predicate Together(o: Outcome, lifted: Outcome, gap: Gap) {
    o == lifted || Apart(o, lifted, gap)
  }

  ghost predicate Apart(o: Outcome, lifted: Outcome, gap: Gap) {
    o.Running? && Live(o.s) && Safe(o.s) && GapOk(o.s, gap) && lifted == Running(Lift(o.s, gap))
  }

  lemma TurnBoth(m: Machine, host: Host, s: State, gap: Gap)
    requires IsLoop(m, host) && HostOk(host) && Live(s) && Safe(s) && GapOk(s, gap)
    ensures Follows(m, m(s), m(Lift(s, gap)), gap) && SafeOutcome(m(s))
  {
    StepSafe(m, host, s);
    LiftStep(m, host, s, gap);
  }

  /** From what one turn of each makes, the second run needs at most one turn more to be in step. */
  lemma TurnedTogether(m: Machine, o: Outcome, lifted: Outcome, gap: Gap) returns (k: nat)
    requires SafeOutcome(o) && Follows(m, o, lifted, gap)
    ensures k <= 1 && Together(o, Steps(m, lifted, k), gap) && (k == 1 ==> o == Steps(m, lifted, k))
  {
    if o.Running? && !(GapOk(o.s, gap) && lifted == Running(Lift(o.s, gap))) {
      k := 1;
      assert Steps(m, lifted, 1) == Steps(m, m(lifted.s), 0);
    } else {
      k := 0;
    }
  }

  lemma {:induction false} Simulates(m: Machine, host: Host, o: Outcome, lifted: Outcome, gap: Gap, n: nat)
    returns (k: nat)
    requires IsLoop(m, host) && HostOk(host) && Together(o, lifted, gap)
    ensures n <= k <= n + 1 && Together(Steps(m, o, n), Steps(m, lifted, k), gap)
    decreases n, 1
  {
    if o == lifted || n == 0 {
      k := n;
    } else {
      TurnBoth(m, host, o.s, gap);
      var l := Continues(m, host, m(o.s), m(Lift(o.s, gap)), gap, n - 1);
      k := l + 1;
    }
  }

  lemma {:induction false} Continues(m: Machine, host: Host, o: Outcome, lifted: Outcome, gap: Gap, n: nat)
    returns (k: nat)
    requires IsLoop(m, host) && HostOk(host) && SafeOutcome(o) && Follows(m, o, lifted, gap)
    ensures n <= k <= n + 1 && Together(Steps(m, o, n), Steps(m, lifted, k), gap)
    decreases n, 2
  {
    var j := TurnedTogether(m, o, lifted, gap);
    if j == 1 {
      k := n + 1;
      StepsAdd(m, lifted, 1, n);
    } else {
      k := Simulates(m, host, o, lifted, gap, n);
    }
  }

  /** The code of `u` calls where that of `s` makes a tail call, and then returns. */
  ghost predicate CallThenReturn(s: State, u: State) {
    && s.pc < |s.func.proto.insts| && s.func.proto.insts[s.pc].op == TailCall
    && u.pc + 1 < |u.func.proto.insts| && u.func.proto.insts[u.pc].op == Call
    && u.func.proto.insts[u.pc].a == s.func.proto.insts[s.pc].a
    && u.func.proto.insts[u.pc + 1].op == Return
    && u == s.(pc := u.pc, func := u.func)
  }

  lemma FirstStep(m: Machine, host: Host, s: State, u: State) returns (gap: Gap)
    requires IsLoop(m, host)
    requires Live(s) && CallThenReturn(s, u)
    ensures Follows(m, m(s), m(u), gap)
  {
    var a := s.func.proto.insts[s.pc].a;
    CallFrames(s, a);
    StepCalls(m, host, s);
    StepCalls(m, host, u);
    TopsRise(s.frames, |s.frames| - 1);
    gap := FirstCall(m, host, s, u, a);
  }

  lemma FirstCall(m: Machine, host: Host, s: State, u: State, a: nat) returns (gap: Gap)
    requires IsLoop(m, host)
    requires s.frames != [] && a < |s.stack| && s.frames[|s.frames| - 1].top < |s.stack| - a - 1
    requires u == s.(pc := u.pc, func := u.func)
    requires u.pc + 1 < |u.func.proto.insts| && u.func.proto.insts[u.pc + 1].op == Return
    requires forall k | 0 <= k < |s.frames| - 1 :: s.frames[k].top < s.frames[|s.frames| - 1].top
    ensures Follows(m, DoTailCall(host, s, a), DoCall(host, u, a, u.pc + 1), gap)
  {
    var last, at := |s.frames| - 1, |s.stack| - a - 1;
    var rest, f, tail, p := s.frames[..last], s.frames[last], s.stack[at..], s.stack[..s.frames[last].top];
    var values := s.stack[f.top..at];
    TailCallIs(host, s, a, rest, f, p, tail);
    assert u.stack == p + values + tail && u.frames == rest + [f];
    BaseCall(m, host, State(s.pc, f.func, p + tail, rest, s.globals), u, p, values, tail, f, u.pc + 1);
    gap := Gap(|rest| + 1, |p|, values, Frame(u.func, |p| + |values|, u.pc + 1));
  }

  /** TCALL n against CALL n and RETURN, in any state a compiled program can reach: whatever the one run
      ends with, a result or an error, the other ends with as well, at most one turn later, and the other
      way round; so the one runs forever if and only if the other does. */
  lemma TailCallEquivalent(host: Host, s: State, u: State, n: nat)
    requires HostOk(host) && Safe(s) && Live(s) && CallThenReturn(s, u)
    ensures var m := Loop(host);
      && (!Steps(m, Running(s), n).Running? ==> Steps(m, Running(u), n + 1) == Steps(m, Running(s), n))
      && (!Steps(m, Running(u), n).Running? ==> Steps(m, Running(s), n) == Steps(m, Running(u), n))
  {
    var m := Loop(host);
    var gap := FirstStep(m, host, s, u);
    StepSafe(m, host, s);
    EquivalentAfter(m, host, s, u, gap, n);
  }

  lemma EquivalentAfter(m: Machine, host: Host, s: State, u: State, gap: Gap, n: nat)
    requires IsLoop(m, host) && HostOk(host) && SafeOutcome(m(s)) && Follows(m, m(s), m(u), gap)
    ensures !Steps(m, Running(s), n).Running? ==> Steps(m, Running(u), n + 1) == Steps(m, Running(s), n)
    ensures !Steps(m, Running(u), n).Running? ==> Steps(m, Running(s), n) == Steps(m, Running(u), n)
  {
    if n > 0 {
      var k := Continues(m, host, m(s), m(u), gap, n - 1);
      EndsAlike(m, Steps(m, m(s), n - 1), m(u), k, n - 1, gap);
    }
  }

  lemma EndsAlike(m: Machine, o: Outcome, lifted: Outcome, k: nat, n: nat, gap: Gap)
    requires n <= k <= n + 1 && Together(o, Steps(m, lifted, k), gap)
    ensures !o.Running? ==> Steps(m, lifted, n + 1) == o
    ensures !Steps(m, lifted, n).Running? ==> o == Steps(m, lifted, n)
  {
    StepsAdd(m, lifted, n, 1);
    StepsAdd(m, lifted, n, k - n);
    if !Steps(m, lifted, n).Running? { Settled(m, Steps(m, lifted, n), k - n); }
    if !o.Running? { Settled(m, o, 1); }
  }

  // ---------------------------------------------------------------- tail calls keep no frame

  lemma OperandFrames(m: Machine, host: Host, s: State)
    requires IsLoop(m, host)
    requires s.pc < |s.func.proto.insts| && m(s).Running?
    requires var op := s.func.proto.insts[s.pc].op;
      op == Push || op == Pop || op == Unm || op == Not || op == Eq || op == And || op
          == Or || IsArith(op) || IsCompare(op)
    ensures m(s).s.frames == s.frames
  {
    assert m(s) == Step(host, s);
  }

  lemma OtherFrames(m: Machine, host: Host, s: State)
    requires IsLoop(m, host)
    requires s.pc < |s.func.proto.insts| && m(s).Running?
    requires var op := s.func.proto.insts[s.pc].op;
      op == Copy || op == Load || op == Lambda || op == GetGlobal || op == SetGlobal || op == Jmp || op == Test
    ensures m(s).s.frames == s.frames
  {
    assert m(s) == Step(host, s);
  }

  lemma CallTailFrames(m: Machine, host: Host, s: State)
    requires IsLoop(m, host)
    requires s.pc < |s.func.proto.insts| && m(s).Running? && s.func.proto.insts[s.pc].op == TailCall
    ensures |m(s).s.frames| <= |s.frames|
  {
    StepCalls(m, host, s);
  }

  /** A turn of anything but CALL, a tail call included, never adds a frame. */
  lemma TurnFrames(m: Machine, host: Host, s: State)
    requires IsLoop(m, host)
    requires s.pc < |s.func.proto.insts| && m(s).Running? && s.func.proto.insts[s.pc].op != Call
    ensures |m(s).s.frames| <= |s.frames|
  {
    match s.func.proto.insts[s.pc].op
    case TailCall => CallTailFrames(m, host, s);
    case Return => StepCalls(m, host, s);
    case Copy | Load | Lambda | GetGlobal | SetGlobal | Jmp | Test => OtherFrames(m, host, s);
    case _ => OperandFrames(m, host, s);
  }

  /** Every turn up to the n-th runs something other than CALL. */
  ghost predicate NoCalls(m: Machine, o: Outcome, n: nat)
    decreases n
  {
    n == 0 || !o.Running? || o.s.pc >= |o.s.func.proto.insts|
      || (o.s.func.proto.insts[o.s.pc].op != Call && NoCalls(m, m(o.s), n - 1))
  }

  /** A chain of tail calls, of any length, keeps the frames it began with. */
  lemma {:induction false} ChainFrames(m: Machine, host: Host, s: State, n: nat)
    requires IsLoop(m, host) && NoCalls(m, Running(s), n) && Steps(m, Running(s), n).Running?
    ensures |Steps(m, Running(s), n).s.frames| <= |s.frames|
    decreases n
  {
    if n > 0 {
      if s.pc >= |s.func.proto.insts| {
        StepEnds(m, host, s);
      } else if m(s).Running? {
        TurnFrames(m, host, s);
        ChainFrames(m, host, m(s).s, n - 1);
      }
    }
  }
}
