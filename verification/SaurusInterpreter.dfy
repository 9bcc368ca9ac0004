/** vm_loop as it runs: one set of registers, a stack and a frame stack, updated in place
    (src/vm/core.c). */
module SaurusInterpreter {
  import opened Options
  import opened SaurusGen
  import opened SaurusVm

  /** How a turn went: on, off the end of the code, into an error, or into what the original leaves
      undefined. */
  datatype Status = Continue | Ended | Failed(e: Error) | Undefined

  class Interpreter {
    var pc: nat
    var func: Function
    var stack: seq<Value>
    var frames: seq<Frame>
    var globals: map<string, Value>

    constructor (s: State)
      ensures Abs() == s
    {
      pc, func, stack, frames, globals := s.pc, s.func, s.stack, s.frames, s.globals;
    }

    ghost function Abs(): State
      reads this
    {
      State(pc, func, stack, frames, globals)
    }

    /** The registers after a turn with this outcome; an error leaves them as it finds them. */
    ghost predicate Did(o: Outcome, st: Status)
      reads this
    {
      match o
      case Running(s) => st == Continue && Abs() == s
      case Done(s) => st == Ended && Abs() == s
      case Raised(e) => st == Failed(e)
      case Stuck => st == Undefined
    }

    /** Replaces the topmost values and goes on to the next instruction. */
    method Replace(drop: nat, values: seq<Value>) returns (st: Status)
      requires drop <= |stack|
      modifies this`pc, this`stack
      ensures Did(Next(old(Abs()), drop, values), st)
    {
      stack := stack[..|stack| - drop];
      stack := stack + values;
      pc := pc + 1;
      st := Continue;
    }

    method Binary(host: Host, op: Op) returns (st: Status)
      requires |stack| >= 2
      modifies this`pc, this`stack
      ensures Did(Deliver(old(Abs()), 2, SaurusVm.Binary(host, op, Top(old(Abs()), 1), Top(old(Abs()), 0))), st)
    {
      var r := SaurusVm.Binary(host, op, stack[|stack| - 2], stack[|stack| - 1]);
      match r
      case Ok(v) => st := Replace(2, [v]);
      case Err(e) => st := Failed(e);
    }

    method Fetch(offset: nat) returns (st: Status)
      modifies this`pc, this`stack
      ensures Did(DoFetch(old(Abs()), offset), st)
    {
      if frames == [] { return Undefined; }
      var at := frames[|frames| - 1].top + offset;
      if at >= |stack| { return Undefined; }
      st := Replace(0, [stack[at]]);
    }

    /** OP_CALL */
    method CallOp(host: Host, narg: nat, ret: nat) returns (st: Status)
      requires narg < |stack|
      modifies this
      ensures Did(DoCall(host, old(Abs()), narg, ret), st)
    {
      var at := |stack| - narg - 1;
      var callee, args := stack[at], stack[at + 1..];
      match callee
      case Fun(f) =>
        if f.narg >= 0 && f.narg != narg { return Failed(BadArity(f.narg, narg)); }
        frames := frames + [Frame(func, at, ret)];
        if f.narg < 0 {
          stack := stack[..at + 1];
          stack := stack + [Vec(args)];
        } else {
          assert stack == stack[..at + 1] + args;
        }
        stack := stack + f.upvalues;
        func := f;
        pc := 0;
        st := Continue;
      case Native(_) => st := CallOther(host, narg, ret);
      case Vec(_) => st := CallOther(host, narg, ret);
      case _ => st := Failed(NotCallable(TypeOf(callee)));
    }

    /** OP_CALL of a native function or of a vector, which deliver at once. */
    method CallOther(host: Host, narg: nat, ret: nat) returns (st: Status)
      requires narg < |stack|
      requires stack[|stack| - narg - 1].Native? || stack[|stack| - narg - 1].Vec?
      modifies this`pc, this`stack
      ensures Did(DoCall(host, old(Abs()), narg, ret), st)
    {
      var at := |stack| - narg - 1;
      var callee, args := stack[at], stack[at + 1..];
      var v: Value;
      if callee.Native? {
        var r := host.native(callee.id, args);
        v := if r.Some? then r.value else Nil;
      } else {
        if narg == 0 { return Failed(TooFewArguments); }
        if narg > 1 { return Failed(NotImplemented); }
        if !args[0].Num? { return Failed(BadArgument(TypeOf(args[0]))); }
        var i := Truncate(args[0].n);
        if !(0 <= i < |callee.elems|) { return Failed(IndexOutOfBounds(i)); }
        v := callee.elems[i];
      }
      stack := stack[..at] + [v];
      pc := ret;
      st := Continue;
    }

    /** OP_TCALL moves callee and arguments down over the frame, gives the frame up, and falls through to
        OP_CALL. */
    method TailCallOp(host: Host, narg: nat) returns (st: Status)
      modifies this
      ensures Did(DoTailCall(host, old(Abs()), narg), st)
    {
      if narg >= |stack| || frames == [] { return Undefined; }
      var f := frames[|frames| - 1];
      var at := |stack| - narg - 1;
      if f.top > at { return Undefined; }
      func := f.func;
      stack := stack[..f.top] + stack[at..];
      frames := frames[..|frames| - 1];
      st := CallOp(host, narg, f.ret);
    }

    method ReturnOp() returns (st: Status)
      modifies this
      ensures Did(DoReturn(old(Abs())), st)
    {
      if stack == [] || frames == [] { return Undefined; }
      var f := frames[|frames| - 1];
      if f.top >= |stack| { return Undefined; }
      pc, func := f.ret, f.func;
      ghost var v := stack[|stack| - 1];
      stack := stack[f.top := stack[|stack| - 1]];
      stack := stack[..f.top + 1];
      assert stack == old(stack)[..f.top] + [v];
      frames := frames[..|frames| - 1];
      st := Continue;
    }

    /** lambda: the loop that copies the captured values. */
    method Captured(ups: seq<Upvalue>) returns (r: Option<seq<Value>>)
      ensures r == Capture(Abs(), ups)
    {
      ghost var s := Abs();
      var values: seq<Value> := [];
      assert ups[0..] == ups;
      for i := 0 to |ups|
        invariant Capture(s, ups).Some? <==> Capture(s, ups[i..]).Some?
        invariant Capture(s, ups).Some? ==> Capture(s, ups).value == values + Capture(s, ups[i..]).value
      {
        var up := ups[i];
        assert ups[i..][0] == up && ups[i..][1..] == ups[i + 1..];
        if !(1 <= up.lv <= |frames|) { return None; }
        var slot := frames[|frames| - up.lv].top + up.idx + 1;
        if slot >= |stack| { return None; }
        values := values + [stack[slot]];
      }
      assert ups[|ups|..] == [] && values + [] == values;
      return Some(values);
    }

    method LambdaOp(a: nat, b: int) returns (st: Status)
      modifies this`pc, this`stack
      ensures Did(DoLambda(old(Abs()), a, b), st)
    {
      if a >= |func.proto.prots| { return Undefined; }
      var p := func.proto.prots[a];
      var values := Captured(p.ups);
      if values.None? { return Undefined; }
      st := Replace(0, [Fun(Function(b, p, values.value))]);
    }

    method GlobalOp(op: Op, c: Const) returns (st: Status)
      requires op == GetGlobal || op == SetGlobal
      modifies this
      ensures Did(if op == GetGlobal then DoGetGlobal(old(Abs()), c) else DoSetGlobal(old(Abs()), c), st)
    {
      var key := CreateValue(c);
      if op == SetGlobal && stack == [] { return Undefined; }
      if !key.Str? { return Failed(KeyNotString); }
      if op == GetGlobal {
        if key.s !in globals { return Failed(NoGlobal(key.s)); }
        st := Replace(0, [globals[key.s]]);
      } else {
        if key.s in globals { return Failed(Redefinition(key.s)); }
        globals := globals[key.s := stack[|stack| - 1]];
        pc := pc + 1;
        st := Continue;
      }
    }

    /** The instructions that only work on the top of the stack. */
    method StackOp(host: Host, i: Inst) returns (st: Status)
      requires pc < |func.proto.insts| && i == func.proto.insts[pc]
      requires i.op == Push || i.op == Pop || i.op == Unm || i.op == Eq || i.op == Not || i.op == And || i.op == Or
      modifies this`pc, this`stack
      ensures Did(Step(host, old(Abs())), st)
    {
      var consts, n := func.proto.consts, |stack|;
      match i.op
      case Push =>
        if i.a >= |consts| { return Undefined; }
        st := Replace(0, [CreateValue(consts[i.a])]);
      case Pop =>
        if i.a > n { return Undefined; }
        st := Replace(i.a, []);
      case Unm =>
        if n < 1 { return Undefined; }
        if !stack[n - 1].Num? { return Failed(BadArgument(TypeOf(stack[n - 1]))); }
        st := Replace(1, [Num(-stack[n - 1].n)]);
      case Eq =>
        if n < 2 { return Undefined; }
        st := Replace(2, [Bool(Equal(host, stack[n - 2], stack[n - 1]))]);
      case Not =>
        if n < 1 { return Undefined; }
        st := Replace(1, [Bool(Negation(stack[n - 1]))]);
      case And | Or =>
        if n < 2 { return Undefined; }
        st := Replace(2, [Bool(Logic(i.op, stack[n - 2], stack[n - 1]))]);
    }

    method JumpOp(host: Host, i: Inst) returns (st: Status)
      requires pc < |func.proto.insts| && i == func.proto.insts[pc] && (i.op == Test || i.op == Jmp)
      modifies this`pc, this`stack
      ensures Did(Step(host, old(Abs())), st)
    {
      if i.op == Test {
        if stack == [] { return Undefined; }
        pc := if Truthy(stack[|stack| - 1]) then i.a else pc + 1;
        stack := stack[..|stack| - 1];
      } else {
        pc := i.a;
      }
      st := Continue;
    }

    method AccessOp(host: Host, i: Inst) returns (st: Status)
      requires pc < |func.proto.insts| && i == func.proto.insts[pc]
      requires i.op == Copy || i.op == Load || i.op == Lambda || i.op == GetGlobal || i.op == SetGlobal
      modifies this
      ensures Did(Step(host, old(Abs())), st)
    {
      match i.op
      case Copy => st := Fetch(i.a);
      case Load => st := Fetch(i.a + 1);
      case Lambda => st := LambdaOp(i.a, i.b);
      case GetGlobal | SetGlobal =>
        if i.a >= |func.proto.consts| { return Undefined; }
        st := GlobalOp(i.op, func.proto.consts[i.a]);
    }

    method ControlOp(host: Host, i: Inst) returns (st: Status)
      requires pc < |func.proto.insts| && i == func.proto.insts[pc]
      requires i.op == Return || i.op == Call || i.op == TailCall
      modifies this
      ensures Did(Step(host, old(Abs())), st)
    {
      match i.op
      case Return => st := ReturnOp();
      case Call =>
        if i.a >= |stack| { return Undefined; }
        st := CallOp(host, i.a, pc + 1);
      case TailCall => st := TailCallOp(host, i.a);
    }

    method ArithOp(host: Host, i: Inst) returns (st: Status)
      requires pc < |func.proto.insts| && i == func.proto.insts[pc] && (IsArith(i.op) || IsCompare(i.op))
      modifies this`pc, this`stack
      ensures Did(Step(host, old(Abs())), st)
    {
      if |stack| < 2 { return Undefined; }
      st := Binary(host, i.op);
    }

    /** One turn of the loop. */
    method Turn(host: Host) returns (st: Status)
      modifies this
      ensures Did(Step(host, old(Abs())), st)
    {
      if pc >= |func.proto.insts| { return Ended; }
      var i := func.proto.insts[pc];
      match i.op
      case Push | Pop | Unm | Eq | Not | And | Or => st := StackOp(host, i);
      case Test | Jmp => st := JumpOp(host, i);
      case Copy | Load | Lambda | GetGlobal | SetGlobal => st := AccessOp(host, i);
      case Return | Call | TailCall => st := ControlOp(host, i);
      case Add | Sub | Mul | Div | Mod | Pow | Less | LessEqual => st := ArithOp(host, i);
    }

    /** The loop, for as many turns as the caller allows. */
    method Run(host: Host, limit: nat) returns (st: Status)
      modifies this
      ensures Did(Steps(Loop(host), Running(old(Abs())), limit), st)
    {
      st := Continue;
      ghost var m, first := Loop(host), Running(Abs());
      ghost var o: Outcome := first;
      var turns := 0;
      while turns < limit && st == Continue
        invariant turns <= limit
        invariant o == Steps(m, first, turns) && Did(o, st)
      {
        ghost var s := Abs();
        st := Turn(host);
        o := Step(host, s);
        StepsAdd(m, first, turns, 1);
        assert Steps(m, Running(s), 1) == Steps(m, m(s), 0);
        turns := turns + 1;
      }
      StepsAdd(m, first, turns, limit - turns);
      if st != Continue { Settled(m, o, limit - turns); }
    }
  }
}
