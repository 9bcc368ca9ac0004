/** The interpreter loop of the Saurus virtual machine (src/vm/core.c), one instruction at a time. */
module SaurusVm {
  import opened Options
  import opened SaurusGen

  datatype Function = Function(narg: int, proto: Proto, upvalues: seq<Value>)

  datatype Value =
    | Nil
    | Bool(b: bool)
    | Num(n: real)
    | Str(s: string)
    | Fun(f: Function)
    | Native(id: nat)
    | Vec(elems: seq<Value>)

  datatype Type = TNil | TBool | TNum | TStr | TFun | TNative | TVec

  /** func is the caller, top the place of the callee on the stack, ret where to go on afterwards. */
  datatype Frame = Frame(func: Function, top: nat, ret: nat)

  datatype State = State(pc: nat, func: Function, stack: seq<Value>, frames: seq<Frame>, globals: map<string, Value>)

  datatype Error =
    | BadArgument(found: Type)
    | BadArity(expected: int, given: nat)
    | NotCallable(found: Type)
    | IndexOutOfBounds(i: int)
    | TooFewArguments
    | NotImplemented
    | KeyNotString
    | NoGlobal(name: string)
    | Redefinition(name: string)

  /** Stuck stands for what the original does not define: reading below the stack, jumping into an
      instruction that is not there, naming a constant or prototype that does not exist. */
  datatype Outcome = Running(s: State) | Done(s: State) | Raised(e: Error) | Stuck

  /** What the machine takes from outside: native functions, the arithmetic of `double` beyond the ring
      operations, and the comparison of two pointers. */
  datatype Host = Host(
    native: (nat, seq<Value>) -> Option<Value>,
    arith: (Op, real, real) -> real,
    same: (Value, Value) -> bool)

  function TypeOf(v: Value): Type {
    match v
    case Nil => TNil
    case Bool(_) => TBool
    case Num(_) => TNum
    case Str(_) => TStr
    case Fun(_) => TFun
    case Native(_) => TNative
    case Vec(_) => TVec
  }

  /** create_value; a constant spelled nil is the value nil. */
  function CreateValue(c: Const): Value {
    match c
    case NumConst(n) => Num(n)
    case StrConst(s) => if s == "nil" then Nil else Str(s)
  }

  predicate Truthy(v: Value) {
    v != Nil && v != Bool(false)
  }

  function Top(s: State, k: nat): Value
    requires k < |s.stack|
  {
    s.stack[|s.stack| - 1 - k]
  }

  /** The next instruction, with the `drop` topmost values replaced by these. */
  function Next(s: State, drop: nat, values: seq<Value>): Outcome
    requires drop <= |s.stack|
  {
    Running(s.(pc := s.pc + 1, stack := s.stack[..|s.stack| - drop] + values))
  }

  function Arith(host: Host, op: Op, x: real, y: real): real {
    match op
    case Add => x + y
    case Sub => x - y
    case Mul => x * y
    case _ => host.arith(op, x, y)
  }

  function Compare(op: Op, x: real, y: real): bool {
    if op == Less then x < y else x <= y
  }

  predicate IsArith(op: Op) {
    op == Add || op == Sub || op == Mul || op == Div || op == Mod || op == Pow
  }

  predicate IsCompare(op: Op) {
    op == Less || op == LessEqual
  }

  /** ARITH_OP and LOG_OP: both operands must be numbers, and the lower one is checked first. */
  function Binary(host: Host, op: Op, x: Value, y: Value): Result {
    if !x.Num? then Err(BadArgument(TypeOf(x)))
    else if !y.Num? then Err(BadArgument(TypeOf(y)))
    else Ok(if IsArith(op) then Num(Arith(host, op, x.n, y.n)) else Bool(Compare(op, x.n, y.n)))
  }

  datatype Result = Ok(value: Value) | Err(error: Error)

  function Deliver(s: State, drop: nat, r: Result): Outcome
    requires drop <= |s.stack|
  {
    match r
    case Ok(v) => Next(s, drop, [v])
    case Err(e) => Raised(e)
  }

  function Equal(host: Host, x: Value, y: Value): bool {
    if TypeOf(x) != TypeOf(y) then false
    else if x.Num? then x.n == y.n
    else host.same(x, y)
  }

  /** OP_NOT, OP_AND and OP_OR as they are written; the last is true of any two values. */
  function Logic(op: Op, x: Value, y: Value): bool {
    if op == And then Truthy(x) && Truthy(y)
    else x != Nil || NotFalse(x) || y != Nil || NotFalse(y)
  }

  predicate NotFalse(v: Value) {
    !v.Bool? || v.b
  }

  function Negation(x: Value): bool {
    if x.Bool? then !x.b else x != Nil
  }

  /** lambda: captures are read from the frames that are live now. */
  function Capture(s: State, ups: seq<Upvalue>): Option<seq<Value>> {
    if ups == [] then Some([])
    else if !(1 <= ups[0].lv <= |s.frames|) then None
    else
      var slot := s.frames[|s.frames| - ups[0].lv].top + ups[0].idx + 1;
      if slot >= |s.stack| then None
      else
        var rest :- Capture(s, ups[1..]);
        Some([s.stack[slot]] + rest)
  }

  /** OP_CALL with `narg` arguments, going on at `ret` afterwards. */
  function DoCall(host: Host, s: State, narg: nat, ret: nat): Outcome
    requires narg < |s.stack|
  {
    var at := |s.stack| - narg - 1;
    var callee, args := s.stack[at], s.stack[at + 1..];
    match callee
    case Fun(f) =>
      if f.narg >= 0 && f.narg != narg then Raised(BadArity(f.narg, narg))
      else
        var given := if f.narg < 0 then [Vec(args)] else args;
        Running(State(0, f, s.stack[..at + 1] + given + f.upvalues, s.frames + [Frame(s.func, at, ret)], s.globals))
    case Native(id) =>
      var r := host.native(id, args);
      Running(s.(pc := ret, stack := s.stack[..at] + [if r.Some? then r.value else Nil]))
    case Vec(elems) =>
      if narg == 0 then Raised(TooFewArguments)
      else if narg > 1 then Raised(NotImplemented)
      else if !args[0].Num? then Raised(BadArgument(TypeOf(args[0])))
      else
        var i := Truncate(args[0].n);
        if 0 <= i < |elems| then Running(s.(pc := ret, stack := s.stack[..at] + [elems[i]]))
        else Raised(IndexOutOfBounds(i))
    case _ => Raised(NotCallable(TypeOf(callee)))
  }

  /** su_tointeger: the cast of C, towards zero. */
  function Truncate(x: real): int {
    if x >= 0.0 then x.Floor else -(-x).Floor
  }

  /** OP_TCALL gives up the current frame and moves the callee and its arguments down to its place. */
  function DoTailCall(host: Host, s: State, narg: nat): Outcome {
    if narg >= |s.stack| || s.frames == [] then Stuck
    else
      var f := s.frames[|s.frames| - 1];
      var at := |s.stack| - narg - 1;
      if f.top > at then Stuck
      else
        var moved := State(s.pc, f.func, s.stack[..f.top] + s.stack[at..], s.frames[..|s.frames| - 1], s.globals);
        DoCall(host, moved, narg, f.ret)
  }

  function DoReturn(s: State): Outcome {
    if s.stack == [] || s.frames == [] then Stuck
    else
      var f := s.frames[|s.frames| - 1];
      if f.top >= |s.stack| then Stuck
      else Running(State(f.ret, f.func, s.stack[..f.top] + [Top(s, 0)], s.frames[..|s.frames| - 1], s.globals))
  }

  /** A value of the current frame, counted from its callee. */
  function DoFetch(s: State, offset: nat): Outcome {
    if s.frames == [] then Stuck
    else
      var at := s.frames[|s.frames| - 1].top + offset;
      if at >= |s.stack| then Stuck else Next(s, 0, [s.stack[at]])
  }

  function DoLambda(s: State, a: nat, b: int): Outcome {
    if a >= |s.func.proto.prots| then Stuck
    else
      var p := s.func.proto.prots[a];
      var ups := Capture(s, p.ups);
      if ups.None? then Stuck else Next(s, 0, [Fun(Function(b, p, ups.value))])
  }

  function DoGetGlobal(s: State, c: Const): Outcome {
    var key := CreateValue(c);
    if !key.Str? then Raised(KeyNotString)
    else if key.s !in s.globals then Raised(NoGlobal(key.s))
    else Next(s, 0, [s.globals[key.s]])
  }

  function DoSetGlobal(s: State, c: Const): Outcome {
    var key := CreateValue(c);
    if s.stack == [] then Stuck
    else if !key.Str? then Raised(KeyNotString)
    else if key.s in s.globals then Raised(Redefinition(key.s))
    else Running(s.(pc := s.pc + 1, globals := s.globals[key.s := Top(s, 0)]))
  }

  /** One turn of vm_loop. */
  function Step(host: Host, s: State): Outcome {
    if s.pc >= |s.func.proto.insts| then Done(s)
    else
      var i, consts, n := s.func.proto.insts[s.pc], s.func.proto.consts, |s.stack|;
      match i.op
      case Push => if i.a < |consts| then Next(s, 0, [CreateValue(consts[i.a])]) else Stuck
      case Pop => if i.a <= n then Next(s, i.a, []) else Stuck
      case Copy => DoFetch(s, i.a)
      case Load => DoFetch(s, i.a + 1)
      case Unm =>
        if n < 1 then Stuck
        else if !Top(s, 0).Num? then Raised(BadArgument(TypeOf(Top(s, 0))))
        else Next(s, 1, [Num(-Top(s, 0).n)])
      case Eq => if n < 2 then Stuck else Next(s, 2, [Bool(Equal(host, Top(s, 1), Top(s, 0)))])
      case Not => if n < 1 then Stuck else Next(s, 1, [Bool(Negation(Top(s, 0)))])
      case And | Or => if n < 2 then Stuck else Next(s, 2, [Bool(Logic(i.op, Top(s, 1), Top(s, 0)))])
      case Test =>
        if n < 1 then Stuck
        else Running(s.(pc := if Truthy(Top(s, 0)) then i.a else s.pc + 1, stack := s.stack[..n - 1]))
      case Jmp => Running(s.(pc := i.a))
      case Return => DoReturn(s)
      case Call => if i.a < n then DoCall(host, s, i.a, s.pc + 1) else Stuck
      case TailCall => DoTailCall(host, s, i.a)
      case Lambda => DoLambda(s, i.a, i.b)
      case GetGlobal => if i.a < |consts| then DoGetGlobal(s, consts[i.a]) else Stuck
      case SetGlobal => if i.a < |consts| then DoSetGlobal(s, consts[i.a]) else Stuck
      case Add | Sub | Mul | Div | Mod | Pow | Less | LessEqual =>
        if n < 2 then Stuck else Deliver(s, 2, Binary(host, i.op, Top(s, 1), Top(s, 0)))
  }

  /** The machine as a function, so that runs need not look inside it. */
  type Machine = State -> Outcome

  function Loop(host: Host): Machine {
    s => Step(host, s)
  }

  /** The trigger keeps runs from looking inside the turns they are made of. */
  ghost predicate IsLoop(m: Machine, host: Host) {
    forall s {:trigger Step(host, s)} :: m(s) == Step(host, s)
  }

  /** `n` turns, or as many as there are. */
  function Steps(machine: Machine, o: Outcome, n: nat): Outcome
    decreases n
  {
    if n == 0 || !o.Running? then o else Steps(machine, machine(o.s), n - 1)
  }

  lemma {:induction false} StepsAdd(machine: Machine, o: Outcome, m: nat, n: nat)
    ensures Steps(machine, o, m + n) == Steps(machine, Steps(machine, o, m), n)
    decreases m
  {
    if m > 0 && o.Running? {
      StepsAdd(machine, machine(o.s), m - 1, n);
    }
  }

  lemma {:induction false} Settled(m: Machine, o: Outcome, n: nat)
    requires !o.Running?
    ensures Steps(m, o, n) == o
  {
  }

  // ---------------------------------------------------------------- what a turn is, instruction by instruction

  lemma StepJumps(m: Machine, host: Host, s: State)
    requires IsLoop(m, host) && s.pc < |s.func.proto.insts|
    ensures var i := s.func.proto.insts[s.pc];
      && (i.op == Jmp ==> m(s) == Running(s.(pc := i.a)))
      && (i.op == Test && s.stack != [] ==>
            m(s) == Running(s.(pc := if Truthy(Top(s, 0)) then i.a else s.pc + 1, stack := s.stack[..|s.stack| - 1])))
  {
    assert m(s) == Step(host, s);
  }

  lemma StepStack(m: Machine, host: Host, s: State)
    requires IsLoop(m, host) && s.pc < |s.func.proto.insts|
    ensures var i, consts, n := s.func.proto.insts[s.pc], s.func.proto.consts, |s.stack|;
      && (i.op == Push && i.a < |consts| ==> m(s) == Next(s, 0, [CreateValue(consts[i.a])]))
      && (i.op == Pop && i.a <= n ==> m(s) == Next(s, i.a, []))
      && (i.op == Unm && n >= 1 ==>
            m(s) == if Top(s, 0).Num? then Next(s, 1, [Num(-Top(s, 0).n)]) else Raised(BadArgument(TypeOf(Top(s, 0)))))
      && (i.op == Not && n >= 1 ==> m(s) == Next(s, 1, [Bool(Negation(Top(s, 0)))]))
      && (i.op == Eq && n >= 2 ==> m(s) == Next(s, 2, [Bool(Equal(host, Top(s, 1), Top(s, 0)))]))
      && ((i.op == And || i.op == Or) && n >= 2 ==> m(s) == Next(s, 2, [Bool(Logic(i.op, Top(s, 1), Top(s, 0)))]))
  {
    assert m(s) == Step(host, s);
  }

  lemma StepAccess(m: Machine, host: Host, s: State)
    requires IsLoop(m, host) && s.pc < |s.func.proto.insts|
    ensures var i := s.func.proto.insts[s.pc];
      && (i.op == Copy ==> m(s) == DoFetch(s, i.a))
      && (i.op == Load ==> m(s) == DoFetch(s, i.a + 1))
      && (i.op == Lambda ==> m(s) == DoLambda(s, i.a, i.b))
      && (i.a < |s.func.proto.consts| ==>
            && (i.op == GetGlobal ==> m(s) == DoGetGlobal(s, s.func.proto.consts[i.a]))
            && (i.op == SetGlobal ==> m(s) == DoSetGlobal(s, s.func.proto.consts[i.a])))
  {
    assert m(s) == Step(host, s);
  }

  lemma StepCalls(m: Machine, host: Host, s: State)
    requires IsLoop(m, host) && s.pc < |s.func.proto.insts|
    ensures var i := s.func.proto.insts[s.pc];
      && (i.op == Call && i.a < |s.stack| ==> m(s) == DoCall(host, s, i.a, s.pc + 1))
      && (i.op == TailCall ==> m(s) == DoTailCall(host, s, i.a))
      && (i.op == Return ==> m(s) == DoReturn(s))
  {
    assert m(s) == Step(host, s);
  }

  lemma TailCallIs(host: Host, s: State, narg: nat, rest: seq<Frame>, f: Frame, p: seq<Value>, tail: seq<Value>)
    requires s.frames == rest + [f] && |tail| == narg + 1 <= |s.stack| && f.top <= |s.stack| - |tail|
    requires p == s.stack[..f.top] && tail == s.stack[|s.stack| - |tail|..]
    ensures DoTailCall(host, s, narg) == DoCall(host, State(s.pc, f.func, p + tail, rest, s.globals), narg, f.ret)
  {
    assert s.frames[..|s.frames| - 1] == rest;
  }

  lemma StepBinary(m: Machine, host: Host, s: State)
    requires IsLoop(m, host) && s.pc < |s.func.proto.insts| && |s.stack| >= 2
    requires IsArith(s.func.proto.insts[s.pc].op) || IsCompare(s.func.proto.insts[s.pc].op)
    ensures m(s) == Deliver(s, 2, Binary(host, s.func.proto.insts[s.pc].op, Top(s, 1), Top(s, 0)))
  {
    assert m(s) == Step(host, s);
  }

  lemma StepEnds(m: Machine, host: Host, s: State)
    requires IsLoop(m, host) && s.pc >= |s.func.proto.insts|
    ensures m(s) == Done(s)
  {
    assert m(s) == Step(host, s);
  }

  // ---------------------------------------------------------------- what the bytecode keeps

  function Int16(b: int): int {
    var r := b % 0x1_0000;
    if r >= 0x8000 then r - 0x1_0000 else r
  }

  /** The prototype as the machine sees it: 8-bit operands, 16-bit argument counts and captures. */
  function Encode(p: Proto): Proto
    decreases p, 1
  {
    Proto(
      seq(|p.insts|, k requires 0 <= k < |p.insts| => Inst(p.insts[k].op, p.insts[k].a % 256, Int16(p.insts[k].b))),
      p.consts,
      seq(|p.ups|, k requires 0 <= k < |p.ups| => Upvalue(p.ups[k].lv % 0x1_0000, p.ups[k].idx % 0x1_0000)),
      EncodeAll(p.prots))
  }

  function EncodeAll(ps: seq<Proto>): seq<Proto>
    decreases ps, 0
  {
    if ps == [] then [] else [Encode(ps[0])] + EncodeAll(ps[1..])
  }

  /** Every operand has room in its field. */
  ghost predicate Fits(p: Proto)
    decreases p
  {
    && (forall k | 0 <= k < |p.insts| :: p.insts[k].a < 256 && -0x8000 <= p.insts[k].b < 0x8000)
    && (forall k | 0 <= k < |p.ups| :: p.ups[k].lv < 0x1_0000 && p.ups[k].idx < 0x1_0000)
    && (forall k | 0 <= k < |p.prots| :: Fits(p.prots[k]))
  }

  /** Exactly the prototypes whose operands fit come through unchanged. */
  lemma {:induction false} EncodeFits(p: Proto)
    ensures Encode(p) == p <==> Fits(p)
    decreases p, 1
  {
    EncodeAllFits(p.prots);
    var q := Encode(p);
    if Fits(p) {
      assert q.insts == p.insts && q.ups == p.ups;
    }
    if q == p {
      forall k | 0 <= k < |p.insts| ensures p.insts[k].a < 256 && -0x8000 <= p.insts[k].b < 0x8000 {
        assert q.insts[k] == p.insts[k];
      }
      forall k | 0 <= k < |p.ups| ensures p.ups[k].lv < 0x1_0000 && p.ups[k].idx < 0x1_0000 {
        assert q.ups[k] == p.ups[k];
      }
    }
  }

  lemma {:induction false} EncodeAllFits(ps: seq<Proto>)
    ensures EncodeAll(ps) == ps <==> forall k | 0 <= k < |ps| :: Fits(ps[k])
    decreases ps, 0
  {
    if ps != [] {
      EncodeFits(ps[0]);
      EncodeAllFits(ps[1..]);
      assert ps == [ps[0]] + ps[1..];
      assert EncodeAll(ps)[0] == Encode(ps[0]) && EncodeAll(ps)[1..] == EncodeAll(ps[1..]);
      assert (forall k | 0 <= k < |ps| :: Fits(ps[k])) <==>
               (Fits(ps[0]) && forall k | 0 <= k < |ps[1..]| :: Fits(ps[1..][k])) by {
        if Fits(ps[0]) && forall k | 0 <= k < |ps[1..]| :: Fits(ps[1..][k]) {
          forall k | 0 <= k < |ps| ensures Fits(ps[k]) { if k > 0 { assert ps[1..][k - 1] == ps[k]; } }
        }
      }
    }
  }
}
