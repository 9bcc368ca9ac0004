/** The Saurus language with closures, by an evaluator that knows nothing of compilation: literals, nil,
    variables, if, do, lambda, let, rec, calls, vectors of arguments, arithmetic and comparison
    (src/compiler/gen.lua). */
module SaurusEvaluator {
  import opened Options
  import opened SaurusGen
  import opened SaurusVm
  import C = SaurusCorrect

  /** A value without parts, a vector, or a closure: its parameters and body, and the variables it was made
      among; `rest` says that its only parameter is the vector of all arguments. */
  datatype SVal =
    | Plain(v: Value)
    | Many(elems: seq<SVal>)
    | Clo(params: seq<string>, rest: bool, body: seq<Sexp>, labels: seq<string>, args: seq<SVal>, far: seq<Layer>)

  /** The parameters of one function. */
  datatype Layer = Layer(labels: seq<string>, args: seq<SVal>)

  /** The parameters of the running function, those of the function that made it, those of the functions further
      out, and the function itself. */
  datatype Env = Env(labels: seq<string>, args: seq<SVal>, outer: seq<string>, oargs: seq<SVal>, far: seq<Layer>,
                     self: Option<SVal>)

  /** A value, an error of the language, more calls than allowed, or a form that is not covered. */
  datatype SRes = Val(v: SVal) | Fail(e: Error) | Timeout | Outside

  datatype SList = Vals(vs: seq<SVal>) | Stop(r: SRes)

  /** What the generator knows of the functions around it. */
  function LabelsOf(scopes: seq<Scope>): (r: seq<seq<string>>)
    ensures |r| == |scopes| && forall k | 0 <= k < |r| :: r[k] == scopes[k].labels
  {
    seq(|scopes|, k requires 0 <= k < |scopes| => scopes[k].labels)
  }

  function FarLabels(far: seq<Layer>): (r: seq<seq<string>>)
    ensures |r| == |far| && forall k | 0 <= k < |r| :: r[k] == far[k].labels
  {
    seq(|far|, k requires 0 <= k < |far| => far[k].labels)
  }

  /** The later of two parameters of one name is the one that is seen. */
  function Lookup(env: Env, name: string): Option<SVal> {
    var i := FindLabel(env.labels, name);
    if i.Some? then
      if i.value < |env.args| then Some(env.args[i.value]) else None
    else
      var j := FindLabel(env.outer, name);
      if j.None? then LookupFar(env.far, name)
      else if j.value < |env.oargs| then Some(env.oargs[j.value]) else None
  }

  function LookupFar(far: seq<Layer>, name: string): Option<SVal> {
    if far == [] then None
    else
      var i := FindLabel(far[0].labels, name);
      if i.None? then LookupFar(far[1..], name)
      else if i.value < |far[0].args| then Some(far[0].args[i.value]) else None
  }

  /** The functions further out than the running one, from inside. */
  function Beyond(env: Env): seq<Layer> {
    [Layer(env.outer, env.oargs)] + env.far
  }

  function TypeOfS(v: SVal): Type {
    if v.Plain? then TypeOf(v.v) else if v.Many? then TVec else TFun
  }

  predicate TruthyS(v: SVal) {
    v.Plain? ==> Truthy(v.v)
  }

  predicate IsNumber(v: SVal) {
    v.Plain? && v.v.Num?
  }

  function Negated(r: SRes): SRes {
    if !r.Val? then r
    else if IsNumber(r.v) then Val(Plain(Num(-r.v.v.n)))
    else Fail(BadArgument(TypeOfS(r.v)))
  }

  /** The operands of > and >= are evaluated, and checked, from right to left. */
  function Combined(name: string, first: SRes, second: SRes): SRes
    requires C.IsOperator(name)
  {
    if !first.Val? then first
    else if !second.Val? then second
    else if !IsNumber(first.v) then Fail(BadArgument(TypeOfS(first.v)))
    else if !IsNumber(second.v) then Fail(BadArgument(TypeOfS(second.v)))
    else if IsReversed(name) then Val(Plain(C.Operate(name, second.v.v.n, first.v.v.n)))
    else Val(Plain(C.Operate(name, first.v.v.n, second.v.v.n)))
  }

  function Chosen(c: SRes, t: SRes, f: SRes): SRes {
    if !c.Val? then c else if TruthyS(c.v) then t else f
  }

  function Sequenced(first: SRes, rest: SRes): SRes {
    if first.Val? then rest else first
  }

  /** The special forms that are not covered. */
  predicate IsOther(name: string) {
    || name == "quote" || name == "define" || name == "macro" || name == "undef"
    || BinaryOp(name).Some?
  }

  function Eval(e: Sexp, env: Env, fuel: nat): SRes
    decreases fuel, e, 1
  {
    match e
    case Number(n) => Val(Plain(Num(n)))
    case Symbol(name) =>
      if name == "nil" then Val(Plain(Nil))
      else if IsLiteral(name) || Lookup(env, name).None? then Outside
      else Val(Lookup(env, name).value)
    case List(items) =>
      if items == [] then Outside
      else if items[0].Symbol? then EvalForm(items[0].name, items, env, fuel)
      else EvalCall(items, env, fuel)
  }

  function EvalForm(name: string, items: seq<Sexp>, env: Env, fuel: nat): SRes
    requires items != []
    decreases fuel, items, 3
  {
    if name == "if" then EvalIf(items, env, fuel)
    else if name == "do" then
      if |items| < 2 then Outside else EvalBody(items[1..], env, fuel)
    else if name == "lambda" then EvalLambda(items, env)
    else if name == "let" then EvalLet(items, env, fuel)
    else if name == "rec" then EvalRec(items, env, fuel)
    else if name == "-" && |items| == 2 then Negated(Eval(items[1], env, fuel))
    else if C.IsOperator(name) && |items| == 3 then
      var i := if IsReversed(name) then 2 else 1;
      Combined(name, Eval(items[i], env, fuel), Eval(items[3 - i], env, fuel))
    else if IsOther(name) then Outside
    else EvalCall(items, env, fuel)
  }

  function EvalIf(items: seq<Sexp>, env: Env, fuel: nat): SRes
    decreases fuel, items, 2
  {
    if |items| < 3 then Outside
    else
      Chosen(Eval(items[1], env, fuel), Eval(items[2], env, fuel), EvalElse(items, env, fuel))
  }

  function EvalElse(items: seq<Sexp>, env: Env, fuel: nat): SRes
    decreases fuel, items, 1
  {
    if |items| > 3 then Eval(items[3], env, fuel) else Val(Plain(Nil))
  }

  /** A closure over the parameters of the running function. */
  function EvalLambda(items: seq<Sexp>, env: Env): SRes {
    if |items| < 3 then Outside
    else if items[1].Symbol? then Val(Clo([items[1].name], true, items[2..], env.labels, env.args, Beyond(env)))
    else if !items[1].List? || Names(items[1].items).None? then Outside
    else Val(Clo(Names(items[1].items).value, false, items[2..], env.labels, env.args, Beyond(env)))
  }

  function EvalLet(items: seq<Sexp>, env: Env, fuel: nat): SRes
    decreases fuel, items, 2
  {
    if |items| < 3 || !items[1].List? || |items[1].items| % 2 != 0 || Keys(items[1].items).None? then Outside
    else
      match EvalValues(items[1].items, env, fuel)
      case Stop(r) => r
      case Vals(vs) =>
        if fuel == 0 then Timeout
        else
          Apply(Clo(Keys(items[1].items).value, false, items[2..], env.labels, env.args, Beyond(env)), vs, fuel - 1)
  }

  /** The callee first, then the arguments. */
  function EvalCall(items: seq<Sexp>, env: Env, fuel: nat): SRes
    requires items != []
    decreases fuel, items, 2
  {
    match EvalEach(items, env, fuel)
    case Stop(r) => r
    case Vals(vs) => if fuel == 0 || vs == [] then Timeout else Apply(vs[0], vs[1..], fuel - 1)
  }

  /** The running function calls itself. */
  function EvalRec(items: seq<Sexp>, env: Env, fuel: nat): SRes
    requires items != []
    decreases fuel, items, 2
  {
    if env.self.None? then Outside
    else
      match EvalEach(items[1..], env, fuel)
      case Stop(r) => r
      case Vals(vs) => if fuel == 0 then Timeout else Apply(env.self.value, vs, fuel - 1)
  }

  function Cons(r: SRes, rest: SList): SList {
    if !r.Val? then Stop(r) else if rest.Stop? then rest else Vals([r.v] + rest.vs)
  }

  function EvalEach(items: seq<Sexp>, env: Env, fuel: nat): SList
    decreases fuel, items, 0
  {
    if items == [] then Vals([]) else Cons(Eval(items[0], env, fuel), EvalEach(items[1..], env, fuel))
  }

  /** The values of the bindings of a let. */
  function EvalValues(args: seq<Sexp>, env: Env, fuel: nat): SList
    requires |args| % 2 == 0
    decreases fuel, args, 0
  {
    if args == [] then Vals([]) else Cons(Eval(args[1], env, fuel), EvalValues(args[2..], env, fuel))
  }

  function EvalBody(items: seq<Sexp>, env: Env, fuel: nat): SRes
    decreases fuel, items, 0
  {
    if items == [] then Outside
    else if |items| == 1 then Eval(items[0], env, fuel)
    else Sequenced(Eval(items[0], env, fuel), EvalBody(items[1..], env, fuel))
  }

  /** What a function gets for its parameters. */
  function Given(rest: bool, args: seq<SVal>): seq<SVal> {
    if rest then [Many(args)] else args
  }

  /** A vector is called with an index. */
  function Index(elems: seq<SVal>, args: seq<SVal>): SRes {
    if args == [] then Fail(TooFewArguments)
    else if |args| > 1 then Fail(NotImplemented)
    else if !IsNumber(args[0]) then Fail(BadArgument(TypeOfS(args[0])))
    else
      var i := Truncate(args[0].v.n);
      if 0 <= i < |elems| then Val(elems[i]) else Fail(IndexOutOfBounds(i))
  }

  /** A call; the body sees the parameters and the variables the closure was made among. Native functions
      are not covered. */
  function Apply(f: SVal, args: seq<SVal>, fuel: nat): SRes
    decreases fuel
  {
    match f
    case Plain(v) => if v.Native? then Outside else Fail(NotCallable(TypeOf(v)))
    case Many(elems) => Index(elems, args)
    case Clo(params, rest, body, labels, cargs, far) =>
      if !rest && |params| != |args| then Fail(BadArity(|params|, |args|))
      else EvalBody(body, Env(params, Given(rest, args), labels, cargs, far, Some(f)), fuel)
  }

  /** A program: an expression whose value is called with one argument. */
  function EvalProgram(e: Sexp, arg: SVal, fuel: nat): SRes {
    var f := Eval(e, Env([], [], [], [], [], None), fuel);
    if !f.Val? then f else if fuel == 0 then Timeout else Apply(f.v, [arg], fuel - 1)
  }
}
