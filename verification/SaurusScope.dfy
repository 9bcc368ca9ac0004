/** Programs of the language with closures, told by their text: they compile, are evaluated without ever leaving
    the language, and capture from the creator's frame only exactly when they use no variable from further out
    (src/compiler/gen.lua). */
module SaurusScope {
  import opened Options
  import opened SaurusGen
  import opened SaurusStack
  import opened SaurusSafety
  import opened SaurusEvaluator
  import C = SaurusCorrect

  // ---------------------------------------------------------------- which programs

  /** What an expression may see: the parameters of its function, those of the function's creator and of the
      functions further out, and whether it is in a function that can call itself. In a `near` view those
      further out may not be used. */
  datatype View = View(labels: seq<string>, outer: seq<string>, far: seq<seq<string>>, self: bool, near: bool)

  /** The view from a function made here. */
  function Inner(view: View, params: seq<string>): View {
    View(params, view.labels, [view.outer] + view.far, true, view.near)
  }

  function Near(view: View): View {
    view.(near := true)
  }

  predicate InFar(far: seq<seq<string>>, name: string) {
    far != [] && (name in far[0] || InFar(far[1..], name))
  }

  predicate Seen(name: string, view: View) {
    name in view.labels || name in view.outer || (!view.near && InFar(view.far, name))
  }

  predicate Covered(e: Sexp, view: View)
    decreases e, 1
  {
    match e
    case Number(_) => true
    case Symbol(name) => name == "nil" || (!IsLiteral(name) && Seen(name, view))
    case List(items) =>
      && items != []
      && (if items[0].Symbol? then CoveredForm(items[0].name, items, view) else CoveredEach(items, view))
  }

  predicate CoveredForm(name: string, items: seq<Sexp>, view: View)
    requires items != []
    decreases items, 1
  {
    if name == "if" then
      && |items| > 2 && Covered(items[1], view) && Covered(items[2], view)
      && (|items| > 3 ==> Covered(items[3], view))
    else if name == "do" then |items| > 1 && CoveredEach(items[1..], view)
    else if name == "lambda" then |items| > 2 && CoveredLambda(items[1], items[2..], view)
    else if name == "let" then
      && |items| > 2 && items[1].List? && |items[1].items| % 2 == 0 && Keys(items[1].items).Some?
      && CoveredValues(items[1].items, view)
      && CoveredEach(items[2..], Inner(view, Keys(items[1].items).value))
    else if name == "rec" then view.self && CoveredEach(items[1..], view)
    else if C.IsOperator(name) then
      (|items| == 3 || (name == "-" && |items| == 2)) && CoveredEach(items[1..], view)
    else !IsOther(name) && CoveredEach(items, view)
  }

  predicate CoveredLambda(params: Sexp, body: seq<Sexp>, view: View)
    decreases body, 1
  {
    match params
    case Symbol(name) => CoveredEach(body, Inner(view, [name]))
    case List(args) => Names(args).Some? && CoveredEach(body, Inner(view, Names(args).value))
    case Number(_) => false
  }

  predicate CoveredEach(items: seq<Sexp>, view: View)
    decreases items, 0
  {
    items == [] || (Covered(items[0], view) && CoveredEach(items[1..], view))
  }

  predicate CoveredValues(args: seq<Sexp>, view: View)
    requires |args| % 2 == 0
    decreases args, 0
  {
    args == [] || (Covered(args[1], view) && CoveredValues(args[2..], view))
  }

  lemma {:induction false} CoveredAt(items: seq<Sexp>, view: View, k: nat)
    requires CoveredEach(items, view) && k < |items|
    ensures Covered(items[k], view)
    decreases items
  {
    if k > 0 { CoveredAt(items[1..], view, k - 1); }
  }

  // ---------------------------------------------------------------- they keep the stack discipline

  lemma {:induction false} CoveredClean(e: Sexp, view: View)
    requires Covered(e, view)
    ensures Clean(e, false)
    decreases e, 1
  {
    if e.List? {
      if e.items[0].Symbol? {
        FormClean(e.items[0].name, e.items, view);
      } else {
        EachClean(e.items, view);
      }
    }
  }

  lemma {:induction false} FormClean(name: string, items: seq<Sexp>, view: View)
    requires items != [] && items[0].Symbol? && CoveredForm(name, items, view)
    ensures CleanForm(name, items)
    decreases items, 1
  {
    if name == "if" {
      IfClean(items, view);
    } else if name == "lambda" {
      if items[1].Symbol? {
        EachClean(items[2..], Inner(view, [items[1].name]));
      } else {
        EachClean(items[2..], Inner(view, Names(items[1].items).value));
      }
    } else if name == "let" {
      EachClean(items[2..], Inner(view, Keys(items[1].items).value));
      ValuesClean(items[1].items, view);
    } else if name == "do" || name == "rec" || C.IsOperator(name) {
      EachClean(items[1..], view);
    } else {
      EachClean(items, view);
    }
  }

  lemma {:induction false} IfClean(items: seq<Sexp>, view: View)
    requires |items| > 2 && items[0].Symbol? && Covered(items[1], view) && Covered(items[2], view)
    requires |items| > 3 ==> Covered(items[3], view)
    ensures CleanEach(if |items| > 4 then items[..4] else items, false)
    decreases items, 0
  {
    var used := if |items| > 4 then items[..4] else items;
    CoveredClean(items[1], view);
    CoveredClean(items[2], view);
    if |items| > 3 { CoveredClean(items[3], view); }
    assert used[1..][0] == items[1] && used[1..][1..][0] == items[2];
    assert CleanEach(used[1..][1..][1..], false) by {
      if |items| > 3 { assert used[1..][1..][1..] == [items[3]]; }
    }
  }

  lemma {:induction false} EachClean(items: seq<Sexp>, view: View)
    requires CoveredEach(items, view)
    ensures CleanEach(items, false)
    decreases items, 0
  {
    if items != [] {
      CoveredClean(items[0], view);
      EachClean(items[1..], view);
    }
  }

  /** The keys of a let are symbols. */
  lemma {:induction false} ValuesClean(args: seq<Sexp>, view: View)
    requires |args| % 2 == 0 && Keys(args).Some? && CoveredValues(args, view)
    ensures CleanEach(args, false)
    decreases args, 0
  {
    if args != [] {
      CoveredClean(args[1], view);
      ValuesClean(args[2..], view);
      assert args[1..][1..] == args[2..];
    }
  }

  // ---------------------------------------------------------------- they compile, and how they capture

  ghost predicate LocalUps(ups: seq<Upvalue>) {
    forall k | 0 <= k < |ups| :: ups[k].lv == 1
  }

  ghost predicate AllLocal(prots: seq<Proto>) {
    forall k | 0 <= k < |prots| :: LocalCaptures(prots[k])
  }

  /** The captures and prototypes so far come from the creator's own frame. */
  ghost predicate Local(lists: Lists) {
    LocalUps(lists.ups) && AllLocal(lists.prots)
  }

  ghost predicate Sees(scopes: seq<Scope>, view: View) {
    scopes != [] && LabelsOf(scopes) + [[]] == [view.labels, view.outer] + view.far
  }

  /** There is code, and it captures locally only if what came before does and this is so. */
  ghost predicate LocalIff(x: Option<Out>, before: Lists, near: bool) {
    x.Some? && (Local(x.value.lists) <==> Local(before) && near)
  }

  lemma SeesLayers(scopes: seq<Scope>, view: View)
    requires Sees(scopes, view)
    ensures scopes[0].labels == view.labels && view.outer == (if |scopes| > 1 then scopes[1].labels else [])
    ensures |scopes| == 1 ==> view.far == []
    ensures |scopes| > 1 ==> LabelsOf(scopes[2..]) + [[]] == view.far
  {
    var all, chain := LabelsOf(scopes) + [[]], [view.labels, view.outer] + view.far;
    assert all[0] == chain[0] && all[1] == chain[1] && |all| == |chain|;
    if |scopes| > 1 {
      assert all[2..] == LabelsOf(scopes[2..]) + [[]] && chain[2..] == view.far;
    }
  }

  lemma SeesInner(scopes: seq<Scope>, view: View, params: seq<string>)
    requires Sees(scopes, view)
    ensures Sees([Scope(params, false)] + scopes, Inner(view, params))
    ensures Near(Inner(view, params)) == Inner(Near(view), params)
  {
    assert LabelsOf([Scope(params, false)] + scopes) == [params] + LabelsOf(scopes);
    assert [params] + ([view.labels, view.outer] + view.far) == [params, view.labels] + ([view.outer] + view.far);
  }

  lemma {:induction false} LabelFound(labels: seq<string>, name: string)
    ensures name in labels <==> FindLabel(labels, name).Some?
  {
    if labels != [] {
      LabelFound(labels[..|labels| - 1], name);
      assert labels == labels[..|labels| - 1] + [labels[|labels| - 1]];
    }
  }

  lemma {:induction false} FarSeen(scopes: seq<Scope>, far: seq<seq<string>>, name: string, lv: nat)
    requires LabelsOf(scopes) + [[]] == far && InFar(far, name)
    ensures FindUp(scopes, name, lv).Some?
  {
    LabelFound(far[0], name);
    var all := LabelsOf(scopes) + [[]];
    if scopes != [] {
      assert all[0] == scopes[0].labels && all[1..] == LabelsOf(scopes[1..]) + [[]];
      if name !in far[0] { FarSeen(scopes[1..], far[1..], name, lv + 1); }
    }
  }

  lemma UpsMore(ups: seq<Upvalue>, up: Upvalue)
    ensures LocalUps(ups + [up]) <==> LocalUps(ups) && up.lv == 1
  {
    if LocalUps(ups + [up]) {
      assert (ups + [up])[|ups|] == up;
      forall k | 0 <= k < |ups| ensures ups[k].lv == 1 { assert (ups + [up])[k] == ups[k]; }
    }
  }

  lemma AllLocalMore(prots: seq<Proto>, p: Proto)
    ensures AllLocal(prots + [p]) <==> AllLocal(prots) && LocalCaptures(p)
  {
    if AllLocal(prots + [p]) {
      assert (prots + [p])[|prots|] == p;
      forall k | 0 <= k < |prots| ensures LocalCaptures(prots[k]) { assert (prots + [p])[k] == prots[k]; }
    }
  }

  /** What a name that is no parameter is captured as. */
  lemma CapturedHow(name: string, scopes: seq<Scope>, view: View)
    requires Sees(scopes, view) && Seen(name, view) && name !in view.labels
    ensures FindUp(scopes, name, 0).Some? && (FindUp(scopes, name, 0).value.lv == 1 <==> name in view.outer)
  {
    SeesLayers(scopes, view);
    LabelFound(view.labels, name);
    LabelFound(view.outer, name);
    if |scopes| > 1 {
      assert scopes[1..][0] == scopes[1] && FindUp(scopes, name, 0) == FindUp(scopes[1..], name, 1);
      if name !in view.outer {
        assert scopes[1..][1..] == scopes[2..];
        FarSeen(scopes[2..], view.far, name, 2);
        FindUpOk(scopes[2..], name, 2);
      }
    }
  }

  lemma FetchLocal(name: string, lists: Lists, scopes: seq<Scope>, view: View)
    requires Sees(scopes, view) && Seen(name, view)
    ensures Local(GenFetch(name, lists, scopes).lists) <==> Local(lists) && Seen(name, Near(view))
  {
    SeesLayers(scopes, view);
    LabelFound(view.labels, name);
    if name !in view.labels {
      CapturedHow(name, scopes, view);
      UpsMore(lists.ups, FindUp(scopes, name, 0).value);
    }
  }

  lemma {:induction false} GenLocal(e: Sexp, tail: bool, base: nat, lists: Lists, scopes: seq<Scope>, view: View)
    requires Covered(e, view) && Sees(scopes, view)
    ensures LocalIff(Gen(e, tail, false, base, lists, scopes), lists, Covered(e, Near(view)))
    decreases e, 1
  {
    match e
    case Number(_) =>
    case Symbol(name) => if name != "nil" { FetchLocal(name, lists, scopes, view); }
    case List(items) =>
      if items[0].Symbol? {
        FormLocal(items[0].name, items, tail, base, lists, scopes, view);
      } else {
        EachLocal(items, base, lists, scopes, view);
      }
  }

  lemma {:induction false} FormLocal(name: string, items: seq<Sexp>, tail: bool, base: nat, lists: Lists,
                                     scopes: seq<Scope>, view: View)
    requires items != [] && CoveredForm(name, items, view) && Sees(scopes, view)
    ensures LocalIff(GenForm(name, items, tail, base, lists, scopes), lists, CoveredForm(name, items, Near(view)))
    decreases items, 3
  {
    if name == "if" {
      IfLocal(items, tail, base, lists, scopes, view);
    } else if name == "do" {
      BodyLocal(items[1..], base, lists, scopes, view);
    } else if name == "lambda" {
      if items[1].Symbol? {
        ClosureLocal([items[1].name], -1, items[2..], lists, scopes, view);
      } else {
        ClosureLocal(Names(items[1].items).value, |items[1].items|, items[2..], lists, scopes, view);
      }
    } else if name == "let" {
      LetLocal(items, tail, base, lists, scopes, view);
    } else if name == "rec" {
      EachLocal(items[1..], base + 1, lists, scopes, view);
    } else if C.IsOperator(name) {
      OperatorLocal(name, items, tail, base, lists, scopes, view);
    } else {
      EachLocal(items, base, lists, scopes, view);
    }
  }

  lemma {:induction false} OperatorLocal(name: string, items: seq<Sexp>, tail: bool, base: nat, lists: Lists,
                                         scopes: seq<Scope>, view: View)
    requires C.IsOperator(name) && (|items| == 3 || (name == "-" && |items| == 2)) && CoveredEach(items[1..], view)
    requires Sees(scopes, view)
    ensures LocalIff(GenForm(name, items, tail, base, lists, scopes), lists, CoveredEach(items[1..], Near(view)))
    decreases items, 2
  {
    CoveredAt(items[1..], view, 0);
    TwoCovered(items, Near(view));
    if |items| == 2 {
      GenLocal(items[1], false, base, lists, scopes, view);
    } else {
      CoveredAt(items[1..], view, 1);
      var i := if IsReversed(name) then 2 else 1;
      C.OperatorShape(name, items, tail, i, base, lists, scopes);
      GenLocal(items[i], false, base, lists, scopes, view);
      var x := Gen(items[i], false, false, base, lists, scopes).value;
      GenLocal(items[3 - i], false, base + |x.code|, x.lists, scopes, view);
    }
  }

  lemma TwoCovered(items: seq<Sexp>, view: View)
    requires 2 <= |items| <= 3
    ensures CoveredEach(items[1..], view) <==> Covered(items[1], view) && (|items| == 3 ==> Covered(items[2], view))
  {
    var rest := items[1..];
    assert rest[0] == items[1] && (CoveredEach(rest, view) <==> Covered(rest[0], view) && CoveredEach(rest[1..], view));
    if |items| == 3 {
      var last := rest[1..];
      assert last[0] == items[2] && last[1..] == [];
      assert CoveredEach(last, view) <==> Covered(items[2], view);
    } else {
      assert rest[1..] == [];
    }
  }

  lemma {:induction false} IfLocal(items: seq<Sexp>, tail: bool, base: nat, lists: Lists, scopes: seq<Scope>,
                                   view: View)
    requires |items| > 2 && Covered(items[1], view) && Covered(items[2], view)
    requires (|items| > 3 ==> Covered(items[3], view)) && Sees(scopes, view)
    ensures LocalIff(GenIf(items, tail, base, lists, scopes), lists,
                     && Covered(items[1], Near(view)) && Covered(items[2], Near(view))
                     && (|items| > 3 ==> Covered(items[3], Near(view))))
    decreases items, 2
  {
    GenLocal(items[1], false, base, lists, scopes, view);
    var c := Gen(items[1], false, false, base, lists, scopes).value;
    var at := base + |c.code| + 1;
    if |items| > 3 { GenLocal(items[3], tail, at, c.lists, scopes, view); }
    var f := GenElse(items, tail, at, c.lists, scopes).value;
    GenLocal(items[2], tail, at + |f.code| + 1, f.lists, scopes, view);
  }

  lemma {:induction false} BodyLocal(items: seq<Sexp>, base: nat, lists: Lists, scopes: seq<Scope>, view: View)
    requires items != [] && CoveredEach(items, view) && Sees(scopes, view)
    ensures LocalIff(GenBody(items, base, lists, scopes), lists, CoveredEach(items, Near(view)))
    decreases items, 0
  {
    GenLocal(items[0], |items| == 1, base, lists, scopes, view);
    if |items| > 1 {
      var x := Gen(items[0], false, false, base, lists, scopes).value;
      BodyLocal(items[1..], base + |x.code| + 1, x.lists, scopes, view);
    } else {
      assert items[1..] == [];
    }
  }

  lemma {:induction false} ClosureLocal(labels: seq<string>, narg: int, body: seq<Sexp>, lists: Lists,
                                        scopes: seq<Scope>, view: View)
    requires body != [] && CoveredEach(body, Inner(view, labels)) && Sees(scopes, view)
    ensures LocalIff(GenClosure(labels, narg, body, lists, scopes), lists, CoveredEach(body, Inner(Near(view), labels)))
    decreases body, 1
  {
    var inner := [Scope(labels, false)] + scopes;
    SeesInner(scopes, view, labels);
    BodyLocal(body, 0, NOTHING, inner, Inner(view, labels));
    var b := GenBody(body, 0, NOTHING, inner).value;
    var p := Proto(b.code + One(Return, 0), b.lists.consts, b.lists.ups, b.lists.prots);
    assert LocalCaptures(p) <==> Local(b.lists);
    AllLocalMore(lists.prots, p);
  }

  lemma {:induction false} EachLocal(items: seq<Sexp>, base: nat, lists: Lists, scopes: seq<Scope>, view: View)
    requires CoveredEach(items, view) && Sees(scopes, view)
    ensures LocalIff(GenEach(items, false, base, lists, scopes), lists, CoveredEach(items, Near(view)))
    decreases items, 0
  {
    if items != [] {
      GenLocal(items[0], false, base, lists, scopes, view);
      var x := Gen(items[0], false, false, base, lists, scopes).value;
      EachLocal(items[1..], base + |x.code|, x.lists, scopes, view);
    }
  }

  lemma {:induction false} ValuesLocal(args: seq<Sexp>, base: nat, lists: Lists, scopes: seq<Scope>, view: View)
    requires |args| % 2 == 0 && CoveredValues(args, view) && Sees(scopes, view)
    ensures LocalIff(GenValues(args, base, lists, scopes), lists, CoveredValues(args, Near(view)))
    decreases args, 0
  {
    if args != [] {
      GenLocal(args[1], false, base, lists, scopes, view);
      var x := Gen(args[1], false, false, base, lists, scopes).value;
      ValuesLocal(args[2..], base + |x.code|, x.lists, scopes, view);
    }
  }

  lemma {:induction false} LetLocal(items: seq<Sexp>, tail: bool, base: nat, lists: Lists, scopes: seq<Scope>,
                                    view: View)
    requires items != [] && CoveredForm("let", items, view) && Sees(scopes, view)
    ensures LocalIff(GenLet(items, tail, base, lists, scopes), lists, CoveredForm("let", items, Near(view)))
    decreases items, 2
  {
    var args := items[1].items;
    var labels := Keys(args).value;
    ClosureLocal(labels, |labels|, items[2..], lists, scopes, view);
    var f := GenClosure(labels, |labels|, items[2..], lists, scopes).value;
    ValuesLocal(args, base + |f.code|, f.lists, scopes, view);
  }

  // ---------------------------------------------------------------- they are evaluated to the end

  /** A value made by such programs: no native function, and closures over such bodies. */
  ghost predicate Closed(v: SVal, near: bool)
    decreases v
  {
    match v
    case Plain(w) => !w.Native?
    case Many(elems) => forall k | 0 <= k < |elems| :: Closed(elems[k], near)
    case Clo(params, rest, body, labels, args, far) =>
      && body != [] && CoveredEach(body, View(params, labels, FarLabels(far), true, near)) && (rest ==> |params| == 1)
      && |labels| == |args| && (forall k | 0 <= k < |args| :: Closed(args[k], near))
      && (forall k | 0 <= k < |far| :: |far[k].labels| == |far[k].args|)
      && (forall k, i | 0 <= k < |far| && 0 <= i < |far[k].args| :: Closed(far[k].args[i], near))
  }

  ghost predicate ClosedAll(vs: seq<SVal>, near: bool) {
    forall k | 0 <= k < |vs| :: Closed(vs[k], near)
  }

  ghost predicate ClosedFar(far: seq<Layer>, near: bool) {
    forall k | 0 <= k < |far| :: |far[k].labels| == |far[k].args| && ClosedAll(far[k].args, near)
  }

  ghost predicate ClosedEnv(env: Env, near: bool) {
    && |env.labels| == |env.args| && |env.outer| == |env.oargs| && ClosedAll(env.args, near)
    && ClosedAll(env.oargs, near) && ClosedFar(env.far, near) && (env.self.Some? ==> Closed(env.self.value, near))
  }

  lemma ClosureClosed(params: seq<string>, rest: bool, body: seq<Sexp>, env: Env, near: bool)
    requires ClosedEnv(env, near) && body != [] && (rest ==> |params| == 1)
    requires CoveredEach(body, Inner(ViewOf(env, near), params))
    ensures Closed(Clo(params, rest, body, env.labels, env.args, Beyond(env)), near)
  {
    var far := Beyond(env);
    assert FarLabels(far) == [env.outer] + FarLabels(env.far);
    forall k, i | 0 <= k < |far| && 0 <= i < |far[k].args| ensures Closed(far[k].args[i], near) {
      if k > 0 { assert far[k] == env.far[k - 1] && ClosedAll(env.far[k - 1].args, near); }
    }
  }

  lemma {:induction false} FarFound(far: seq<Layer>, name: string, near: bool)
    requires ClosedFar(far, near) && InFar(FarLabels(far), name)
    ensures LookupFar(far, name).Some? && Closed(LookupFar(far, name).value, near)
  {
    LabelFound(far[0].labels, name);
    assert ClosedAll(far[0].args, near);
    if name !in far[0].labels {
      assert FarLabels(far)[1..] == FarLabels(far[1..]);
      FarFound(far[1..], name, near);
    }
  }

  lemma NameFound(name: string, env: Env, near: bool)
    requires ClosedEnv(env, near) && Seen(name, ViewOf(env, near))
    ensures Lookup(env, name).Some? && Closed(Lookup(env, name).value, near)
  {
    LabelFound(env.labels, name);
    LabelFound(env.outer, name);
    if name !in env.labels && name !in env.outer { FarFound(env.far, name, near); }
  }

  ghost predicate Inside(r: SRes, near: bool) {
    !r.Outside? && (r.Val? ==> Closed(r.v, near))
  }

  ghost predicate InsideAll(rs: SList, near: bool) {
    match rs
    case Vals(vs) => ClosedAll(vs, near)
    case Stop(r) => !r.Val? && !r.Outside?
  }

  function ViewOf(env: Env, near: bool): View {
    View(env.labels, env.outer, FarLabels(env.far), env.self.Some?, near)
  }

  lemma {:induction false} EvalInside(e: Sexp, env: Env, fuel: nat, near: bool)
    requires Covered(e, ViewOf(env, near)) && ClosedEnv(env, near)
    ensures Inside(Eval(e, env, fuel), near)
    decreases fuel, e, 1
  {
    match e
    case Number(_) =>
    case Symbol(name) =>
      if name != "nil" { NameFound(name, env, near); }
    case List(items) =>
      if items[0].Symbol? {
        FormInside(items[0].name, items, env, fuel, near);
      } else {
        CallInside(items, env, fuel, near);
      }
  }

  lemma {:induction false} FormInside(name: string, items: seq<Sexp>, env: Env, fuel: nat, near: bool)
    requires items != [] && CoveredForm(name, items, ViewOf(env, near)) && ClosedEnv(env, near)
    ensures Inside(EvalForm(name, items, env, fuel), near)
    decreases fuel, items, 3
  {
    if name == "if" {
      EvalInside(items[1], env, fuel, near);
      EvalInside(items[2], env, fuel, near);
      if |items| > 3 { EvalInside(items[3], env, fuel, near); }
      ChosenInside(Eval(items[1], env, fuel), Eval(items[2], env, fuel), EvalElse(items, env, fuel), near);
    } else if name == "do" {
      BodyInside(items[1..], env, fuel, near);
    } else if name == "lambda" {
      LambdaInside(items, env, near);
    } else if name == "let" {
      LetInside(items, env, fuel, near);
    } else if name == "rec" {
      RecInside(items, env, fuel, near);
    } else if C.IsOperator(name) {
      CoveredAt(items[1..], ViewOf(env, near), 0);
      EvalInside(items[1], env, fuel, near);
      if |items| == 3 {
        CoveredAt(items[1..], ViewOf(env, near), 1);
        EvalInside(items[2], env, fuel, near);
      }
    } else {
      CallInside(items, env, fuel, near);
    }
  }

  lemma ChosenInside(c: SRes, t: SRes, f: SRes, near: bool)
    requires Inside(c, near) && Inside(t, near) && Inside(f, near)
    ensures Inside(Chosen(c, t, f), near)
  {
  }

  lemma LambdaInside(items: seq<Sexp>, env: Env, near: bool)
    requires |items| > 2 && CoveredLambda(items[1], items[2..], ViewOf(env, near)) && ClosedEnv(env, near)
    ensures Inside(EvalLambda(items, env), near)
  {
    var params := if items[1].Symbol? then [items[1].name] else Names(items[1].items).value;
    ClosureClosed(params, items[1].Symbol?, items[2..], env, near);
  }

  lemma {:induction false} BodyInside(items: seq<Sexp>, env: Env, fuel: nat, near: bool)
    requires items != [] && CoveredEach(items, ViewOf(env, near)) && ClosedEnv(env, near)
    ensures Inside(EvalBody(items, env, fuel), near)
    decreases fuel, items, 0
  {
    EvalInside(items[0], env, fuel, near);
    if |items| > 1 { BodyInside(items[1..], env, fuel, near); }
  }

  lemma {:induction false} EachInside(items: seq<Sexp>, env: Env, fuel: nat, near: bool)
    requires CoveredEach(items, ViewOf(env, near)) && ClosedEnv(env, near)
    ensures InsideAll(EvalEach(items, env, fuel), near)
    ensures EvalEach(items, env, fuel).Vals? ==> |EvalEach(items, env, fuel).vs| == |items|
    decreases fuel, items, 0
  {
    if items != [] {
      EvalInside(items[0], env, fuel, near);
      EachInside(items[1..], env, fuel, near);
    }
  }

  lemma {:induction false} ValuesInside(args: seq<Sexp>, env: Env, fuel: nat, near: bool)
    requires |args| % 2 == 0 && CoveredValues(args, ViewOf(env, near)) && ClosedEnv(env, near)
    ensures InsideAll(EvalValues(args, env, fuel), near)
    decreases fuel, args, 0
  {
    if args != [] {
      EvalInside(args[1], env, fuel, near);
      ValuesInside(args[2..], env, fuel, near);
    }
  }

  lemma {:induction false} CallInside(items: seq<Sexp>, env: Env, fuel: nat, near: bool)
    requires items != [] && CoveredEach(items, ViewOf(env, near)) && ClosedEnv(env, near)
    ensures Inside(EvalCall(items, env, fuel), near)
    decreases fuel, items, 2
  {
    EachInside(items, env, fuel, near);
    var rs := EvalEach(items, env, fuel);
    if rs.Vals? && fuel > 0 { ApplyInside(rs.vs[0], rs.vs[1..], fuel - 1, near); }
  }

  lemma {:induction false} RecInside(items: seq<Sexp>, env: Env, fuel: nat, near: bool)
    requires items != [] && env.self.Some? && CoveredEach(items[1..], ViewOf(env, near)) && ClosedEnv(env, near)
    ensures Inside(EvalRec(items, env, fuel), near)
    decreases fuel, items, 2
  {
    EachInside(items[1..], env, fuel, near);
    var rs := EvalEach(items[1..], env, fuel);
    if rs.Vals? && fuel > 0 { ApplyInside(env.self.value, rs.vs, fuel - 1, near); }
  }

  lemma {:induction false} LetInside(items: seq<Sexp>, env: Env, fuel: nat, near: bool)
    requires items != [] && CoveredForm("let", items, ViewOf(env, near)) && ClosedEnv(env, near)
    ensures Inside(EvalLet(items, env, fuel), near)
    decreases fuel, items, 2
  {
    ValuesInside(items[1].items, env, fuel, near);
    var rs := EvalValues(items[1].items, env, fuel);
    if rs.Vals? && fuel > 0 {
      var params := Keys(items[1].items).value;
      ClosureClosed(params, false, items[2..], env, near);
      ApplyInside(Clo(params, false, items[2..], env.labels, env.args, Beyond(env)), rs.vs, fuel - 1, near);
    }
  }

  lemma {:induction false} ApplyInside(f: SVal, vs: seq<SVal>, fuel: nat, near: bool)
    requires Closed(f, near) && ClosedAll(vs, near)
    ensures Inside(Apply(f, vs, fuel), near)
    decreases fuel
  {
    if f.Clo? && (f.rest || |f.params| == |vs|) {
      assert Closed(Many(vs), near);
      var env := Env(f.params, Given(f.rest, vs), f.labels, f.args, f.far, Some(f));
      forall k | 0 <= k < |f.far| ensures ClosedAll(f.far[k].args, near) {
        forall i | 0 <= i < |f.far[k].args| ensures Closed(f.far[k].args[i], near) {
        }
      }
      BodyInside(f.body, env, fuel, near);
    }
  }
}
