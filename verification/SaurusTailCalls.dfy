/** Exactly which programs make a tail call where the caller still has something to do
    (src/compiler/gen.lua, gen_do and call_or_tail). */
module SaurusTailCalls {
  import opened Options
  import opened SaurusGen
  import opened SaurusScope
  import opened SaurusClosures
  import opened SaurusPrograms
  import C = SaurusCorrect

  /** No function of the program makes a tail call and has something left to do: after every tail call there
      are only jumps before the return. */
  ghost predicate NoEscape(p: Proto)
    decreases p
  {
    && (forall k | 0 <= k < |p.insts| && p.insts[k].op == TailCall :: Leads(p.insts, k + 1))
    && (forall k | 0 <= k < |p.prots| :: NoEscape(p.prots[k]))
  }

  /** The same of a stretch of code. */
  predicate TailsLead(insts: seq<Inst>, base: nat, size: nat)
    requires base + size <= |insts|
    decreases size
  {
    size == 0 || (TailsLead(insts, base, size - 1) && TailLeads(insts, base + size - 1))
  }

  predicate TailLeads(insts: seq<Inst>, k: nat)
    requires k < |insts|
  {
    insts[k].op == TailCall ==> Leads(insts, k + 1)
  }

  lemma {:induction false} TailsAll(insts: seq<Inst>, size: nat)
    requires size <= |insts|
    ensures TailsLead(insts, 0, size) <==>
      forall k | 0 <= k < size && insts[k].op == TailCall :: Leads(insts, k + 1)
    decreases size
  {
    if size > 0 { TailsAll(insts, size - 1); }
  }

  lemma {:induction false} TailsJoin(insts: seq<Inst>, base: nat, m: nat, n: nat)
    requires base + m + n <= |insts|
    ensures TailsLead(insts, base, m + n) <==> TailsLead(insts, base, m) && TailsLead(insts, base + m, n)
    decreases n
  {
    if n > 0 {
      TailsJoin(insts, base, m, n - 1);
      assert base + (m + n) - 1 == base + m + n - 1 && m + n - 1 == m + (n - 1);
    }
  }

  lemma TailsOne(insts: seq<Inst>, base: nat)
    requires base < |insts|
    ensures TailsLead(insts, base, 1) <==> TailLeads(insts, base)
  {
    assert TailsLead(insts, base, 0);
  }

  lemma {:induction false} TailsNone(insts: seq<Inst>, base: nat, size: nat)
    requires base + size <= |insts| && forall k | base <= k < base + size :: insts[k].op != TailCall
    ensures TailsLead(insts, base, size)
    decreases size
  {
    if size > 0 { TailsNone(insts, base, size - 1); }
  }

  ghost predicate AllCalm(prots: seq<Proto>) {
    prots == [] || (AllCalm(prots[..|prots| - 1]) && NoEscape(prots[|prots| - 1]))
  }

  lemma {:induction false} AllCalmIs(prots: seq<Proto>)
    ensures AllCalm(prots) <==> forall k | 0 <= k < |prots| :: NoEscape(prots[k])
  {
    if prots != [] { AllCalmIs(prots[..|prots| - 1]); }
  }

  /** What the generated code, and the functions generated with it, are to satisfy. */
  ghost predicate Calm(insts: seq<Inst>, base: nat, x: Out)
    requires base + |x.code| <= |insts|
  {
    TailsLead(insts, base, |x.code|) && AllCalm(x.lists.prots)
  }

  /** The condition on an expression; `lead` says whether its value is the function's. */
  predicate Fair(e: Sexp, tail: bool, place: Place, lead: bool) {
    DoOk(e, tail, place) && (tail && !lead ==> !place.tailCalls || PlainEnd(e))
  }

  predicate FairForm(name: string, items: seq<Sexp>, tail: bool, place: Place, lead: bool)
    requires items != []
  {
    DoFormOk(name, items, tail, place) && (tail && !lead ==> !place.tailCalls || PlainForm(name, items))
  }

  predicate FairBody(items: seq<Sexp>, place: Place, lead: bool)
    requires items != []
  {
    DoBodyOk(items, place) && (!lead ==> !place.tailCalls || PlainBody(items))
  }

  // ---------------------------------------------------------------- where code lies

  function At(insts: seq<Inst>, base: nat, k: nat): Inst
    requires base + k < |insts|
  {
    insts[base + k]
  }

  /** The same as Placed; the trigger keeps proofs from looking at single instructions. */
  ghost predicate Lies(insts: seq<Inst>, base: nat, code: seq<Inst>) {
    && base + |code| <= |insts|
    && forall k: nat {:trigger At(insts, base, k)} | k < |code| :: At(insts, base, k) == code[k]
  }

  lemma LiesIs(insts: seq<Inst>, base: nat, code: seq<Inst>)
    ensures Lies(insts, base, code) <==> C.Placed(insts, base, code)
  {
    if Lies(insts, base, code) {
      forall k | 0 <= k < |code| ensures insts[base + k] == code[k] { assert At(insts, base, k) == code[k]; }
    }
  }

  lemma LiesParts(insts: seq<Inst>, base: nat, c: seq<Inst>, d: seq<Inst>)
    requires Lies(insts, base, c + d)
    ensures Lies(insts, base, c) && Lies(insts, base + |c|, d)
  {
    LiesIs(insts, base, c + d);
    C.PlacedParts(insts, base, c, d);
    LiesIs(insts, base, c);
    LiesIs(insts, base + |c|, d);
  }

  // ---------------------------------------------------------------- how code begins

  predicate Begins(code: seq<Inst>) {
    code != [] && code[0].op != Jmp && code[0].op != Return
  }

  lemma {:induction false} GenBegins(e: Sexp, tail: bool, base: nat, lists: Lists, scopes: seq<Scope>, view: View,
                                     x: Out)
    requires scopes != [] && Covered(e, view) && Gen(e, tail, false, base, lists, scopes) == Some(x)
    ensures Begins(x.code)
    decreases e, 1
  {
    if e.List? {
      var items := e.items;
      if !items[0].Symbol? {
        CallBegins(items, tail, base, lists, scopes, view, x);
      } else {
        FormBegins(items[0].name, items, tail, base, lists, scopes, view, x);
      }
    }
  }

  lemma {:induction false} FormBegins(name: string, items: seq<Sexp>, tail: bool, base: nat, lists: Lists,
                                      scopes: seq<Scope>, view: View, x: Out)
    requires scopes != [] && items != [] && CoveredForm(name, items, view)
    requires GenForm(name, items, tail, base, lists, scopes) == Some(x)
    ensures Begins(x.code)
    decreases items, 2
  {
    if name == "if" {
      IfBegins(items, tail, base, lists, scopes, view, x);
    } else if name == "do" {
      BodyBegins(items[1..], base, lists, scopes, view, x);
    } else if name == "lambda" || name == "let" || name == "rec" {
      ClosureBegins(name, items, tail, base, lists, scopes, x);
    } else if C.IsOperator(name) {
      OperatorBegins(name, items, tail, base, lists, scopes, view, x);
    } else {
      CallBegins(items, tail, base, lists, scopes, view, x);
    }
  }

  lemma ClosureBegins(name: string, items: seq<Sexp>, tail: bool, base: nat, lists: Lists, scopes: seq<Scope>, x: Out)
    requires scopes != [] && items != [] && (name == "lambda" || name == "let" || name == "rec")
    requires GenForm(name, items, tail, base, lists, scopes) == Some(x)
    ensures Begins(x.code)
  {
    if name == "let" {
      var labels := Keys(items[1].items).value;
      var f := GenClosure(labels, |labels|, items[2..], lists, scopes).value;
      assert f.code <= x.code && x.code[0] == f.code[0];
    } else if name == "rec" {
      var args := GenEach(items[1..], false, base + 1, lists, scopes).value;
      assert x.code == One(Copy, 0) + args.code + CallOrTail(tail, scopes, |items| - 1);
    } else if items[1].Symbol? {
      assert GenClosure([items[1].name], -1, items[2..], lists, scopes) == Some(x);
    } else {
      assert GenClosure(Names(items[1].items).value, |items[1].items|, items[2..], lists, scopes) == Some(x);
    }
  }

  lemma {:induction false} BodyBegins(items: seq<Sexp>, base: nat, lists: Lists, scopes: seq<Scope>, view: View, x: Out)
    requires scopes != [] && items != [] && Covered(items[0], view) && GenBody(items, base, lists, scopes) == Some(x)
    ensures Begins(x.code)
    decreases items, 0
  {
    var y := Gen(items[0], |items| == 1, false, base, lists, scopes).value;
    GenBegins(items[0], |items| == 1, base, lists, scopes, view, y);
    assert y.code <= x.code && x.code[0] == y.code[0];
  }

  lemma {:induction false} IfBegins(items: seq<Sexp>, tail: bool, base: nat, lists: Lists, scopes: seq<Scope>,
                                    view: View, x: Out)
    requires scopes != [] && |items| > 2 && Covered(items[1], view)
    requires GenIf(items, tail, base, lists, scopes) == Some(x)
    ensures Begins(x.code)
    decreases items, 1
  {
    var c := Gen(items[1], false, false, base, lists, scopes).value;
    GenBegins(items[1], false, base, lists, scopes, view, c);
    assert c.code <= x.code && x.code[0] == c.code[0];
  }

  lemma {:induction false} OperatorBegins(name: string, items: seq<Sexp>, tail: bool, base: nat, lists: Lists,
                                          scopes: seq<Scope>, view: View, x: Out)
    requires scopes != [] && C.IsOperator(name) && (|items| == 3 || (name == "-" && |items| == 2))
    requires CoveredEach(items[1..], view)
    requires GenForm(name, items, tail, base, lists, scopes) == Some(x)
    ensures Begins(x.code)
    decreases items, 1
  {
    var i := if IsReversed(name) then 2 else 1;
    CoveredAt(items[1..], view, i - 1);
    var y := Gen(items[i], false, false, base, lists, scopes).value;
    if |items| == 3 { C.OperatorShape(name, items, tail, i, base, lists, scopes); }
    GenBegins(items[i], false, base, lists, scopes, view, y);
    assert y.code <= x.code && x.code[0] == y.code[0];
  }

  lemma {:induction false} CallBegins(items: seq<Sexp>, tail: bool, base: nat, lists: Lists, scopes: seq<Scope>,
                                      view: View, x: Out)
    requires scopes != [] && items != [] && Covered(items[0], view)
    requires GenCall(items, tail, base, lists, scopes) == Some(x)
    ensures Begins(x.code)
    decreases items, 1
  {
    var y := Gen(items[0], false, false, base, lists, scopes).value;
    GenBegins(items[0], false, base, lists, scopes, view, y);
    assert y.code <= x.code && x.code[0] == y.code[0];
  }

  lemma EachBegins(items: seq<Sexp>, base: nat, lists: Lists, scopes: seq<Scope>, view: View, x: Out)
    requires scopes != [] && items != [] && Covered(items[0], view)
    requires GenEach(items, false, base, lists, scopes) == Some(x)
    ensures Begins(x.code)
  {
    var y := Gen(items[0], false, false, base, lists, scopes).value;
    GenBegins(items[0], false, base, lists, scopes, view, y);
    assert y.code <= x.code && x.code[0] == y.code[0];
  }

  lemma ValuesBegin(args: seq<Sexp>, base: nat, lists: Lists, scopes: seq<Scope>, view: View, x: Out)
    requires scopes != [] && args != [] && |args| % 2 == 0 && Covered(args[1], view)
    requires GenValues(args, base, lists, scopes) == Some(x)
    ensures Begins(x.code)
  {
    var y := Gen(args[1], false, false, base, lists, scopes).value;
    GenBegins(args[1], false, base, lists, scopes, view, y);
    assert y.code <= x.code && x.code[0] == y.code[0];
  }

  /** Code that something else follows does not lead to the return. */
  lemma Followed(insts: seq<Inst>, base: nat, c: seq<Inst>, d: seq<Inst>)
    requires Lies(insts, base, c + d) && Begins(d)
    ensures Lies(insts, base, c) && Lies(insts, base + |c|, d) && !Leads(insts, base + |c|)
  {
    LiesParts(insts, base, c, d);
    assert At(insts, base + |c|, 0) == d[0];
  }

  /** Two stretches of code, of which the second does not begin with a jump or a return. */
  lemma SequenceTails(insts: seq<Inst>, base: nat, mid: nat, y: Out, rest: Out, out: Out)
    requires out == Out(y.code + rest.code, rest.lists) && mid == base + |y.code| && Lies(insts, base, out.code)
    requires Begins(rest.code) || (rest.code == [] && !Leads(insts, mid))
    ensures Lies(insts, base, y.code) && Lies(insts, mid, rest.code) && !Leads(insts, mid)
    ensures Calm(insts, base, out) <==> TailsLead(insts, base, |y.code|) && Calm(insts, mid, rest)
  {
    LiesParts(insts, base, y.code, rest.code);
    if rest.code != [] { Followed(insts, base, y.code, rest.code); }
    TailsJoin(insts, base, |y.code|, |rest.code|);
  }

  // ---------------------------------------------------------------- expressions

  lemma {:induction false} GenTails(e: Sexp, tail: bool, base: nat, lists: Lists, scopes: seq<Scope>, view: View,
                                    insts: seq<Inst>, x: Out, lead: bool)
    requires Covered(e, view) && Sees(scopes, view) && Gen(e, tail, false, base, lists, scopes) == Some(x)
    requires Lies(insts, base, x.code) && lead == Leads(insts, base + |x.code|) && (tail || !lead)
    ensures Calm(insts, base, x) <==> AllCalm(lists.prots) && Fair(e, tail, PlaceOf(scopes), lead)
    decreases e, 1
  {
    match e
    case Number(_) => NoTails(insts, base, x);
    case Symbol(_) => NoTails(insts, base, x);
    case List(items) =>
      if items[0].Symbol? {
        FormTails(items[0].name, items, tail, base, lists, scopes, view, insts, x, lead);
      } else {
        CallTails(items, tail, base, lists, scopes, view, insts, x, lead);
      }
  }

  lemma NoTails(insts: seq<Inst>, base: nat, x: Out)
    requires Lies(insts, base, x.code) && forall k | 0 <= k < |x.code| :: x.code[k].op != TailCall
    ensures TailsLead(insts, base, |x.code|)
  {
    forall k | base <= k < base + |x.code| ensures insts[k].op != TailCall {
      assert At(insts, base, k - base) == x.code[k - base];
    }
    TailsNone(insts, base, |x.code|);
  }

  lemma {:induction false} FormTails(name: string, items: seq<Sexp>, tail: bool, base: nat, lists: Lists,
                                     scopes: seq<Scope>, view: View, insts: seq<Inst>, x: Out, lead: bool)
    requires items != [] && items[0].Symbol? && CoveredForm(name, items, view) && Sees(scopes, view)
    requires GenForm(name, items, tail, base, lists, scopes) == Some(x)
    requires Lies(insts, base, x.code) && lead == Leads(insts, base + |x.code|) && (tail || !lead)
    ensures Calm(insts, base, x) <==> AllCalm(lists.prots) && FairForm(name, items, tail, PlaceOf(scopes), lead)
    decreases items, 3
  {
    if name == "if" {
      IfTails(items, tail, base, lists, scopes, view, insts, x, lead);
    } else if name == "do" {
      BodyTails(items[1..], base, lists, scopes, view, insts, x, lead);
    } else if name == "lambda" {
      LambdaTails(items, base, lists, scopes, view, insts, x);
    } else if name == "let" {
      LetTails(items, tail, base, lists, scopes, view, insts, x, lead);
    } else if name == "rec" {
      RecTails(items, tail, base, lists, scopes, view, insts, x, lead);
    } else if C.IsOperator(name) {
      OperatorTails(name, items, tail, base, lists, scopes, view, insts, x);
    } else {
      CallTails(items, tail, base, lists, scopes, view, insts, x, lead);
    }
  }

  lemma {:induction false} OperatorTails(name: string, items: seq<Sexp>, tail: bool, base: nat, lists: Lists,
                                         scopes: seq<Scope>, view: View, insts: seq<Inst>, x: Out)
    requires items != [] && items[0].Symbol? && C.IsOperator(name) && CoveredForm(name, items, view)
    requires Sees(scopes, view) && GenForm(name, items, tail, base, lists, scopes) == Some(x)
    requires Lies(insts, base, x.code)
    ensures Calm(insts, base, x) <==> AllCalm(lists.prots) && DoEachOk(items, PlaceOf(scopes))
    decreases items, 2
  {
    CoveredAt(items[1..], view, 0);
    OperandsOk(items, PlaceOf(scopes));
    if |items| == 2 {
      var y := Gen(items[1], false, false, base, lists, scopes).value;
      LastTail(insts, base, y, Inst(Unm, 0, 0), x);
      GenTails(items[1], false, base, lists, scopes, view, insts, y, false);
    } else {
      CoveredAt(items[1..], view, 1);
      var i := if IsReversed(name) then 2 else 1;
      C.OperatorShape(name, items, tail, i, base, lists, scopes);
      BinaryTails(BinaryOp(name).value, items, i, base, lists, scopes, view, insts, x);
    }
  }

  lemma OperandsOk(items: seq<Sexp>, place: Place)
    requires 2 <= |items| <= 3 && items[0].Symbol?
    ensures DoEachOk(items, place) <==>
      DoOk(items[1], false, place) && (|items| == 3 ==> DoOk(items[2], false, place))
  {
    var rest := items[1..];
    assert rest[0] == items[1] && DoOk(items[0], false, place);
    assert DoEachOk(items, place) <==> DoEachOk(rest, place);
    assert DoEachOk(rest, place) <==> DoOk(rest[0], false, place) && DoEachOk(rest[1..], place);
    if |items| == 3 {
      var last := rest[1..];
      assert last == [items[2]] && last[1..] == [];
      assert DoEachOk(last, place) <==> DoOk(items[2], false, place);
    } else {
      assert rest[1..] == [];
    }
  }

  lemma {:induction false} BinaryTails(op: Op, items: seq<Sexp>, i: nat, base: nat, lists: Lists, scopes: seq<Scope>,
                                       view: View, insts: seq<Inst>, out: Out)
    requires |items| == 3 && 1 <= i <= 2 && Covered(items[i], view) && Covered(items[3 - i], view)
    requires op != TailCall && op != Jmp && op != Return
    requires Sees(scopes, view) && GenBinary(op, items, i, 3 - i, base, lists, scopes) == Some(out)
    requires Lies(insts, base, out.code)
    ensures Calm(insts, base, out) <==>
      AllCalm(lists.prots) && DoOk(items[i], false, PlaceOf(scopes)) && DoOk(items[3 - i], false, PlaceOf(scopes))
    decreases items, 1
  {
    var x, y, mid := BinarySplit(op, items, i, base, lists, scopes, view, insts, out);
    GenTails(items[i], false, base, lists, scopes, view, insts, x, false);
    GenTails(items[3 - i], false, mid, x.lists, scopes, view, insts, y, false);
  }

  /** The operands of an operation, in their places. */
  lemma BinarySplit(op: Op, items: seq<Sexp>, i: nat, base: nat, lists: Lists, scopes: seq<Scope>, view: View,
                    insts: seq<Inst>, out: Out)
    returns (x: Out, y: Out, mid: nat)
    requires scopes != [] && |items| == 3 && 1 <= i <= 2 && Covered(items[3 - i], view)
    requires op != TailCall && op != Jmp && op != Return
    requires GenBinary(op, items, i, 3 - i, base, lists, scopes) == Some(out) && Lies(insts, base, out.code)
    ensures Gen(items[i], false, false, base, lists, scopes) == Some(x) && mid == base + |x.code|
    ensures Gen(items[3 - i], false, false, mid, x.lists, scopes) == Some(y)
    ensures Lies(insts, base, x.code) && Lies(insts, mid, y.code) && !Leads(insts, mid) && !Leads(insts, mid + |y.code|)
    ensures Calm(insts, base, out) <==> TailsLead(insts, base, |x.code|) && Calm(insts, mid, y)
  {
    x := Gen(items[i], false, false, base, lists, scopes).value;
    mid := base + |x.code|;
    y := Gen(items[3 - i], false, false, mid, x.lists, scopes).value;
    GenBegins(items[3 - i], false, mid, x.lists, scopes, view, y);
    OperandTails(insts, base, mid, x, y, op, out);
  }

  /** Two operands and their instruction. */
  lemma OperandTails(insts: seq<Inst>, base: nat, mid: nat, x: Out, y: Out, op: Op, out: Out)
    requires out == Out(x.code + y.code + One(op, 0), y.lists) && Lies(insts, base, out.code) && mid == base + |x.code|
    requires Begins(y.code) && op != TailCall && op != Jmp && op != Return
    ensures Lies(insts, base, x.code) && Lies(insts, mid, y.code) && !Leads(insts, mid) && !Leads(insts, mid + |y.code|)
    ensures Calm(insts, base, out) <==> TailsLead(insts, base, |x.code|) && Calm(insts, mid, y)
  {
    var both := Out(x.code + y.code, y.lists);
    LastTail(insts, base, both, Inst(op, 0, 0), out);
    SequenceTails(insts, base, mid, x, y, both);
  }

  /** One more instruction that is no tail call. */
  lemma LastTail(insts: seq<Inst>, base: nat, x: Out, i: Inst, out: Out)
    requires out == Out(x.code + [i], x.lists) && Lies(insts, base, out.code)
    requires i.op != TailCall && i.op != Jmp && i.op != Return
    ensures Lies(insts, base, x.code) && !Leads(insts, base + |x.code|)
    ensures Calm(insts, base, out) <==> Calm(insts, base, x)
  {
    Followed(insts, base, x.code, [i]);
    assert At(insts, base, |x.code|) == out.code[|x.code|];
    TailsJoin(insts, base, |x.code|, 1);
    TailsOne(insts, base + |x.code|);
  }

  lemma {:induction false} IfTails(items: seq<Sexp>, tail: bool, base: nat, lists: Lists, scopes: seq<Scope>,
                                   view: View, insts: seq<Inst>, x: Out, lead: bool)
    requires items != [] && CoveredForm("if", items, view) && Sees(scopes, view)
    requires GenIf(items, tail, base, lists, scopes) == Some(x)
    requires Lies(insts, base, x.code) && lead == Leads(insts, base + |x.code|) && (tail || !lead)
    ensures Calm(insts, base, x) <==> AllCalm(lists.prots) && FairForm("if", items, tail, PlaceOf(scopes), lead)
    decreases items, 2
  {
    var c, f, t, at, toThen := IfSplit(items, tail, base, lists, scopes, insts, x, lead);
    GenTails(items[1], false, base, lists, scopes, view, insts, c, false);
    ElseTails(items, tail, at, c.lists, scopes, view, insts, f, lead);
    GenTails(items[2], tail, toThen, f.lists, scopes, view, insts, t, lead);
    FairBranches(items, tail, PlaceOf(scopes), lead);
  }

  lemma FairBranches(items: seq<Sexp>, tail: bool, place: Place, lead: bool)
    requires |items| > 2
    ensures FairForm("if", items, tail, place, lead) <==>
      && DoOk(items[1], false, place) && Fair(items[2], tail, place, lead)
      && (|items| > 3 ==> Fair(items[3], tail, place, lead))
  {
  }

  /** The parts of a conditional, in their places. */
  lemma IfSplit(items: seq<Sexp>, tail: bool, base: nat, lists: Lists, scopes: seq<Scope>, insts: seq<Inst>, x: Out,
                lead: bool)
    returns (c: Out, f: Out, t: Out, at: nat, toThen: nat)
    requires scopes != [] && |items| > 2 && GenIf(items, tail, base, lists, scopes) == Some(x)
    requires Lies(insts, base, x.code) && lead == Leads(insts, base + |x.code|)
    ensures Gen(items[1], false, false, base, lists, scopes) == Some(c) && Lies(insts, base, c.code)
    ensures GenElse(items, tail, at, c.lists, scopes) == Some(f) && Lies(insts, at, f.code)
    ensures Gen(items[2], tail, false, toThen, f.lists, scopes) == Some(t) && Lies(insts, toThen, t.code)
    ensures !Leads(insts, base + |c.code|) && lead == Leads(insts, at + |f.code|) == Leads(insts, toThen + |t.code|)
    ensures Calm(insts, base, x) <==>
      TailsLead(insts, base, |c.code|) && TailsLead(insts, at, |f.code|) && Calm(insts, toThen, t)
  {
    c := Gen(items[1], false, false, base, lists, scopes).value;
    at := base + |c.code| + 1;
    f := GenElse(items, tail, at, c.lists, scopes).value;
    toThen := at + |f.code| + 1;
    t := Gen(items[2], tail, false, toThen, f.lists, scopes).value;
    BranchesLie(insts, base, c, f, t, at, toThen, x, lead);
  }

  lemma BranchesLie(insts: seq<Inst>, base: nat, c: Out, f: Out, t: Out, at: nat, toThen: nat, x: Out, lead: bool)
    requires at == base + |c.code| + 1 && toThen == at + |f.code| + 1 && x == Branches(c, f, t, toThen)
    requires Lies(insts, base, x.code) && lead == Leads(insts, base + |x.code|)
    ensures Lies(insts, base, c.code) && Lies(insts, at, f.code) && Lies(insts, toThen, t.code)
    ensures !Leads(insts, base + |c.code|) && lead == Leads(insts, at + |f.code|) == Leads(insts, toThen + |t.code|)
    ensures Calm(insts, base, x) <==>
      TailsLead(insts, base, |c.code|) && TailsLead(insts, at, |f.code|) && Calm(insts, toThen, t)
  {
    LiesIs(insts, base, x.code);
    C.BranchesPlaced(insts, base, c, f, t, toThen);
    LiesIs(insts, base, c.code);
    LiesIs(insts, at, f.code);
    LiesIs(insts, toThen, t.code);
    BranchLeads(insts, base, c, f, t, toThen, lead);
    BranchTails(insts, base, c, f, t, toThen, x);
  }

  /** The `else` branch leads to the return if what follows the form does. */
  lemma BranchLeads(insts: seq<Inst>, base: nat, c: Out, f: Out, t: Out, toThen: nat, lead: bool)
    requires toThen == base + |c.code| + |f.code| + 2 && toThen + |t.code| <= |insts|
    requires insts[base + |c.code|] == Inst(Test, toThen, 0) && insts[toThen - 1] == Inst(Jmp, toThen + |t.code|, 0)
    requires lead == Leads(insts, toThen + |t.code|)
    ensures !Leads(insts, base + |c.code|) && Leads(insts, toThen - 1) == lead
  {
  }

  lemma BranchTails(insts: seq<Inst>, base: nat, c: Out, f: Out, t: Out, toThen: nat, x: Out)
    requires toThen == base + |c.code| + |f.code| + 2 && toThen + |t.code| <= |insts| && x == Branches(c, f, t, toThen)
    requires insts[base + |c.code|] == Inst(Test, toThen, 0) && insts[toThen - 1] == Inst(Jmp, toThen + |t.code|, 0)
    ensures Calm(insts, base, x) <==>
      && TailsLead(insts, base, |c.code|) && TailsLead(insts, base + |c.code| + 1, |f.code|) && Calm(insts, toThen, t)
  {
    var m, n := |c.code| + 1, |c.code| + 1 + |f.code|;
    TailsJoin(insts, base, |c.code|, 1);
    TailsJoin(insts, base, m, |f.code|);
    TailsJoin(insts, base, n, 1);
    TailsJoin(insts, base, n + 1, |t.code|);
    TailsOne(insts, base + |c.code|);
    TailsOne(insts, base + n);
  }

  lemma {:induction false} ElseTails(items: seq<Sexp>, tail: bool, base: nat, lists: Lists, scopes: seq<Scope>,
                                     view: View, insts: seq<Inst>, x: Out, lead: bool)
    requires (|items| > 3 ==> Covered(items[3], view)) && Sees(scopes, view)
    requires GenElse(items, tail, base, lists, scopes) == Some(x)
    requires Lies(insts, base, x.code) && lead == Leads(insts, base + |x.code|) && (tail || !lead)
    ensures Calm(insts, base, x) <==>
      AllCalm(lists.prots) && (|items| > 3 ==> Fair(items[3], tail, PlaceOf(scopes), lead))
    decreases items, 1
  {
    if |items| > 3 {
      GenTails(items[3], tail, base, lists, scopes, view, insts, x, lead);
    } else {
      NoTails(insts, base, x);
    }
  }

  lemma {:induction false} BodyTails(items: seq<Sexp>, base: nat, lists: Lists, scopes: seq<Scope>, view: View,
                                     insts: seq<Inst>, x: Out, lead: bool)
    requires items != [] && CoveredEach(items, view) && Sees(scopes, view)
    requires GenBody(items, base, lists, scopes) == Some(x)
    requires Lies(insts, base, x.code) && lead == Leads(insts, base + |x.code|)
    ensures Calm(insts, base, x) <==> AllCalm(lists.prots) && FairBody(items, PlaceOf(scopes), lead)
    decreases items, 0
  {
    if |items| == 1 {
      GenTails(items[0], true, base, lists, scopes, view, insts, x, lead);
    } else {
      var y := Gen(items[0], false, false, base, lists, scopes).value;
      var at := base + |y.code| + 1;
      var rest := GenBody(items[1..], at, y.lists, scopes).value;
      PopTails(insts, base, at, y, rest, x);
      GenTails(items[0], false, base, lists, scopes, view, insts, y, false);
      BodyTails(items[1..], at, y.lists, scopes, view, insts, rest, lead);
    }
  }

  /** A value that is dropped, and the rest of a body. */
  lemma PopTails(insts: seq<Inst>, base: nat, at: nat, y: Out, rest: Out, x: Out)
    requires x == Out(y.code + One(Pop, 1) + rest.code, rest.lists) && Lies(insts, base, x.code)
    requires at == base + |y.code| + 1
    ensures Lies(insts, base, y.code) && Lies(insts, at, rest.code) && !Leads(insts, base + |y.code|)
    ensures Calm(insts, base, x) <==> TailsLead(insts, base, |y.code|) && Calm(insts, at, rest)
  {
    var dropped := Out(y.code + One(Pop, 1), rest.lists);
    LiesParts(insts, base, dropped.code, rest.code);
    LastTail(insts, base, Out(y.code, rest.lists), Inst(Pop, 1, 0), dropped);
    TailsJoin(insts, base, |dropped.code|, |rest.code|);
  }

  // ---------------------------------------------------------------- functions

  lemma {:induction false} ClosureTails(labels: seq<string>, narg: int, body: seq<Sexp>, lists: Lists,
                                        scopes: seq<Scope>, view: View, f: Out)
    requires body != [] && CoveredEach(body, Inner(view, labels)) && Sees(scopes, view)
    requires GenClosure(labels, narg, body, lists, scopes) == Some(f)
    ensures AllCalm(f.lists.prots) <==> AllCalm(lists.prots) && DoBodyOk(body, Within(PlaceOf(scopes)))
    decreases body, 1
  {
    var inner := [Scope(labels, false)] + scopes;
    SeesInner(scopes, view, labels);
    assert inner[1] == scopes[0];
    var b := GenBody(body, 0, NOTHING, inner).value;
    var p := Proto(b.code + One(Return, 0), b.lists.consts, b.lists.ups, b.lists.prots);
    assert p.insts[|b.code|] == Inst(Return, 0, 0) && Leads(p.insts, |b.code|);
    BodyTails(body, 0, NOTHING, inner, Inner(view, labels), p.insts, b, true);
    TailsJoin(p.insts, 0, |b.code|, 1);
    TailsOne(p.insts, |b.code|);
    TailsAll(p.insts, |p.insts|);
    AllCalmIs(b.lists.prots);
    assert NoEscape(p) <==> DoBodyOk(body, Within(PlaceOf(scopes)));
    var more := lists.prots + [p];
    assert f.lists.prots == more && more[..|more| - 1] == lists.prots && more[|more| - 1] == p;
  }

  lemma {:induction false} LambdaTails(items: seq<Sexp>, base: nat, lists: Lists, scopes: seq<Scope>, view: View,
                                       insts: seq<Inst>, x: Out)
    requires |items| > 2 && CoveredLambda(items[1], items[2..], view) && Sees(scopes, view)
    requires GenLambda(items, base, lists, scopes) == Some(x) && Lies(insts, base, x.code)
    ensures Calm(insts, base, x) <==> AllCalm(lists.prots) && DoBodyOk(items[2..], Within(PlaceOf(scopes)))
    decreases items, 2
  {
    NoTails(insts, base, x);
    if items[1].Symbol? {
      ClosureTails([items[1].name], -1, items[2..], lists, scopes, view, x);
    } else {
      ClosureTails(Names(items[1].items).value, |items[1].items|, items[2..], lists, scopes, view, x);
    }
  }

  // ---------------------------------------------------------------- calls

  /** The call after its callee and arguments. */
  lemma CallAfter(insts: seq<Inst>, base: nat, all: Out, tail: bool, scopes: seq<Scope>, n: nat, x: Out, lead: bool)
    requires scopes != [] && x == Out(all.code + CallOrTail(tail, scopes, n), all.lists)
    requires Lies(insts, base, x.code) && lead == Leads(insts, base + |x.code|)
    ensures Lies(insts, base, all.code) && !Leads(insts, base + |all.code|)
    ensures Calm(insts, base, x) <==> Calm(insts, base, all) && (tail && PlaceOf(scopes).tailCalls ==> lead)
  {
    var end := base + |all.code|;
    Followed(insts, base, all.code, CallOrTail(tail, scopes, n));
    assert At(insts, base, |all.code|) == x.code[|all.code|];
    TailsJoin(insts, base, |all.code|, 1);
    TailsOne(insts, end);
  }

  lemma {:induction false} EachTails(items: seq<Sexp>, base: nat, lists: Lists, scopes: seq<Scope>, view: View,
                                     insts: seq<Inst>, x: Out)
    requires CoveredEach(items, view) && Sees(scopes, view) && GenEach(items, false, base, lists, scopes) == Some(x)
    requires Lies(insts, base, x.code) && !Leads(insts, base + |x.code|)
    ensures Calm(insts, base, x) <==> AllCalm(lists.prots) && DoEachOk(items, PlaceOf(scopes))
    decreases items, 0
  {
    if items != [] {
      var y := Gen(items[0], false, false, base, lists, scopes).value;
      var at := base + |y.code|;
      var rest := GenEach(items[1..], false, at, y.lists, scopes).value;
      if |items| > 1 { EachBegins(items[1..], at, y.lists, scopes, view, rest); }
      SequenceTails(insts, base, at, y, rest, x);
      GenTails(items[0], false, base, lists, scopes, view, insts, y, false);
      EachTails(items[1..], at, y.lists, scopes, view, insts, rest);
    }
  }

  lemma {:induction false} ValuesTails(args: seq<Sexp>, base: nat, lists: Lists, scopes: seq<Scope>, view: View,
                                       insts: seq<Inst>, x: Out)
    requires |args| % 2 == 0 && Keys(args).Some? && CoveredValues(args, view) && Sees(scopes, view)
    requires GenValues(args, base, lists, scopes) == Some(x)
    requires Lies(insts, base, x.code) && !Leads(insts, base + |x.code|)
    ensures Calm(insts, base, x) <==> AllCalm(lists.prots) && DoEachOk(args, PlaceOf(scopes))
    decreases args, 0
  {
    if args != [] {
      var y := Gen(args[1], false, false, base, lists, scopes).value;
      var at := base + |y.code|;
      var rest := GenValues(args[2..], at, y.lists, scopes).value;
      if |args| > 2 { ValuesBegin(args[2..], at, y.lists, scopes, view, rest); }
      SequenceTails(insts, base, at, y, rest, x);
      GenTails(args[1], false, base, lists, scopes, view, insts, y, false);
      ValuesTails(args[2..], at, y.lists, scopes, view, insts, rest);
      assert args[1..][1..] == args[2..];
    }
  }

  lemma {:induction false} CallTails(items: seq<Sexp>, tail: bool, base: nat, lists: Lists, scopes: seq<Scope>,
                                     view: View, insts: seq<Inst>, x: Out, lead: bool)
    requires items != [] && CoveredEach(items, view) && Sees(scopes, view)
    requires GenCall(items, tail, base, lists, scopes) == Some(x)
    requires Lies(insts, base, x.code) && lead == Leads(insts, base + |x.code|)
    ensures Calm(insts, base, x) <==>
      AllCalm(lists.prots) && DoEachOk(items, PlaceOf(scopes)) && (tail && PlaceOf(scopes).tailCalls ==> lead)
    decreases items, 1
  {
    var all := GenEach(items, false, base, lists, scopes).value;
    CallAfter(insts, base, all, tail, scopes, |items| - 1, x, lead);
    EachTails(items, base, lists, scopes, view, insts, all);
  }

  /** The callee, by one instruction, its arguments, and the call. */
  lemma CallOfTails(insts: seq<Inst>, base: nat, mid: nat, f: Out, args: Out, tail: bool, scopes: seq<Scope>, n: nat,
                    x: Out, lead: bool)
    requires scopes != [] && x == Out(f.code + args.code + CallOrTail(tail, scopes, n), args.lists)
    requires |f.code| == 1 && f.code[0].op != TailCall && mid == base + 1
    requires Lies(insts, base, x.code) && lead == Leads(insts, base + |x.code|)
    ensures Lies(insts, mid, args.code) && !Leads(insts, mid + |args.code|)
    ensures Calm(insts, base, x) <==> Calm(insts, mid, args) && (tail && PlaceOf(scopes).tailCalls ==> lead)
  {
    var all := Out(f.code + args.code, args.lists);
    CallAfter(insts, base, all, tail, scopes, n, x, lead);
    LiesParts(insts, base, f.code, args.code);
    NoTails(insts, base, f);
    TailsJoin(insts, base, 1, |args.code|);
  }

  lemma {:induction false} RecTails(items: seq<Sexp>, tail: bool, base: nat, lists: Lists, scopes: seq<Scope>,
                                    view: View, insts: seq<Inst>, x: Out, lead: bool)
    requires items != [] && items[0].Symbol? && CoveredEach(items[1..], view) && Sees(scopes, view)
    requires GenRec(items, tail, base, lists, scopes) == Some(x)
    requires Lies(insts, base, x.code) && lead == Leads(insts, base + |x.code|)
    ensures Calm(insts, base, x) <==>
      AllCalm(lists.prots) && DoEachOk(items, PlaceOf(scopes)) && (tail && PlaceOf(scopes).tailCalls ==> lead)
    decreases items, 1
  {
    var args := RecSplit(items, tail, base, lists, scopes, insts, x, lead);
    EachTails(items[1..], base + 1, lists, scopes, view, insts, args);
  }

  /** The arguments of a recursive call, in their place. */
  lemma RecSplit(items: seq<Sexp>, tail: bool, base: nat, lists: Lists, scopes: seq<Scope>, insts: seq<Inst>, x: Out,
                 lead: bool)
    returns (args: Out)
    requires scopes != [] && items != [] && GenRec(items, tail, base, lists, scopes) == Some(x)
    requires Lies(insts, base, x.code) && lead == Leads(insts, base + |x.code|)
    ensures GenEach(items[1..], false, base + 1, lists, scopes) == Some(args)
    ensures Lies(insts, base + 1, args.code) && !Leads(insts, base + 1 + |args.code|)
    ensures Calm(insts, base, x) <==>
      Calm(insts, base + 1, args) && (tail && PlaceOf(scopes).tailCalls ==> lead)
  {
    args := GenEach(items[1..], false, base + 1, lists, scopes).value;
    CallOfTails(insts, base, base + 1, Out(One(Copy, 0), lists), args, tail, scopes, |items| - 1, x, lead);
  }

  lemma {:induction false} LetTails(items: seq<Sexp>, tail: bool, base: nat, lists: Lists, scopes: seq<Scope>,
                                    view: View, insts: seq<Inst>, x: Out, lead: bool)
    requires items != [] && CoveredForm("let", items, view) && Sees(scopes, view)
    requires GenLet(items, tail, base, lists, scopes) == Some(x)
    requires Lies(insts, base, x.code) && lead == Leads(insts, base + |x.code|)
    ensures Calm(insts, base, x) <==>
      && AllCalm(lists.prots) && DoFormOk("let", items, tail, PlaceOf(scopes))
      && (tail && PlaceOf(scopes).tailCalls ==> lead)
    decreases items, 2
  {
    var args := items[1].items;
    var labels := Keys(args).value;
    var f := GenClosure(labels, |labels|, items[2..], lists, scopes).value;
    var at := base + |f.code|;
    var values := GenValues(args, at, f.lists, scopes).value;
    CallOfTails(insts, base, at, f, values, tail, scopes, |labels|, x, lead);
    ClosureTails(labels, |labels|, items[2..], lists, scopes, view, f);
    ValuesTails(args, at, f.lists, scopes, view, insts, values);
  }

  // ---------------------------------------------------------------- programs

  /** A program makes a tail call with something left to do if and only if, in a function whose tail calls are
      generated as such, a `do` whose value is not the function's ends in a call. */
  lemma EscapesIff(e: Sexp, p: Proto, near: bool)
    requires Covered(e, TopView(near)) && GenTop(e) == Some(p)
    ensures NoEscape(p) <==> DoOk(e, false, TOP)
  {
    var scopes := [Scope([], true)];
    var x := Gen(e, false, false, 0, NOTHING, scopes).value;
    TopTails(x, p, |x.code|);
    TopSees(near);
    GenTails(e, false, 0, NOTHING, scopes, TopView(near), p.insts, x, false);
  }

  lemma TopTails(x: Out, p: Proto, end: nat)
    requires p == TopProto(x) && end == |x.code|
    ensures Lies(p.insts, 0, x.code) && !Leads(p.insts, end)
    ensures NoEscape(p) <==> Calm(p.insts, 0, x)
  {
    TopPlaced(x, p, end);
    LiesIs(p.insts, 0, x.code);
    TailsJoin(p.insts, 0, end, 3);
    TailsNone(p.insts, end, 3);
    TailsAll(p.insts, end + 3);
    AllCalmIs(p.prots);
  }
}
