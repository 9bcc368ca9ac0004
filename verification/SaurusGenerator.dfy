/** The code generator as it runs: instructions are appended to a growing list, and the operands of
    TEST and JMP are filled in afterwards (src/compiler/gen.lua). */
module SaurusGenerator {
  import opened Options
  import opened G = SaurusGen

  /** A function under generation. Its labels never change once its body is being generated. */
  class FuncState {
    var insts: seq<Inst>
    var consts: seq<Const>
    var ups: seq<Upvalue>
    var prots: seq<Proto>
    const scopes: seq<Scope>

    ghost function Lists(): Lists
      reads this
    {
      G.Lists(consts, ups, prots)
    }

    constructor (scopes: seq<Scope>)
      ensures this.scopes == scopes && insts == [] && Lists() == NOTHING
    {
      this.scopes := scopes;
      insts, consts, ups, prots := [], [], [], [];
    }

    /** The state after generating what `out` describes, from a state with these instructions. */
    ghost predicate Has(before: seq<Inst>, out: Option<Out>, ok: bool)
      reads this
    {
      (ok <==> out.Some?) && (ok ==> insts == before + out.value.code && Lists() == out.value.lists)
    }

    /** gen_inst */
    method Emit(op: Op, a: nat)
      modifies this`insts
      ensures insts == old(insts) + One(op, a)
    {
      insts := insts + [Inst(op, a, 0)];
    }

    /** push_const */
    method PushConst(c: Const) returns (id: nat)
      modifies this`consts
      ensures id == ConstIndex(old(consts), c) && consts == AddConst(old(consts), c)
    {
      id := 0;
      while id < |consts| && consts[id] != c
        invariant id <= |consts| && consts == old(consts)
        invariant ConstIndex(consts, c) == id + ConstIndex(consts[id..], c)
      {
        assert consts[id..][1..] == consts[id + 1..];
        id := id + 1;
      }
      if id == |consts| {
        consts := consts + [c];
      }
    }

    /** find_lable, from the last label to the first */
    static method FindLabelIn(labels: seq<string>, name: string) returns (r: Option<nat>)
      ensures r == FindLabel(labels, name)
    {
      var i: nat := |labels|;
      assert labels[..i] == labels;
      while i > 0
        invariant i <= |labels|
        invariant FindLabel(labels, name) == FindLabel(labels[..i], name)
      {
        if labels[i - 1] == name {
          return Some(i - 1);
        }
        assert labels[..i][..i - 1] == labels[..i - 1];
        i := i - 1;
      }
      return None;
    }

    method GenConst(c: Const)
      modifies this
      ensures Has(old(insts), Some(G.GenConst(c, old(Lists()))), true)
    {
      var id := PushConst(c);
      Emit(Push, id);
    }

    method GenFetch(name: string)
      requires scopes != []
      modifies this
      ensures Has(old(insts), Some(G.GenFetch(name, old(Lists()), scopes)), true)
    {
      var id := FindLabelIn(scopes[0].labels, name);
      if id.Some? {
        Emit(Load, id.value);
      } else {
        var up := FindUp(scopes, name, 0);
        if up.Some? {
          ups := ups + [up.value];
          Emit(Load, |scopes[0].labels| + |ups| - 1);
        } else {
          var c := PushConst(StrConst(name));
          Emit(GetGlobal, c);
        }
      }
    }

    method EmitCall(tail: bool, narg: nat)
      modifies this`insts
      ensures insts == old(insts) + CallOrTail(tail, scopes, narg)
    {
      Emit(if tail && (|scopes| < 2 || !scopes[1].top) then TailCall else Call, narg);
    }

    /** gen */
    method Gen(e: Sexp, tail: bool, quoted: bool) returns (ok: bool)
      requires scopes != []
      modifies this
      ensures Has(old(insts), G.Gen(e, tail, quoted, |old(insts)|, old(Lists()), scopes), ok)
      decreases e, 1
    {
      match e
      case Number(n) =>
        GenConst(NumConst(n));
        ok := true;
      case Symbol(name) =>
        if quoted || IsLiteral(name) {
          GenConst(StrConst(name));
        } else {
          GenFetch(name);
        }
        ok := true;
      case List(items) =>
        if items == [] {
          ok := false;
        } else if quoted {
          ok := GenList(items, tail);
        } else if items[0].Symbol? {
          ok := GenForm(items[0].name, items, tail);
        } else {
          ok := GenCall(items, tail);
        }
    }

    method GenForm(name: string, items: seq<Sexp>, tail: bool) returns (ok: bool)
      requires scopes != [] && items != []
      modifies this
      ensures Has(old(insts), G.GenForm(name, items, tail, |old(insts)|, old(Lists()), scopes), ok)
      decreases items, 3
    {
      if name == "if" {
        ok := GenIf(items, tail);
      } else if name == "do" {
        ok := GenBody(if |items| == 1 then items else items[1..]);
      } else if name == "quote" {
        if |items| < 2 { return false; }
        ok := Gen(items[1], tail, true);
      } else if name == "lambda" {
        ok := GenLambda(items);
      } else if name == "let" {
        ok := GenLet(items, tail);
      } else if name == "rec" {
        ok := GenRec(items, tail);
      } else if name == "define" {
        ok := GenDefine(items);
      } else if name == "macro" || name == "undef" {
        ok := false;
      } else {
        ok := GenOperator(name, items, tail);
      }
    }

    /** gen_arith, gen_logical, gen_greater and gen_greater_eq, or a call */
    method GenOperator(name: string, items: seq<Sexp>, tail: bool) returns (ok: bool)
      requires scopes != [] && items != []
      requires name != "if" && name != "do" && name != "quote" && name != "lambda" && name != "let" && name != "rec"
      requires name != "define" && name != "macro" && name != "undef"
      modifies this
      ensures Has(old(insts), G.GenForm(name, items, tail, |old(insts)|, old(Lists()), scopes), ok)
      decreases items, 2
    {
      if name == "-" && |items| == 2 {
        ok := Gen(items[1], false, false);
        Emit(Unm, 0);
      } else if BinaryOp(name).Some? {
        if |items| < 3 { return false; }
        if |items| > 3 {
          ok := GenCall(items, tail && !IsReversed(name));
        } else if IsReversed(name) {
          ok := GenBinary(BinaryOp(name).value, items, 2, 1);
        } else {
          ok := GenBinary(BinaryOp(name).value, items, 1, 2);
        }
      } else {
        ok := GenCall(items, tail);
      }
    }

    method GenBinary(op: Op, items: seq<Sexp>, i: nat, j: nat) returns (ok: bool)
      requires scopes != [] && i < |items| && j < |items|
      modifies this
      ensures Has(old(insts), G.GenBinary(op, items, i, j, |old(insts)|, old(Lists()), scopes), ok)
      decreases items, 0
    {
      ok := Gen(items[i], false, false);
      if !ok { return; }
      ok := Gen(items[j], false, false);
      Emit(op, 0);
    }

    /** The loop over the arguments of a call. */
    method GenEach(items: seq<Sexp>, quoted: bool) returns (ok: bool)
      requires scopes != []
      modifies this
      ensures Has(old(insts), G.GenEach(items, quoted, |old(insts)|, old(Lists()), scopes), ok)
      decreases items, 0
    {
      ghost var all := G.GenEach(items, quoted, |insts|, Lists(), scopes);
      for i := 0 to |items|
        invariant ToGo(all, old(insts), G.GenEach(items[i..], quoted, |insts|, Lists(), scopes))
      {
        assert items[i..][1..] == items[i + 1..];
        ghost var at, out := insts, G.Gen(items[i], false, quoted, |insts|, Lists(), scopes);
        ok := Gen(items[i], false, quoted);
        if !ok { return; }
        Regroup(at, out.value.code, G.GenEach(items[i + 1..], quoted, |insts|, Lists(), scopes));
      }
      ok := true;
    }

    /** What is generated so far, with what is still to come, makes the whole. */
    ghost predicate ToGo(all: Option<Out>, before: seq<Inst>, rest: Option<Out>)
      reads this
    {
      && (all.Some? <==> rest.Some?)
      && (all.Some? ==> insts + rest.value.code == before + all.value.code && rest.value.lists == all.value.lists)
    }

    static lemma Regroup(at: seq<Inst>, code: seq<Inst>, rest: Option<Out>)
      ensures rest.Some? ==> at + code + rest.value.code == at + (code + rest.value.code)
    {
    }

    /** gen_funccall */
    method GenCall(items: seq<Sexp>, tail: bool) returns (ok: bool)
      requires scopes != [] && items != []
      modifies this
      ensures Has(old(insts), G.GenCall(items, tail, |old(insts)|, old(Lists()), scopes), ok)
      decreases items, 1
    {
      ok := GenEach(items, false);
      EmitCall(tail, |items| - 1);
    }

    method GenRec(items: seq<Sexp>, tail: bool) returns (ok: bool)
      requires scopes != [] && items != []
      modifies this
      ensures Has(old(insts), G.GenRec(items, tail, |old(insts)|, old(Lists()), scopes), ok)
      decreases items, 1
    {
      Emit(Copy, 0);
      ok := GenEach(items[1..], false);
      EmitCall(tail, |items| - 1);
    }

    /** An expression whose value is dropped. */
    method GenDropped(e: Sexp) returns (ok: bool)
      requires scopes != []
      modifies this
      ensures var x := G.Gen(e, false, false, |old(insts)|, old(Lists()), scopes);
        (ok <==> x.Some?) && (ok ==> insts == old(insts) + (x.value.code + One(Pop, 1)) && Lists() == x.value.lists)
      decreases e, 2
    {
      ok := Gen(e, false, false);
      Emit(Pop, 1);
    }

    /** The loop over the expressions of gen_do and gen_lambda. */
    method GenBody(items: seq<Sexp>) returns (ok: bool)
      requires scopes != [] && items != []
      modifies this
      ensures Has(old(insts), G.GenBody(items, |old(insts)|, old(Lists()), scopes), ok)
      decreases items, 0
    {
      ghost var all := G.GenBody(items, |insts|, Lists(), scopes);
      for i := 0 to |items| - 1
        invariant ToGo(all, old(insts), G.GenBody(items[i..], |insts|, Lists(), scopes))
      {
        assert items[i..][1..] == items[i + 1..];
        ghost var at, out := insts, G.Gen(items[i], false, false, |insts|, Lists(), scopes);
        ok := GenDropped(items[i]);
        if !ok { return; }
        Regroup(at, out.value.code + One(Pop, 1), G.GenBody(items[i + 1..], |insts|, Lists(), scopes));
      }
      assert items[|items| - 1..] == [items[|items| - 1]];
      ghost var at := insts;
      ghost var last := G.GenBody([items[|items| - 1]], |insts|, Lists(), scopes);
      ok := Gen(items[|items| - 1], true, false);
      assert ok ==> insts == at + last.value.code;
    }

    method GenList(items: seq<Sexp>, tail: bool) returns (ok: bool)
      requires scopes != [] && items != []
      modifies this
      ensures Has(old(insts), G.GenList(items, tail, |old(insts)|, old(Lists()), scopes), ok)
      decreases items, 1
    {
      if IsName(items[0], "unquote") {
        if |items| < 2 { return false; }
        ok := Gen(items[1], tail, false);
      } else {
        GenFetch("list");
        ok := GenEach(items, true);
        EmitCall(tail, |items|);
      }
    }

    /** gen_if: both jumps are emitted without a target and patched once the target is known. */
    method GenIf(items: seq<Sexp>, tail: bool) returns (ok: bool)
      requires scopes != []
      modifies this
      ensures Has(old(insts), G.GenIf(items, tail, |old(insts)|, old(Lists()), scopes), ok)
      decreases items, 2
    {
      if |items| < 3 { return false; }
      ghost var c := G.Gen(items[1], false, false, |insts|, Lists(), scopes);
      ok := Gen(items[1], false, false);
      if !ok { return; }
      ghost var at := insts;
      ghost var f := G.GenElse(items, tail, |insts| + 1, c.value.lists, scopes);
      ok := GenArms(items, tail, c.value);
      if !ok { return; }
      ghost var toThen := |at| + |f.value.code| + 2;
      ghost var t := G.Gen(items[2], tail, false, toThen, f.value.lists, scopes);
      ArmsJoin(old(insts), c.value, f.value, t.value, toThen);
    }

    /** The code of a conditional after its condition. */
    static ghost function Arms(f: Out, t: Out, toThen: nat): seq<Inst> {
      One(Test, toThen) + f.code + One(Jmp, toThen + |t.code|) + t.code
    }

    static lemma ArmsJoin(before: seq<Inst>, c: Out, f: Out, t: Out, toThen: nat)
      ensures before + c.code + Arms(f, t, toThen) == before + Branches(c, f, t, toThen).code
    {
    }

    /** The rest of gen_if, once the condition is generated. */
    method GenArms(items: seq<Sexp>, tail: bool, ghost c: Out) returns (ok: bool)
      requires scopes != [] && |items| >= 3 && c.lists == Lists() && |c.code| <= |insts|
      modifies this
      ensures var at := |old(insts)| + 1;
        var f := G.GenElse(items, tail, at, c.lists, scopes);
        (f.None? ==> !ok)
        && (f.Some? ==>
              var toThen := at + |f.value.code| + 1;
              var t := G.Gen(items[2], tail, false, toThen, f.value.lists, scopes);
              (ok <==> t.Some?)
              && (ok ==> Lists() == t.value.lists)
              && (ok ==> insts == old(insts) + Arms(f.value, t.value, toThen)))
      decreases items, 1
    {
      ghost var before := insts;
      ghost var f := G.GenElse(items, tail, |insts| + 1, Lists(), scopes);
      var jmpidx;
      ok, jmpidx := GenElseArm(items, tail);
      if !ok { return; }
      ghost var head := before + One(Test, |insts|) + f.value.code;
      ghost var t := G.Gen(items[2], tail, false, |insts|, Lists(), scopes);
      ok := Gen(items[2], tail, false);
      if !ok { return; }
      Patch(head, Inst(Jmp, 0, 0), t.value.code, Inst(Jmp, |insts|, 0));
      insts := insts[jmpidx := Inst(Jmp, |insts|, 0)];
      ArmsAfter(before, f.value, t.value, |head| + 1);
    }

    /** The test, the `else` branch and the jump over the `then` branch, of which only the test knows its target. */
    method GenElseArm(items: seq<Sexp>, tail: bool) returns (ok: bool, jmpidx: nat)
      requires scopes != []
      modifies this
      ensures var f := G.GenElse(items, tail, |old(insts)| + 1, old(Lists()), scopes);
        (ok <==> f.Some?)
        && (ok ==> jmpidx == |old(insts)| + 1 + |f.value.code| && Lists() == f.value.lists
                   && insts == old(insts) + One(Test, jmpidx + 1) + f.value.code + [Inst(Jmp, 0, 0)])
      decreases items, 0, 1
    {
      ghost var before := insts;
      var condidx := |insts|;
      Emit(Test, 0);
      ghost var f := G.GenElse(items, tail, |insts|, Lists(), scopes);
      ok := GenElse(items, tail);
      jmpidx := |insts|;
      if !ok { return; }
      Emit(Jmp, 0);
      Regroup(before + [Inst(Test, 0, 0)], f.value.code, Some(G.Out([Inst(Jmp, 0, 0)], Lists())));
      Patch(before, Inst(Test, 0, 0), f.value.code + [Inst(Jmp, 0, 0)], Inst(Test, |insts|, 0));
      insts := insts[condidx := Inst(Test, |insts|, 0)];
      Regroup(before + [Inst(Test, |insts|, 0)], f.value.code, Some(G.Out([Inst(Jmp, 0, 0)], Lists())));
    }

    static lemma ArmsAfter(before: seq<Inst>, f: Out, t: Out, toThen: nat)
      ensures before + One(Test, toThen) + f.code + [Inst(Jmp, toThen + |t.code|, 0)] + t.code == before + Arms(f, t,
              toThen)
    {
    }

    /** Filling in an operand changes one instruction and leaves all around it. */
    static lemma Patch(a: seq<Inst>, i: Inst, b: seq<Inst>, j: Inst)
      ensures (a + [i] + b)[|a| := j] == a + [j] + b
    {
    }

    method GenElse(items: seq<Sexp>, tail: bool) returns (ok: bool)
      requires scopes != []
      modifies this
      ensures Has(old(insts), G.GenElse(items, tail, |old(insts)|, old(Lists()), scopes), ok)
      decreases items, 0, 0
    {
      if |items| > 3 {
        ok := Gen(items[3], tail, false);
      } else {
        GenConst(StrConst("nil"));
        ok := true;
      }
    }

    /** gen_lambda: the body is generated in a new function, whose prototype is added to this one. */
    method GenClosure(labels: seq<string>, narg: int, body: seq<Sexp>) returns (ok: bool)
      requires body != []
      modifies this
      ensures Has(old(insts), G.GenClosure(labels, narg, body, old(Lists()), scopes), ok)
      decreases body, 1
    {
      var inner := new FuncState([Scope(labels, false)] + scopes);
      ghost var out := G.GenBody(body, 0, NOTHING, inner.scopes);
      ok := inner.GenBody(body);
      if !ok { return; }
      assert inner.insts == out.value.code;
      inner.Emit(Return, 0);
      prots := prots + [Proto(inner.insts, inner.consts, inner.ups, inner.prots)];
      insts := insts + [Inst(Lambda, |prots| - 1, narg)];
    }

    method GenLambda(items: seq<Sexp>) returns (ok: bool)
      requires scopes != []
      modifies this
      ensures Has(old(insts), G.GenLambda(items, |old(insts)|, old(Lists()), scopes), ok)
      decreases items, 1
    {
      if |items| < 3 { return false; }
      match items[1]
      case List(args) =>
        var labels := Names(args);
        if labels.None? { return false; }
        ok := GenClosure(labels.value, |args|, items[2..]);
      case Symbol(name) => ok := GenClosure([name], -1, items[2..]);
      case Number(_) => ok := false;
    }

    /** The loop over the values of a let. */
    method GenValues(args: seq<Sexp>) returns (ok: bool)
      requires scopes != [] && |args| % 2 == 0
      modifies this
      ensures Has(old(insts), G.GenValues(args, |old(insts)|, old(Lists()), scopes), ok)
      decreases args, 0
    {
      ghost var all := G.GenValues(args, |insts|, Lists(), scopes);
      var i := 0;
      while i < |args|
        invariant i % 2 == 0 && i <= |args|
        invariant ToGo(all, old(insts), G.GenValues(args[i..], |insts|, Lists(), scopes))
      {
        assert args[i..][2..] == args[i + 2..];
        ghost var at, out := insts, G.Gen(args[i + 1], false, false, |insts|, Lists(), scopes);
        ok := Gen(args[i + 1], false, false);
        if !ok { return; }
        Regroup(at, out.value.code, G.GenValues(args[i + 2..], |insts|, Lists(), scopes));
        i := i + 2;
      }
      ok := true;
    }

    method GenLet(items: seq<Sexp>, tail: bool) returns (ok: bool)
      requires scopes != []
      modifies this
      ensures Has(old(insts), G.GenLet(items, tail, |old(insts)|, old(Lists()), scopes), ok)
      decreases items, 1
    {
      if |items| < 3 || !items[1].List? || |items[1].items| % 2 != 0 { return false; }
      var labels := Keys(items[1].items);
      if labels.None? { return false; }
      ok := GenClosure(labels.value, |labels.value|, items[2..]);
      if !ok { return; }
      ok := GenValues(items[1].items);
      EmitCall(tail, |labels.value|);
    }

    method GenDefine(items: seq<Sexp>) returns (ok: bool)
      requires scopes != []
      modifies this
      ensures Has(old(insts), G.GenDefine(items, |old(insts)|, old(Lists()), scopes), ok)
      decreases items, 1
    {
      if |items| != 3 || !items[1].Symbol? { return false; }
      ok := Gen(items[2], false, false);
      if !ok { return; }
      var id := PushConst(StrConst(items[1].name));
      Emit(SetGlobal, id);
    }
  }

  /** gen_sexp */
  method Compile(e: Sexp) returns (r: Option<Proto>)
    ensures r == GenTop(e)
  {
    var func := new FuncState([Scope([], true)]);
    ghost var out := G.Gen(e, false, false, 0, NOTHING, [Scope([], true)]);
    var ok := func.Gen(e, false, false);
    if !ok { return None; }
    assert func.insts == out.value.code;
    func.Emit(Load, 0);
    func.EmitCall(false, 1);
    func.Emit(Return, 0);
    return Some(Proto(func.insts, func.consts, func.ups, func.prots));
  }
}
