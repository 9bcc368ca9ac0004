/** From the generator to the machine: the prototypes of the interpreter model are what it reads from the
    bytecode of the prototypes of the generator model (src/compiler/compile.lua, src/vm/core.c). */
module SaurusImage {
  import opened Options
  import G = SaurusGen
  import V = SaurusVm
  import B = SaurusBytecode

  /** How a number is kept in eight bytes. */
  datatype Packing = Packing(pack: real -> B.Double, unpack: B.Double -> real)

  /** instruction_matrix */
  function OpId(op: G.Op): nat {
    match op
    case Push => 0
    case Pop => 1
    case Copy => 2
    case Add => 3
    case Sub => 4
    case Mul => 5
    case Div => 6
    case Mod => 7
    case Pow => 8
    case Unm => 9
    case Eq => 10
    case Less => 11
    case LessEqual => 12
    case Not => 13
    case And => 14
    case Or => 15
    case Test => 16
    case Jmp => 17
    case Return => 18
    case Call => 19
    case TailCall => 20
    case Lambda => 21
    case GetGlobal => 22
    case SetGlobal => 23
    case Load => 24
  }

  /** The instruction that vm_loop takes a number for. */
  function SeeOp(id: nat): Option<G.Op> {
    if id == 0 then Some(G.Push)
    else if id == 1 then Some(G.Pop)
    else if id == 2 then Some(G.Copy)
    else if id == 3 then Some(G.Add)
    else if id == 4 then Some(G.Sub)
    else if id == 5 then Some(G.Mul)
    else if id == 6 then Some(G.Div)
    else if id == 7 then Some(G.Mod)
    else if id == 8 then Some(G.Pow)
    else if id == 9 then Some(G.Unm)
    else if id == 10 then Some(G.Eq)
    else if id == 11 then Some(G.Less)
    else if id == 12 then Some(G.LessEqual)
    else if id == 13 then Some(G.Not)
    else if id == 14 then Some(G.And)
    else if id == 15 then Some(G.Or)
    else if id == 16 then Some(G.Test)
    else if id == 17 then Some(G.Jmp)
    else if id == 18 then Some(G.Return)
    else if id == 19 then Some(G.Call)
    else if id == 20 then Some(G.TailCall)
    else if id == 21 then Some(G.Lambda)
    else if id == 22 then Some(G.GetGlobal)
    else if id == 23 then Some(G.SetGlobal)
    else if id == 24 then Some(G.Load)
    else None
  }

  /** Every instruction is taken for what it was. */
  lemma OpSeen(op: G.Op)
    ensures SeeOp(OpId(op) % 256) == Some(op)
  {
  }

  /** The instructions in the order in which compiler and machine list them. */
  const INSTRUCTIONS: seq<G.Op> := [
    G.Push, G.Pop, G.Copy, G.Add, G.Sub, G.Mul, G.Div, G.Mod, G.Pow, G.Unm, G.Eq, G.Less, G.LessEqual,
    G.Not, G.And, G.Or, G.Test, G.Jmp, G.Return, G.Call, G.TailCall, G.Lambda, G.GetGlobal, G.SetGlobal, G.Load]

  /** The number of an instruction is its place in the list, for both; other numbers are none. */
  lemma OpOrder(k: nat)
    ensures k < |INSTRUCTIONS| ==> OpId(INSTRUCTIONS[k]) == k && SeeOp(k) == Some(INSTRUCTIONS[k])
    ensures k >= |INSTRUCTIONS| ==> SeeOp(k) == None
  {
  }

  function Bytes(s: string): (r: seq<B.Byte>)
    ensures |r| == |s|
  {
    seq(|s|, k requires 0 <= k < |s| => s[k] as int % 256)
  }

  function Text(s: seq<B.Byte>): (r: string)
    ensures |r| == |s|
  {
    seq(|s|, k requires 0 <= k < |s| => s[k] as char)
  }

  // ---------------------------------------------------------------- what is compiled

  function ConstImage(c: G.Const, k: Packing): B.Atom {
    match c
    case NumConst(n) => B.Number(k.pack(n))
    case StrConst(s) => B.Text(Bytes(s))
  }

  /** `f` is the compiler's form of the prototype, whatever names and lines it carries besides. */
  ghost predicate IsImage(f: B.Func, p: G.Proto, k: Packing)
    decreases p
  {
    && |f.insts| == |p.insts| && |f.consts| == |p.consts| && |f.ups| == |p.ups| && |f.prots| == |p.prots|
    && (forall i | 0 <= i < |p.insts| :: f.insts[i] == B.Inst(OpId(p.insts[i].op), p.insts[i].a, p.insts[i].b))
    && (forall i | 0 <= i < |p.consts| :: f.consts[i] == ConstImage(p.consts[i], k))
    && (forall i | 0 <= i < |p.ups| :: f.ups[i] == B.Upvalue(p.ups[i].lv, p.ups[i].idx))
    && (forall i | 0 <= i < |p.prots| :: IsImage(f.prots[i], p.prots[i], k))
  }

  /** The constant is a string of bytes without NUL, or a number that is a `double`. */
  ghost predicate Tellable(c: G.Const, k: Packing) {
    match c
    case NumConst(n) => k.unpack(k.pack(n)) == n
    case StrConst(s) => forall i | 0 <= i < |s| :: 0 < s[i] as int < 256
  }

  ghost predicate AllTellable(p: G.Proto, k: Packing)
    decreases p
  {
    && (forall i | 0 <= i < |p.consts| :: Tellable(p.consts[i], k))
    && (forall i | 0 <= i < |p.prots| :: AllTellable(p.prots[i], k))
  }

  // ---------------------------------------------------------------- what is seen

  /** All results, if there are all. */
  function SeeEach<S, T>(see: S -> Option<T>, xs: seq<S>): (r: Option<seq<T>>)
    ensures r.Some? ==> |r.value| == |xs| && forall i | 0 <= i < |xs| :: see(xs[i]) == Some(r.value[i])
    ensures (forall i | 0 <= i < |xs| :: see(xs[i]).Some?) ==> r.Some?
  {
    if xs == [] then Some([])
    else
      var x :- see(xs[0]);
      var rest :- SeeEach(see, xs[1..]);
      Some([x] + rest)
  }

  function SeeInst(i: B.Inst): Option<G.Inst> {
    var op :- SeeOp(i.id);
    Some(G.Inst(op, i.a, i.b))
  }

  /** create_value, up to the constant nil, which the generator spells as a string; it has no booleans. */
  function SeeConst(c: B.Const, k: Packing): Option<G.Const> {
    match c
    case CNil => Some(G.StrConst("nil"))
    case CNumber(n) => Some(G.NumConst(k.unpack(n)))
    case CString(s) => if s == [] then None else Some(G.StrConst(Text(s[..|s| - 1])))
    case CTrue => None
    case CFalse => None
  }

  function ConstReader(k: Packing): B.Const -> Option<G.Const> {
    c => SeeConst(c, k)
  }

  function SeeUp(u: B.Upvalue): G.Upvalue {
    G.Upvalue(u.lv, u.idx)
  }

  /** The prototype of the interpreter model that a prototype of the machine stands for. */
  function See(q: B.Prototype, k: Packing): Option<G.Proto>
    decreases q, 1
  {
    var insts :- SeeEach(SeeInst, q.insts);
    var consts :- SeeEach(ConstReader(k), q.consts);
    var prots :- SeeAll(q.prots, k);
    Some(G.Proto(insts, consts, B.Map(SeeUp, q.ups), prots))
  }

  function SeeAll(qs: seq<B.Prototype>, k: Packing): Option<seq<G.Proto>>
    decreases qs, 0
  {
    if qs == [] then Some([])
    else
      var q :- See(qs[0], k);
      var rest :- SeeAll(qs[1..], k);
      Some([q] + rest)
  }

  lemma NilIsNil(s: string)
    requires forall i | 0 <= i < |s| :: 0 < s[i] as int < 256
    ensures Bytes(s) == B.NIL <==> s == "nil"
  {
    if Bytes(s) == B.NIL {
      assert Bytes(s)[0] == 110 && Bytes(s)[1] == 105 && Bytes(s)[2] == 108;
      assert s[0] == 'n' && s[1] == 'i' && s[2] == 'l';
    }
  }

  lemma TextOfBytes(s: string)
    requires forall i | 0 <= i < |s| :: 0 < s[i] as int < 256
    ensures Text(Bytes(s)) == s && 0 !in Bytes(s)
  {
  }

  lemma ConstSeen(c: G.Const, k: Packing)
    requires Tellable(c, k)
    ensures SeeConst(B.LoadConst(ConstImage(c, k)), k) == Some(c)
  {
    if c.StrConst? {
      NilIsNil(c.s);
      TextOfBytes(c.s);
      var t := Bytes(c.s);
      assert (t + [0])[..|t + [0]| - 1] == t;
    }
  }

  /** Reading the bytecode of a prototype, the machine sees what Encode makes of it: nothing but the operands that
      have no room in their fields is changed. */
  lemma {:induction false} LoadSeen(f: B.Func, p: G.Proto, k: Packing)
    requires IsImage(f, p, k) && AllTellable(p, k)
    ensures See(B.Load(f), k) == Some(V.Encode(p))
    decreases p, 1
  {
    InstsSeen(f.insts, p, k);
    ConstsSeen(f.consts, p.consts, k);
    UpsSeen(f.ups, p);
    AllSeen(f.prots, p.prots, k);
  }

  lemma InstsSeen(insts: seq<B.Inst>, p: G.Proto, k: Packing)
    requires |insts| == |p.insts|
    requires forall i | 0 <= i < |insts| :: insts[i] == B.Inst(OpId(p.insts[i].op), p.insts[i].a, p.insts[i].b)
    ensures SeeEach(SeeInst, B.Map(B.CutInst, insts)) == Some(V.Encode(p).insts)
  {
    var cut := B.Map(B.CutInst, insts);
    forall i | 0 <= i < |cut| ensures SeeInst(cut[i]) == Some(V.Encode(p).insts[i]) {
      OpSeen(p.insts[i].op);
    }
    assert SeeEach(SeeInst, cut).value == V.Encode(p).insts;
  }

  lemma ConstsSeen(atoms: seq<B.Atom>, consts: seq<G.Const>, k: Packing)
    requires |atoms| == |consts|
    requires forall i | 0 <= i < |consts| :: atoms[i] == ConstImage(consts[i], k) && Tellable(consts[i], k)
    ensures SeeEach(ConstReader(k), B.Map(B.LoadConst, atoms)) == Some(consts)
  {
    var loaded := B.Map(B.LoadConst, atoms);
    forall i | 0 <= i < |loaded| ensures SeeConst(loaded[i], k) == Some(consts[i]) {
      ConstSeen(consts[i], k);
    }
    assert SeeEach(ConstReader(k), loaded).value == consts;
  }

  lemma UpsSeen(ups: seq<B.Upvalue>, p: G.Proto)
    requires |ups| == |p.ups| && forall i | 0 <= i < |ups| :: ups[i] == B.Upvalue(p.ups[i].lv, p.ups[i].idx)
    ensures B.Map(SeeUp, B.Map(B.CutUp, ups)) == V.Encode(p).ups
  {
  }

  lemma {:induction false} AllSeen(fs: seq<B.Func>, ps: seq<G.Proto>, k: Packing)
    requires |fs| == |ps| && forall i | 0 <= i < |ps| :: IsImage(fs[i], ps[i], k) && AllTellable(ps[i], k)
    ensures SeeAll(B.LoadAll(fs), k) == Some(V.EncodeAll(ps))
    decreases ps, 0
  {
    if ps != [] {
      LoadSeen(fs[0], ps[0], k);
      AllSeen(fs[1..], ps[1..], k);
      assert B.LoadAll(fs)[1..] == B.LoadAll(fs[1..]);
    }
  }

  /** The whole way: what read_prototype makes of the bytes that compile_func writes. */
  lemma ReadsEncoded(f: B.Func, p: G.Proto, k: Packing, rest: seq<B.Byte>)
    requires IsImage(f, p, k) && AllTellable(p, k) && B.Countable(f)
    ensures var r := B.GetProto(B.Put(f) + rest);
            r.Some? && r.value.1 == rest && See(r.value.0, k) == Some(V.Encode(p))
    ensures See(B.GetProto(B.Put(f) + rest).value.0, k) == Some(p) <==> V.Fits(p)
  {
    B.GetProtoPut(f, rest);
    LoadSeen(f, p, k);
    V.EncodeFits(p);
  }
}
