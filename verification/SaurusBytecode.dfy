/** The bytecode of Saurus functions: what compile_func writes (src/compiler/compile.lua,
    src/compiler/writebin.c) and what read_prototype makes of it (src/vm/core.c). */
module SaurusBytecode {
  import opened Arithmetic
  import opened Options

  type Byte = x: int | 0 <= x < 256

  /** A double by the eight bytes of its representation. */
  type Double = s: seq<Byte> | |s| == 8 witness [0, 0, 0, 0, 0, 0, 0, 0]

  datatype Inst = Inst(id: nat, a: nat, b: int)

  datatype Upvalue = Upvalue(lv: nat, idx: nat)

  /** A constant of the compiler: a Lua value. */
  datatype Atom = Text(s: seq<Byte>) | Number(n: Double) | Truth(b: bool)

  /** A function of the compiler; an inner function has no name. */
  datatype Func = Func(insts: seq<Inst>, consts: seq<Atom>, ups: seq<Upvalue>, prots: seq<Func>,
                       name: Option<seq<Byte>>, lines: seq<nat>)

  /** A constant of the machine; strings keep their terminator. */
  datatype Const = CNil | CFalse | CTrue | CNumber(n: Double) | CString(s: seq<Byte>)

  datatype Prototype = Prototype(insts: seq<Inst>, consts: seq<Const>, ups: seq<Upvalue>, prots: seq<Prototype>,
                                 name: seq<Byte>, lines: seq<nat>)

  /** "nil" */
  const NIL: seq<Byte> := [110, 105, 108]

  // ---------------------------------------------------------------- numbers in bytes

  function U8(n: int): seq<Byte> {
    [n % 256]
  }

  function U16(n: int): seq<Byte> {
    [n % 256, n / 256 % 256]
  }

  function U32(n: int): seq<Byte> {
    [n % 256, n / 256 % 256, n / 0x1_0000 % 256, n / 0x100_0000 % 256]
  }

  function GetU16(s: seq<Byte>): nat
    requires |s| == 2
  {
    s[0] as int + 256 * s[1] as int
  }

  function GetI16(s: seq<Byte>): int
    requires |s| == 2
  {
    if GetU16(s) >= 0x8000 then GetU16(s) - 0x1_0000 else GetU16(s)
  }

  function GetU32(s: seq<Byte>): nat
    requires |s| == 4
  {
    s[0] as int + 256 * (s[1] as int + 256 * (s[2] as int + 256 * s[3] as int))
  }

  /** Sixteen bits read back, without and with a sign. */
  lemma Low16(n: int)
    ensures GetU16(U16(n)) == n % 0x1_0000 && GetI16(U16(n)) == Int16(n)
  {
    var a := n / 256;
    assert n == 256 * a + n % 256 && a == 256 * (a / 256) + a % 256;
    assert n == 0x1_0000 * (a / 256) + (256 * (a % 256) + n % 256);
  }

  /** Only the low 32 bits are written. */
  lemma Low32(n: nat)
    ensures U32(n) == U32(n % LIMIT)
  {
    var r, q := n % LIMIT, n / LIMIT;
    assert n == LIMIT * q + r;
    Shifted(n, r, q * 0x100_0000, 256);
    Shifted(n, r, q * 0x1_0000, 0x1_0000);
    Shifted(n, r, q * 256, 0x100_0000);
    Shifted(n / 256, r / 256, q * 0x1_0000, 256);
    Shifted(n / 0x1_0000, r / 0x1_0000, q * 256, 256);
    Shifted(n / 0x100_0000, r / 0x100_0000, q, 256);
  }

  lemma Shifted(n: nat, r: nat, q: nat, d: nat)
    requires d > 0 && n == d * q + r
    ensures n / d == q + r / d && n % d == r % d
  {
    DivUnique(n, d, q + r / d, r % d);
  }

  lemma Bytes32(n: int)
    requires 0 <= n < 0x1_0000_0000
    ensures GetU32(U32(n)) == n
  {
    var a, b := n / 256, n / 0x1_0000;
    assert b == a / 256 && n / 0x100_0000 == b / 256;
    assert n == 256 * a + n % 256 && a == 256 * b + a % 256 && b == 256 * (b / 256) + b % 256;
  }

  // ---------------------------------------------------------------- writing

  /** What strlen sees of a string: the bytes before the first NUL. */
  function Terminated(s: seq<Byte>): (r: seq<Byte>)
    ensures 0 !in r && r <= s
    ensures r == s <==> 0 !in s
    ensures |r| < |s| ==> s[|r|] == 0
  {
    if s == [] || s[0] == 0 then [] else [s[0]] + Terminated(s[1..])
  }

  /** writebin.string: the length with the terminator, the bytes, the terminator; nil is a zero length. */
  function PutString(s: Option<seq<Byte>>): seq<Byte> {
    match s
    case None => U32(0)
    case Some(b) => U32(|Terminated(b)| + 1) + Terminated(b) + [0]
  }

  function PutInst(i: Inst): seq<Byte> {
    U8(i.id) + U8(i.a) + U16(i.b)
  }

  function PutConst(c: Atom): seq<Byte> {
    match c
    case Text(s) => if s == NIL then U8(0) else U8(4) + PutString(Some(s))
    case Number(n) => U8(3) + n
    case Truth(b) => U8(if b then 2 else 1)
  }

  function PutUp(u: Upvalue): seq<Byte> {
    U16(u.lv) + U16(u.idx)
  }

  function PutLine(n: nat): seq<Byte> {
    U32(n)
  }

  function PutMany<T>(put: T -> seq<Byte>, xs: seq<T>): seq<Byte> {
    if xs == [] then [] else put(xs[0]) + PutMany(put, xs[1..])
  }

  /** compile_func */
  function Put(f: Func): seq<Byte>
    decreases f, 0
  {
    U32(|f.insts|) + (PutMany(PutInst, f.insts) + (U32(|f.consts|) + (PutMany(PutConst, f.consts)
      + (U32(|f.ups|) + (PutMany(PutUp, f.ups) + (U32(|f.prots|) + (PutAll(f.prots)
      + (PutString(f.name) + (U32(|f.lines|) + PutMany(PutLine, f.lines))))))))))
  }

  function PutAll(fs: seq<Func>): seq<Byte>
    decreases fs, 1
  {
    if fs == [] then [] else Put(fs[0]) + PutAll(fs[1..])
  }

  // ---------------------------------------------------------------- reading

  /** A value and the bytes behind it; None if the bytes run out or make no sense. */
  type Read<T> = Option<(T, seq<Byte>)>

  function GetBytes(n: nat, s: seq<Byte>): (r: Read<seq<Byte>>)
    ensures r.Some? ==> |r.value.1| <= |s|
  {
    if n <= |s| then Some((s[..n], s[n..])) else None
  }

  function Get32(s: seq<Byte>): (r: Read<nat>)
    ensures r.Some? ==> |r.value.1| < |s|
  {
    if |s| < 4 then None else Some((GetU32(s[..4]), s[4..]))
  }

  /** read_string */
  function GetString(s: seq<Byte>): (r: Read<seq<Byte>>)
    ensures r.Some? ==> |r.value.1| < |s|
  {
    var (n, s1) :- Get32(s);
    GetBytes(n, s1)
  }

  function GetInst(s: seq<Byte>): (r: Read<Inst>)
    ensures r.Some? ==> |r.value.1| < |s|
  {
    if |s| < 4 then None else Some((Inst(s[0], s[1], GetI16(s[2..4])), s[4..]))
  }

  /** One turn of the loop over the constants. */
  function GetConst(s: seq<Byte>): (r: Read<Const>)
    ensures r.Some? ==> |r.value.1| < |s|
  {
    if s == [] then None
    else if s[0] == 0 then Some((CNil, s[1..]))
    else if s[0] == 1 then Some((CFalse, s[1..]))
    else if s[0] == 2 then Some((CTrue, s[1..]))
    else if s[0] == 3 then
      if |s| < 9 then None else Some((CNumber(s[1..9]), s[9..]))
    else if s[0] == 4 then
      var (t, rest) :- GetString(s[1..]);
      Some((CString(t), rest))
    else None
  }

  function GetUp(s: seq<Byte>): (r: Read<Upvalue>)
    ensures r.Some? ==> |r.value.1| < |s|
  {
    if |s| < 4 then None else Some((Upvalue(GetU16(s[..2]), GetU16(s[2..4])), s[4..]))
  }

  ghost predicate Shrinks<T(!new)>(get: seq<Byte> -> Read<T>) {
    forall s :: get(s).Some? ==> |get(s).value.1| < |s|
  }

  /** A counted loop of one reading operation. */
  function GetMany<T(!new)>(get: seq<Byte> -> Read<T>, n: nat, s: seq<Byte>): (r: Read<seq<T>>)
    requires Shrinks(get)
    ensures r.Some? ==> |r.value.1| <= |s|
  {
    if n == 0 then Some(([], s))
    else
      var (x, s1) :- get(s);
      var (xs, s2) :- GetMany(get, n - 1, s1);
      Some(([x] + xs, s2))
  }

  /** A count and as many elements. */
  function GetCounted<T(!new)>(get: seq<Byte> -> Read<T>, s: seq<Byte>): (r: Read<seq<T>>)
    requires Shrinks(get)
    ensures r.Some? ==> |r.value.1| < |s|
  {
    var (n, s1) :- Get32(s);
    GetMany(get, n, s1)
  }

  /** A prototype without its inner ones: what stands before them, with their number, .. */
  function GetFront(s: seq<Byte>): (r: Read<(seq<Inst>, seq<Const>, seq<Upvalue>, nat)>)
    ensures r.Some? ==> |r.value.1| < |s|
  {
    var (insts, s1) :- GetCounted(GetInst, s);
    var (consts, s2) :- GetCounted(GetConst, s1);
    var (ups, s3) :- GetCounted(GetUp, s2);
    var (numProt, s4) :- Get32(s3);
    Some(((insts, consts, ups, numProt), s4))
  }

  /** .. and what stands behind them: the name and the lines. */
  function GetBack(s: seq<Byte>): (r: Read<(seq<Byte>, seq<nat>)>)
    ensures r.Some? ==> |r.value.1| < |s|
  {
    var (name, s1) :- GetString(s);
    var (lines, s2) :- GetCounted(Get32, s1);
    Some(((name, lines), s2))
  }

  /** read_prototype */
  function GetProto(s: seq<Byte>): (r: Read<Prototype>)
    ensures r.Some? ==> |r.value.1| < |s|
    decreases |s|, 0
  {
    var (front, s1) :- GetFront(s);
    var (prots, s2) :- GetProtos(front.3, s1);
    var (back, s3) :- GetBack(s2);
    Some((Prototype(front.0, front.1, front.2, prots, back.0, back.1), s3))
  }

  function GetProtos(n: nat, s: seq<Byte>): (r: Read<seq<Prototype>>)
    ensures r.Some? ==> |r.value.1| <= |s|
    decreases |s|, 1, n
  {
    if n == 0 then Some(([], s))
    else
      var (x, s1) :- GetProto(s);
      var (xs, s2) :- GetProtos(n - 1, s1);
      Some(([x] + xs, s2))
  }

  // ---------------------------------------------------------------- the round trip

  function Int16(b: int): int {
    var r := b % 0x1_0000;
    if r >= 0x8000 then r - 0x1_0000 else r
  }

  /** What the fields of the bytecode keep of an instruction, a capture and a line. */
  function CutInst(i: Inst): Inst {
    Inst(i.id % 256, i.a % 256, Int16(i.b))
  }

  function CutUp(u: Upvalue): Upvalue {
    Upvalue(u.lv % 0x1_0000, u.idx % 0x1_0000)
  }

  function CutLine(n: nat): nat {
    n % LIMIT
  }

  /** The machine's form of a constant; a string "nil" becomes the constant nil. */
  function LoadConst(c: Atom): Const {
    match c
    case Text(s) => if s == NIL then CNil else CString(Terminated(s) + [0])
    case Number(n) => CNumber(n)
    case Truth(b) => if b then CTrue else CFalse
  }

  function LoadName(name: Option<seq<Byte>>): seq<Byte> {
    if name.Some? then Terminated(name.value) + [0] else []
  }

  function Map<S, T>(f: S -> T, xs: seq<S>): (r: seq<T>)
    ensures |r| == |xs| && forall k | 0 <= k < |xs| :: r[k] == f(xs[k])
  {
    seq(|xs|, k requires 0 <= k < |xs| => f(xs[k]))
  }

  /** The machine's form of a function. */
  function Load(f: Func): Prototype
    decreases f, 0
  {
    Prototype(Map(CutInst, f.insts), Map(LoadConst, f.consts), Map(CutUp, f.ups), LoadAll(f.prots),
              LoadName(f.name), Map(CutLine, f.lines))
  }

  function LoadAll(fs: seq<Func>): (r: seq<Prototype>)
    ensures |r| == |fs|
    decreases fs, 1
  {
    if fs == [] then [] else [Load(fs[0])] + LoadAll(fs[1..])
  }

  const LIMIT: nat := 0x1_0000_0000

  /** Every list and string is short enough for its length to be written. */
  ghost predicate Countable(f: Func)
    decreases f
  {
    && |f.insts| < LIMIT && |f.consts| < LIMIT && |f.ups| < LIMIT && |f.prots| < LIMIT && |f.lines| < LIMIT
    && (forall c | c in f.consts :: c.Text? ==> |c.s| + 1 < LIMIT)
    && (f.name.Some? ==> |f.name.value| + 1 < LIMIT)
    && (forall g | g in f.prots :: Countable(g))
  }

  lemma Get32Put(n: nat, rest: seq<Byte>)
    requires n < LIMIT
    ensures Get32(U32(n) + rest) == Some((n, rest))
  {
    Bytes32(n);
    assert (U32(n) + rest)[..4] == U32(n);
  }

  lemma GetInstPut(i: Inst, rest: seq<Byte>)
    ensures GetInst(PutInst(i) + rest) == Some((CutInst(i), rest))
  {
    assert (PutInst(i) + rest)[2..4] == U16(i.b);
    Low16(i.b);
  }

  lemma GetUpPut(u: Upvalue, rest: seq<Byte>)
    ensures GetUp(PutUp(u) + rest) == Some((CutUp(u), rest))
  {
    var s := PutUp(u) + rest;
    assert s[..2] == U16(u.lv) && s[2..4] == U16(u.idx);
    Low16(u.lv);
    Low16(u.idx);
  }

  lemma GetLinePut(n: nat, rest: seq<Byte>)
    ensures Get32(PutLine(n) + rest) == Some((CutLine(n), rest))
  {
    Low32(n);
    Get32Put(CutLine(n), rest);
  }

  lemma GetStringPut(s: seq<Byte>, rest: seq<Byte>)
    requires |s| + 1 < LIMIT
    ensures GetString(PutString(Some(s)) + rest) == Some((Terminated(s) + [0], rest))
  {
    GetTerminated(Terminated(s), rest);
  }

  lemma GetTerminated(t: seq<Byte>, rest: seq<Byte>)
    requires |t| + 1 < LIMIT
    ensures GetString(U32(|t| + 1) + t + [0] + rest) == Some((t + [0], rest))
  {
    var body := t + [0] + rest;
    assert U32(|t| + 1) + t + [0] + rest == U32(|t| + 1) + body;
    Get32Put(|t| + 1, body);
    assert body[..|t| + 1] == t + [0];
  }

  lemma GetNoString(rest: seq<Byte>)
    ensures GetString(PutString(None) + rest) == Some(([], rest))
  {
    Get32Put(0, rest);
  }

  lemma GetConstPut(c: Atom, rest: seq<Byte>)
    requires c.Text? ==> |c.s| + 1 < LIMIT
    ensures GetConst(PutConst(c) + rest) == Some((LoadConst(c), rest))
  {
    var s := PutConst(c) + rest;
    match c
    case Text(t) =>
      if t != NIL {
        assert s[1..] == PutString(Some(t)) + rest;
        GetStringPut(t, rest);
      }
    case Number(n) => assert s[1..9] == n;
    case Truth(_) =>
  }

  /** A counted loop undoes a loop that writes what it reads. */
  lemma {:induction false} GetManyPut<S(!new), T(!new)>(put: S -> seq<Byte>, get: seq<Byte> -> Read<T>, load: S -> T,
                                        xs: seq<S>, rest: seq<Byte>)
    requires Shrinks(get)
    requires forall x, r | x in xs :: get(put(x) + r) == Some((load(x), r))
    ensures GetMany(get, |xs|, PutMany(put, xs) + rest) == Some((Map(load, xs), rest))
  {
    if xs == [] {
      assert PutMany(put, xs) + rest == rest;
    } else {
      var tail := PutMany(put, xs[1..]) + rest;
      assert PutMany(put, xs) + rest == put(xs[0]) + tail;
      GetManyPut(put, get, load, xs[1..], rest);
      assert Map(load, xs) == [load(xs[0])] + Map(load, xs[1..]);
    }
  }

  /** The parts of a function's bytes, each in front of all that follows it. */
  lemma PutParts(f: Func, rest: seq<Byte>)
    ensures Put(f) + rest ==
            U32(|f.insts|) + (PutMany(PutInst, f.insts) + (U32(|f.consts|) + (PutMany(PutConst, f.consts)
            + (U32(|f.ups|) + (PutMany(PutUp, f.ups) + (U32(|f.prots|) + (PutAll(f.prots)
            + (PutString(f.name) + (U32(|f.lines|) + (PutMany(PutLine, f.lines) + rest))))))))))
  {
    var lines := PutMany(PutLine, f.lines);
    var a := U32(|f.lines|) + lines;
    var b := PutString(f.name) + a;
    var c := PutAll(f.prots) + b;
    var d := U32(|f.prots|) + c;
    var e := PutMany(PutUp, f.ups) + d;
    var g := U32(|f.ups|) + e;
    var h := PutMany(PutConst, f.consts) + g;
    var i := U32(|f.consts|) + h;
    var j := PutMany(PutInst, f.insts) + i;
    Grouped(U32(|f.lines|), lines, rest);
    Grouped(PutString(f.name), a, rest);
    Grouped(PutAll(f.prots), b, rest);
    Grouped(U32(|f.prots|), c, rest);
    Grouped(PutMany(PutUp, f.ups), d, rest);
    Grouped(U32(|f.ups|), e, rest);
    Grouped(PutMany(PutConst, f.consts), g, rest);
    Grouped(U32(|f.consts|), h, rest);
    Grouped(PutMany(PutInst, f.insts), i, rest);
    Grouped(U32(|f.insts|), j, rest);
  }

  lemma Grouped(a: seq<Byte>, b: seq<Byte>, c: seq<Byte>)
    ensures (a + b) + c == a + (b + c)
  {
  }

  /** Reading a function undoes writing it, whatever follows it. */
  lemma {:induction false} GetProtoPut(f: Func, rest: seq<Byte>)
    requires Countable(f)
    ensures GetProto(Put(f) + rest) == Some((Load(f), rest))
    decreases f, 0
  {
    PutParts(f, rest);
    var s6 := U32(|f.lines|) + (PutMany(PutLine, f.lines) + rest);
    var s5 := PutString(f.name) + s6;
    var s4 := PutAll(f.prots) + s5;
    var s3 := U32(|f.prots|) + s4;
    var s2 := U32(|f.ups|) + (PutMany(PutUp, f.ups) + s3);
    var s1 := U32(|f.consts|) + (PutMany(PutConst, f.consts) + s2);
    InstsBack(f.insts, s1);
    ConstsBack(f.consts, s2);
    UpsBack(f.ups, s3);
    Get32Put(|f.prots|, s4);
    GetProtosPut(f.prots, s5);
    if f.name.Some? { GetStringPut(f.name.value, s6); } else { GetNoString(s6); }
    LinesBack(f.lines, rest);
  }

  lemma {:induction false} GetProtosPut(fs: seq<Func>, rest: seq<Byte>)
    requires forall g | g in fs :: Countable(g)
    ensures GetProtos(|fs|, PutAll(fs) + rest) == Some((LoadAll(fs), rest))
    decreases fs, 1
  {
    if fs == [] {
      assert PutAll(fs) + rest == rest;
    } else {
      Grouped(Put(fs[0]), PutAll(fs[1..]), rest);
      GetProtoPut(fs[0], PutAll(fs[1..]) + rest);
      GetProtosPut(fs[1..], rest);
    }
  }

  lemma InstsBack(xs: seq<Inst>, rest: seq<Byte>)
    requires |xs| < LIMIT
    ensures GetCounted(GetInst, U32(|xs|) + (PutMany(PutInst, xs) + rest)) == Some((Map(CutInst, xs), rest))
  {
    forall x, r | x in xs ensures GetInst(PutInst(x) + r) == Some((CutInst(x), r)) {
      GetInstPut(x, r);
    }
    Get32Put(|xs|, PutMany(PutInst, xs) + rest);
    GetManyPut(PutInst, GetInst, CutInst, xs, rest);
  }

  lemma ConstsBack(xs: seq<Atom>, rest: seq<Byte>)
    requires |xs| < LIMIT && forall c | c in xs :: c.Text? ==> |c.s| + 1 < LIMIT
    ensures GetCounted(GetConst, U32(|xs|) + (PutMany(PutConst, xs) + rest)) == Some((Map(LoadConst, xs), rest))
  {
    forall x, r | x in xs ensures GetConst(PutConst(x) + r) == Some((LoadConst(x), r)) {
      GetConstPut(x, r);
    }
    Get32Put(|xs|, PutMany(PutConst, xs) + rest);
    GetManyPut(PutConst, GetConst, LoadConst, xs, rest);
  }

  lemma UpsBack(xs: seq<Upvalue>, rest: seq<Byte>)
    requires |xs| < LIMIT
    ensures GetCounted(GetUp, U32(|xs|) + (PutMany(PutUp, xs) + rest)) == Some((Map(CutUp, xs), rest))
  {
    forall x, r | x in xs ensures GetUp(PutUp(x) + r) == Some((CutUp(x), r)) {
      GetUpPut(x, r);
    }
    Get32Put(|xs|, PutMany(PutUp, xs) + rest);
    GetManyPut(PutUp, GetUp, CutUp, xs, rest);
  }

  lemma LinesBack(xs: seq<nat>, rest: seq<Byte>)
    requires |xs| < LIMIT
    ensures GetCounted(Get32, U32(|xs|) + (PutMany(PutLine, xs) + rest)) == Some((Map(CutLine, xs), rest))
  {
    forall x, r | x in xs ensures Get32(PutLine(x) + r) == Some((CutLine(x), r)) {
      GetLinePut(x, r);
    }
    Get32Put(|xs|, PutMany(PutLine, xs) + rest);
    GetManyPut(PutLine, Get32, CutLine, xs, rest);
  }

  /** No function's bytes begin another's, unless the machine sees the same function. */
  lemma BytesDetermine(f: Func, g: Func, rest: seq<Byte>, more: seq<Byte>)
    requires Countable(f) && Countable(g)
    requires Put(f) + rest == Put(g) + more
    ensures Load(f) == Load(g) && rest == more
  {
    GetProtoPut(f, rest);
    GetProtoPut(g, more);
  }

  // ---------------------------------------------------------------- what does not survive

  /** The function as it was compiled, in the machine's form. */
  function Exact(f: Func): Prototype
    decreases f, 0
  {
    Prototype(f.insts, Map(ExactConst, f.consts), f.ups, ExactAll(f.prots),
              if f.name.Some? then f.name.value + [0] else [], f.lines)
  }

  function ExactAll(fs: seq<Func>): (r: seq<Prototype>)
    ensures |r| == |fs|
    decreases fs, 1
  {
    if fs == [] then [] else [Exact(fs[0])] + ExactAll(fs[1..])
  }

  function ExactConst(c: Atom): Const {
    match c
    case Text(s) => CString(s + [0])
    case Number(n) => CNumber(n)
    case Truth(b) => if b then CTrue else CFalse
  }

  predicate InstFits(i: Inst) {
    i.id < 256 && i.a < 256 && -0x8000 <= i.b < 0x8000
  }

  predicate UpFits(u: Upvalue) {
    u.lv < 0x1_0000 && u.idx < 0x1_0000
  }

  /** strlen stops at the first NUL, and the string "nil" is written as the constant nil. */
  predicate ConstFits(c: Atom) {
    c.Text? ==> 0 !in c.s && c.s != NIL
  }

  /** Every operand has room in its field, and every string is one the format can tell. */
  ghost predicate Fits(f: Func)
    decreases f
  {
    && (forall k | 0 <= k < |f.insts| :: InstFits(f.insts[k]))
        && (forall k | 0 <= k < |f.consts| :: ConstFits(f.consts[k]))
    && (forall k | 0 <= k < |f.ups| :: UpFits(f.ups[k])) && (forall k | 0 <= k < |f.lines| :: f.lines[k] < LIMIT)
    && (f.name.Some? ==> 0 !in f.name.value)
    && (forall k | 0 <= k < |f.prots| :: Fits(f.prots[k]))
  }

  lemma CutInstFits(i: Inst)
    ensures CutInst(i) == i <==> InstFits(i)
  {
  }

  lemma SameEnd(s: seq<Byte>, t: seq<Byte>)
    ensures s + [0] == t + [0] <==> s == t
  {
    if s + [0] == t + [0] {
      assert (s + [0])[..|s|] == s && (t + [0])[..|t|] == t;
    }
  }

  lemma ConstSurvivesIff(c: Atom)
    ensures LoadConst(c) == ExactConst(c) <==> ConstFits(c)
  {
    if c.Text? {
      SameEnd(Terminated(c.s), c.s);
    }
  }

  /** A mapped list is the other exactly when it is at every place. */
  lemma MapsAgree<S, T(!new)>(f: S -> T, xs: seq<S>, ys: seq<T>)
    requires |xs| == |ys|
    ensures Map(f, xs) == ys <==> forall k | 0 <= k < |xs| :: f(xs[k]) == ys[k]
  {
    if Map(f, xs) == ys {
      forall k | 0 <= k < |xs| ensures f(xs[k]) == ys[k] {
        assert Map(f, xs)[k] == ys[k];
      }
    }
  }

  lemma InstsSurviveIff(xs: seq<Inst>)
    ensures Map(CutInst, xs) == xs <==> forall k | 0 <= k < |xs| :: InstFits(xs[k])
  {
    MapsAgree(CutInst, xs, xs);
    forall k | 0 <= k < |xs| ensures CutInst(xs[k]) == xs[k] <==> InstFits(xs[k]) {
      CutInstFits(xs[k]);
    }
  }

  lemma ConstsSurviveIff(xs: seq<Atom>)
    ensures Map(LoadConst, xs) == Map(ExactConst, xs) <==> forall k | 0 <= k < |xs| :: ConstFits(xs[k])
  {
    MapsAgree(LoadConst, xs, Map(ExactConst, xs));
    forall k | 0 <= k < |xs| ensures LoadConst(xs[k]) == ExactConst(xs[k]) <==> ConstFits(xs[k]) {
      ConstSurvivesIff(xs[k]);
    }
  }

  /** The machine gets the function as it was compiled exactly when every operand has room in its field and
      no string has a NUL or, as a constant, is "nil". */
  lemma {:induction false} SurvivesIff(f: Func)
    ensures Load(f) == Exact(f) <==> Fits(f)
    decreases f, 0
  {
    InstsSurviveIff(f.insts);
    ConstsSurviveIff(f.consts);
    MapsAgree(CutUp, f.ups, f.ups);
    MapsAgree(CutLine, f.lines, f.lines);
    if f.name.Some? {
      SameEnd(Terminated(f.name.value), f.name.value);
    }
    AllSurviveIff(f.prots);
  }

  lemma {:induction false} AllSurviveIff(fs: seq<Func>)
    ensures LoadAll(fs) == ExactAll(fs) <==> forall k | 0 <= k < |fs| :: Fits(fs[k])
    decreases fs, 1
  {
    if fs != [] {
      SurvivesIff(fs[0]);
      AllSurviveIff(fs[1..]);
      assert LoadAll(fs)[0] == Load(fs[0]) && LoadAll(fs)[1..] == LoadAll(fs[1..]);
      assert ExactAll(fs)[0] == Exact(fs[0]) && ExactAll(fs)[1..] == ExactAll(fs[1..]);
      FirstAndRest(fs);
    }
  }

  lemma FirstAndRest(fs: seq<Func>)
    requires fs != []
    ensures (forall k | 0 <= k < |fs| :: Fits(fs[k])) <==>
              (Fits(fs[0]) && forall k | 0 <= k < |fs[1..]| :: Fits(fs[1..][k]))
  {
    if Fits(fs[0]) && forall k | 0 <= k < |fs[1..]| :: Fits(fs[1..][k]) {
      forall k | 0 <= k < |fs| ensures Fits(fs[k]) {
        if k > 0 { assert fs[1..][k - 1] == fs[k]; }
      }
    }
  }
}
