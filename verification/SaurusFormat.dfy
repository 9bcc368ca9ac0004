/** The bytes of a compiled function, one by one (src/compiler/compile.lua, src/compiler/writebin.c). */
module SaurusFormat {
  import opened Options
  import opened SaurusBytecode

  /** The lowest `width` bytes of a number, the lowest first. */
  function Little(n: int, width: nat): (r: seq<Byte>)
    ensures |r| == width
    decreases width
  {
    if width == 0 then [] else [n % 256] + Little(n / 256, width - 1)
  }

  lemma LittleIs(n: int)
    ensures U16(n) == Little(n, 2) && U32(n) == Little(n, 4)
  {
    assert Little(n, 2) == [n % 256] + Little(n / 256, 1) && Little(n / 256, 1) == [n / 256 % 256];
    var q := n / 0x1_0000;
    assert Little(n, 4) == [n % 256] + ([n / 256 % 256] + Little(q, 2));
    assert Little(q, 2) == [q % 256] + Little(q / 256, 1) && Little(q / 256, 1) == [q / 256 % 256];
  }

  /** The i-th byte of the instructions: number, first operand and the two bytes of the second. */
  function InstByte(xs: seq<Inst>, i: nat): Byte
    requires i < 4 * |xs|
  {
    var x := xs[i / 4];
    if i % 4 == 0 then x.id % 256
    else if i % 4 == 1 then x.a % 256
    else if i % 4 == 2 then x.b % 256
    else x.b / 256 % 256
  }

  /** The i-th byte of the captures: how many functions out, and which variable there. */
  function UpByte(xs: seq<Upvalue>, i: nat): Byte
    requires i < 4 * |xs|
  {
    var x := xs[i / 4];
    if i % 4 == 0 then x.lv % 256
    else if i % 4 == 1 then x.lv / 256 % 256
    else if i % 4 == 2 then x.idx % 256
    else x.idx / 256 % 256
  }

  function InstBytes(xs: seq<Inst>): seq<Byte> {
    seq(4 * |xs|, i requires 0 <= i < 4 * |xs| => InstByte(xs, i))
  }

  function UpBytes(xs: seq<Upvalue>): seq<Byte> {
    seq(4 * |xs|, i requires 0 <= i < 4 * |xs| => UpByte(xs, i))
  }

  lemma {:induction false} InstBytesAre(xs: seq<Inst>)
    ensures PutMany(PutInst, xs) == InstBytes(xs)
  {
    if xs != [] {
      InstBytesAre(xs[1..]);
      var r, t := InstBytes(xs), InstBytes(xs[1..]);
      assert PutInst(xs[0]) == [r[0], r[1], r[2], r[3]];
      forall i | 4 <= i < |r| ensures r[i] == t[i - 4] { assert xs[i / 4] == xs[1..][(i - 4) / 4]; }
      assert r == [r[0], r[1], r[2], r[3]] + t;
    } else {
      assert InstBytes(xs) == [];
    }
  }

  lemma {:induction false} UpBytesAre(xs: seq<Upvalue>)
    ensures PutMany(PutUp, xs) == UpBytes(xs)
  {
    if xs != [] {
      UpBytesAre(xs[1..]);
      var r, t := UpBytes(xs), UpBytes(xs[1..]);
      assert PutUp(xs[0]) == [r[0], r[1], r[2], r[3]];
      forall i | 4 <= i < |r| ensures r[i] == t[i - 4] { assert xs[i / 4] == xs[1..][(i - 4) / 4]; }
      assert r == [r[0], r[1], r[2], r[3]] + t;
    } else {
      assert UpBytes(xs) == [];
    }
  }

  /** Parts written one after the other. */
  function Joined(parts: seq<seq<Byte>>): seq<Byte> {
    if parts == [] then [] else parts[0] + Joined(parts[1..])
  }

  lemma {:induction false} ManyJoined<T>(put: T -> seq<Byte>, xs: seq<T>, parts: seq<seq<Byte>>)
    requires |parts| == |xs| && forall k | 0 <= k < |xs| :: parts[k] == put(xs[k])
    ensures PutMany(put, xs) == Joined(parts)
    decreases xs
  {
    if xs != [] {
      forall k | 0 <= k < |xs[1..]| ensures parts[1..][k] == put(xs[1..][k]) {
        assert parts[1..][k] == parts[k + 1];
      }
      ManyJoined(put, xs[1..], parts[1..]);
    }
  }

  lemma {:induction false} AllJoined(fs: seq<Func>, parts: seq<seq<Byte>>)
    requires |parts| == |fs| && forall k | 0 <= k < |fs| :: parts[k] == Put(fs[k])
    ensures PutAll(fs) == Joined(parts)
    decreases fs
  {
    if fs != [] {
      forall k | 0 <= k < |fs[1..]| ensures parts[1..][k] == Put(fs[1..][k]) {
        assert parts[1..][k] == parts[k + 1];
      }
      AllJoined(fs[1..], parts[1..]);
    }
  }

  /** A string is its length with the terminator, its characters to the first NUL, and the terminator; a missing one
      has length 0. */
  lemma StringIs(s: seq<Byte>, n: nat)
    requires n <= |s| && (forall k | 0 <= k < n :: s[k] != 0) && (n < |s| ==> s[n] == 0)
    ensures PutString(Some(s)) == Little(n + 1, 4) + s[..n] + [0]
    ensures PutString(None) == [0, 0, 0, 0]
  {
    UpToNul(s, n);
    LittleIs(n + 1);
    assert U32(0) == [0, 0, 0, 0];
  }

  lemma {:induction false} UpToNul(s: seq<Byte>, n: nat)
    requires n <= |s| && (forall k | 0 <= k < n :: s[k] != 0) && (n < |s| ==> s[n] == 0)
    ensures Terminated(s) == s[..n]
    decreases n
  {
    if n > 0 {
      UpToNul(s[1..], n - 1);
      assert s[..n] == [s[0]] + s[1..][..n - 1];
    }
  }

  /** Constants: a tag, and what it calls for. */
  lemma ConstIs(s: seq<Byte>, n: Double)
    ensures PutConst(Truth(false)) == [1] && PutConst(Truth(true)) == [2] && PutConst(Number(n)) == [3] + n
    ensures PutConst(Text(s)) == if s == [110, 105, 108] then [0] else [4] + PutString(Some(s))
  {
  }

  /** A function: how many there are, and then the instructions, the constants, the captures and the inner functions;
      its name; and how many lines, and the lines. */
  lemma SectionsAre(f: Func, consts: seq<seq<Byte>>, prots: seq<seq<Byte>>, lines: seq<seq<Byte>>)
    requires |consts| == |f.consts| && forall k | 0 <= k < |consts| :: consts[k] == PutConst(f.consts[k])
    requires |prots| == |f.prots| && forall k | 0 <= k < |prots| :: prots[k] == Put(f.prots[k])
    requires |lines| == |f.lines| && forall k | 0 <= k < |lines| :: lines[k] == Little(f.lines[k], 4)
    ensures Put(f) == Joined([
      Little(|f.insts|, 4), InstBytes(f.insts), Little(|f.consts|, 4), Joined(consts),
      Little(|f.ups|, 4), UpBytes(f.ups), Little(|f.prots|, 4), Joined(prots),
      PutString(f.name), Little(|f.lines|, 4), Joined(lines)])
  {
    ListsJoined(f, consts, prots, lines);
    var p := Parts(f);
    CountsAre(f);
    assert p == [
      Little(|f.insts|, 4), InstBytes(f.insts), Little(|f.consts|, 4), Joined(consts),
      Little(|f.ups|, 4), UpBytes(f.ups), Little(|f.prots|, 4), Joined(prots),
      PutString(f.name), Little(|f.lines|, 4), Joined(lines)];
    PartsJoined(f);
  }

  function Parts(f: Func): (p: seq<seq<Byte>>)
    ensures |p| == 11
  {
    [U32(|f.insts|), PutMany(PutInst, f.insts), U32(|f.consts|), PutMany(PutConst, f.consts),
     U32(|f.ups|), PutMany(PutUp, f.ups), U32(|f.prots|), PutAll(f.prots),
     PutString(f.name), U32(|f.lines|), PutMany(PutLine, f.lines)]
  }

  lemma CountsAre(f: Func)
    ensures U32(|f.insts|) == Little(|f.insts|, 4) && U32(|f.consts|) == Little(|f.consts|, 4)
    ensures U32(|f.ups|) == Little(|f.ups|, 4) && U32(|f.prots|) == Little(|f.prots|, 4)
    ensures U32(|f.lines|) == Little(|f.lines|, 4)
  {
    LittleIs(|f.insts|);
    LittleIs(|f.consts|);
    LittleIs(|f.ups|);
    LittleIs(|f.prots|);
    LittleIs(|f.lines|);
  }

  lemma ListsJoined(f: Func, consts: seq<seq<Byte>>, prots: seq<seq<Byte>>, lines: seq<seq<Byte>>)
    requires |consts| == |f.consts| && forall k | 0 <= k < |consts| :: consts[k] == PutConst(f.consts[k])
    requires |prots| == |f.prots| && forall k | 0 <= k < |prots| :: prots[k] == Put(f.prots[k])
    requires |lines| == |f.lines| && forall k | 0 <= k < |lines| :: lines[k] == Little(f.lines[k], 4)
    ensures PutMany(PutInst, f.insts) == InstBytes(f.insts) && PutMany(PutUp, f.ups) == UpBytes(f.ups)
    ensures PutMany(PutConst, f.consts) == Joined(consts) && PutAll(f.prots) == Joined(prots)
    ensures PutMany(PutLine, f.lines) == Joined(lines)
  {
    InstBytesAre(f.insts);
    UpBytesAre(f.ups);
    ManyJoined(PutConst, f.consts, consts);
    AllJoined(f.prots, prots);
    forall k | 0 <= k < |lines| ensures lines[k] == PutLine(f.lines[k]) { LittleIs(f.lines[k]); }
    ManyJoined(PutLine, f.lines, lines);
  }

  lemma PartsJoined(f: Func)
    ensures Put(f) == Joined(Parts(f))
  {
    var p := Parts(f);
    var a, b := p[6..], p[2..6];
    FiveJoined(a);
    FourFirst(b, a);
    assert p[2..] == b + a;
    TwoFirst(p[0], p[1], p[2..]);
    assert p == [p[0], p[1]] + p[2..];
  }

  lemma FiveJoined(p: seq<seq<Byte>>)
    requires |p| == 5
    ensures Joined(p) == p[0] + (p[1] + (p[2] + (p[3] + p[4])))
  {
    assert Joined(p[4..]) == p[4] + Joined([]) == p[4];
    assert p[1..][1..] == p[2..] && p[2..][1..] == p[3..] && p[3..][1..] == p[4..];
    assert Joined(p[2..]) == p[2] + Joined(p[3..]) && Joined(p[3..]) == p[3] + Joined(p[4..]);
  }

  lemma FourFirst(b: seq<seq<Byte>>, a: seq<seq<Byte>>)
    requires |b| == 4
    ensures Joined(b + a) == b[0] + (b[1] + (b[2] + (b[3] + Joined(a))))
  {
    var p := b + a;
    assert p[1..][1..] == p[2..] && p[2..][1..] == p[3..] && p[3..][1..] == p[4..] == a;
    assert Joined(p[2..]) == p[2] + Joined(p[3..]) && Joined(p[3..]) == p[3] + Joined(p[4..]);
  }

  lemma TwoFirst(x: seq<Byte>, y: seq<Byte>, a: seq<seq<Byte>>)
    ensures Joined([x, y] + a) == x + (y + Joined(a))
  {
    var p := [x, y] + a;
    assert p[1..][1..] == a;
  }
}
