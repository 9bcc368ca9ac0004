/** Writing and reading Saurus bytecode step by step: compile_func appends to a stream
    (src/compiler/compile.lua), read_prototype takes what it needs from chunks that a
    reader hands out in sizes of its own (src/vm/core.c). */
module SaurusBytecodeIo {
  import opened Options
  import opened SaurusBytecode

  class Writer {
    var out: seq<Byte>

    constructor ()
      ensures out == []
    {
      out := [];
    }

    method Write(bytes: seq<Byte>)
      modifies this
      ensures out == old(out) + bytes
    {
      out := out + bytes;
    }

    method WriteConst(c: Atom)
      modifies this
      ensures out == old(out) + PutConst(c)
    {
      match c
      case Text(s) =>
        if s == NIL {
          Write(U8(0));
        } else {
          Write(U8(4));
          Write(PutString(Some(s)));
        }
      case Number(n) =>
        Write(U8(3));
        Write(n);
      case Truth(b) => Write(U8(if b then 2 else 1));
    }

    method WriteInsts(insts: seq<Inst>)
      modifies this
      ensures out == old(out) + (U32(|insts|) + PutMany(PutInst, insts))
    {
      ghost var goal := out + (U32(|insts|) + PutMany(PutInst, insts));
      Grouped(out, U32(|insts|), PutMany(PutInst, insts));
      Write(U32(|insts|));
      for k := 0 to |insts|
        invariant out + PutMany(PutInst, insts[k..]) == goal
      {
        ghost var before := out;
        Write(U8(insts[k].id));
        Write(U8(insts[k].a));
        Write(U16(insts[k].b));
        Next(PutInst, insts, k);
        Grouped(before, PutInst(insts[k]), PutMany(PutInst, insts[k + 1..]));
      }
    }

    method WriteConsts(consts: seq<Atom>)
      modifies this
      ensures out == old(out) + (U32(|consts|) + PutMany(PutConst, consts))
    {
      ghost var goal := out + (U32(|consts|) + PutMany(PutConst, consts));
      Grouped(out, U32(|consts|), PutMany(PutConst, consts));
      Write(U32(|consts|));
      for k := 0 to |consts|
        invariant out + PutMany(PutConst, consts[k..]) == goal
      {
        ghost var before := out;
        WriteConst(consts[k]);
        Next(PutConst, consts, k);
        Grouped(before, PutConst(consts[k]), PutMany(PutConst, consts[k + 1..]));
      }
    }

    method WriteUps(ups: seq<Upvalue>)
      modifies this
      ensures out == old(out) + (U32(|ups|) + PutMany(PutUp, ups))
    {
      ghost var goal := out + (U32(|ups|) + PutMany(PutUp, ups));
      Grouped(out, U32(|ups|), PutMany(PutUp, ups));
      Write(U32(|ups|));
      for k := 0 to |ups|
        invariant out + PutMany(PutUp, ups[k..]) == goal
      {
        ghost var before := out;
        Write(U16(ups[k].lv));
        Write(U16(ups[k].idx));
        Next(PutUp, ups, k);
        Grouped(before, PutUp(ups[k]), PutMany(PutUp, ups[k + 1..]));
      }
    }

    method WriteLines(lines: seq<nat>)
      modifies this
      ensures out == old(out) + (U32(|lines|) + PutMany(PutLine, lines))
    {
      ghost var goal := out + (U32(|lines|) + PutMany(PutLine, lines));
      Grouped(out, U32(|lines|), PutMany(PutLine, lines));
      Write(U32(|lines|));
      for k := 0 to |lines|
        invariant out + PutMany(PutLine, lines[k..]) == goal
      {
        ghost var before := out;
        Write(U32(lines[k]));
        Next(PutLine, lines, k);
        Grouped(before, PutLine(lines[k]), PutMany(PutLine, lines[k + 1..]));
      }
    }

    method WriteProts(fs: seq<Func>)
      modifies this
      ensures out == old(out) + (U32(|fs|) + PutAll(fs))
      decreases fs, 1
    {
      ghost var goal := out + (U32(|fs|) + PutAll(fs));
      Grouped(out, U32(|fs|), PutAll(fs));
      Write(U32(|fs|));
      for k := 0 to |fs|
        invariant out + PutAll(fs[k..]) == goal
      {
        ghost var before := out;
        CompileFunc(fs[k]);
        assert fs[k..][0] == fs[k] && fs[k..][1..] == fs[k + 1..];
        Grouped(before, Put(fs[k]), PutAll(fs[k + 1..]));
      }
    }

    /** compile_func */
    method CompileFunc(f: Func)
      modifies this
      ensures out == old(out) + Put(f)
      decreases f, 0
    {
      WriteInsts(f.insts);
      WriteConsts(f.consts);
      WriteUps(f.ups);
      WriteProts(f.prots);
      Write(PutString(f.name));
      WriteLines(f.lines);
      PutInOrder(old(out), f);
    }
  }

  /** The turn of a loop that writes xs[k]. */
  lemma Next<T>(put: T -> seq<Byte>, xs: seq<T>, k: nat)
    requires k < |xs|
    ensures PutMany(put, xs[k..]) == put(xs[k]) + PutMany(put, xs[k + 1..])
  {
    assert xs[k..][1..] == xs[k + 1..];
  }

  lemma PutInOrder(start: seq<Byte>, f: Func)
    ensures start + (U32(|f.insts|) + PutMany(PutInst, f.insts)) + (U32(|f.consts|) + PutMany(PutConst, f.consts))
            + (U32(|f.ups|) + PutMany(PutUp, f.ups)) + (U32(|f.prots|) + PutAll(f.prots)) + PutString(f.name)
            + (U32(|f.lines|) + PutMany(PutLine, f.lines)) == start + Put(f)
  {
    var e := U32(|f.lines|) + PutMany(PutLine, f.lines);
    var d := PutAll(f.prots) + (PutString(f.name) + e);
    var c := PutMany(PutUp, f.ups) + (U32(|f.prots|) + d);
    var b := PutMany(PutConst, f.consts) + (U32(|f.ups|) + c);
    Counted(start, U32(|f.insts|), PutMany(PutInst, f.insts), U32(|f.consts|) + b);
    var s1 := start + (U32(|f.insts|) + PutMany(PutInst, f.insts));
    Counted(s1, U32(|f.consts|), PutMany(PutConst, f.consts), U32(|f.ups|) + c);
    var s2 := s1 + (U32(|f.consts|) + PutMany(PutConst, f.consts));
    Counted(s2, U32(|f.ups|), PutMany(PutUp, f.ups), U32(|f.prots|) + d);
    var s3 := s2 + (U32(|f.ups|) + PutMany(PutUp, f.ups));
    Counted(s3, U32(|f.prots|), PutAll(f.prots), PutString(f.name) + e);
    Grouped(s3 + (U32(|f.prots|) + PutAll(f.prots)), PutString(f.name), e);
  }

  lemma Counted(start: seq<Byte>, count: seq<Byte>, body: seq<Byte>, rest: seq<Byte>)
    ensures start + (count + (body + rest)) == start + (count + body) + rest
  {
    Grouped(count, body, rest);
    Grouped(start, count + body, rest);
  }

  /** What a reader still delivers: it ends with the chunks or at an empty one. */
  function Flat(chunks: seq<seq<Byte>>): seq<Byte> {
    if chunks == [] || chunks[0] == [] then [] else chunks[0] + Flat(chunks[1..])
  }

  /** The chunks are read one after the other, up to the first empty one. */
  lemma {:induction false} FlatJoins(before: seq<seq<Byte>>, c: seq<Byte>, after: seq<seq<Byte>>)
    requires forall k | 0 <= k < |before| :: before[k] != []
    ensures Flat(before + [c] + after) == Flat(before) + if c == [] then [] else c + Flat(after)
    decreases before
  {
    var all := before + [c] + after;
    if before == [] {
      assert all == [c] + after && all[1..] == after;
    } else {
      FlatJoins(before[1..], c, after);
      assert all[0] == before[0] && all[1..] == before[1..] + [c] + after;
    }
  }

  /** The bytes to come: those held in the buffer, then those of the chunks. */
  ghost predicate Holds(rest: seq<Byte>, held: seq<Byte>, chunks: seq<seq<Byte>>) {
    |held| <= |rest| && rest[..|held|] == held && rest[|held|..] == Flat(chunks)
  }

  lemma HoldsAfter(rest: seq<Byte>, held: seq<Byte>, chunks: seq<seq<Byte>>, num: nat)
    requires Holds(rest, held, chunks) && num <= |held|
    ensures held[..num] + rest[num..] == rest
    ensures Holds(rest[num..], held[num..], chunks)
  {
    assert rest[..num] == held[..num];
    assert rest[num..][..|held| - num] == rest[..|held|][num..];
    assert rest[num..][|held| - num..] == rest[|held|..];
  }

  /** reader_buffer, and the reader behind it as the chunks it has yet to hand out. */
  class ReaderBuffer {
    var chunks: seq<seq<Byte>>
    var buffer: array<Byte>
    var offset: nat
    var len: nat
    /** All bytes that are still to come. */
    ghost var rest: seq<Byte>

    ghost predicate Valid()
      reads this, buffer
    {
      offset <= len <= buffer.Length && Holds(rest, buffer[offset..len], chunks)
    }

    /** buffer_open */
    constructor (source: seq<seq<Byte>>)
      ensures Valid() && fresh(buffer) && rest == Flat(source)
    {
      chunks := source;
      buffer := new Byte[0];
      offset := 0;
      len := 0;
      rest := Flat(source);
    }

    /** Takes the next chunk into a buffer that is large enough. */
    method Refill(size: nat)
      requires Valid() && offset == len && chunks != [] && |chunks[0]| == size > 0
      modifies this, buffer
      ensures Valid() && (buffer == old(buffer) || fresh(buffer))
      ensures rest == old(rest) && |chunks| < old(|chunks|)
    {
      var chunk := chunks[0];
      chunks := chunks[1..];
      while buffer.Length < size
        invariant buffer == old(buffer) || fresh(buffer)
        invariant chunks == old(chunks[1..]) && rest == old(rest)
      {
        buffer := new Byte[buffer.Length * 2 + 1];
      }
      offset := 0;
      len := size;
      for k := 0 to size
        invariant offset == 0 && len == size <= buffer.Length
        invariant chunks == old(chunks[1..]) && rest == old(rest)
        invariant buffer == old(buffer) || fresh(buffer)
        invariant buffer[..k] == chunk[..k]
      {
        buffer[k] := chunk[k];
      }
      assert buffer[offset..len] == chunk && rest == chunk + Flat(chunks);
    }

    /** Copies out bytes that the buffer holds. */
    method Copy(num: nat) returns (bytes: seq<Byte>)
      requires Valid() && offset + num <= len
      modifies this`offset, this`rest
      ensures Valid() && |bytes| == num && offset == old(offset) + num
      ensures bytes + rest == old(rest)
    {
      bytes := buffer[offset..offset + num];
      ghost var held := buffer[offset..len];
      HoldsAfter(rest, held, chunks, num);
      assert bytes == held[..num] && buffer[offset + num..len] == held[num..];
      offset := offset + num;
      rest := rest[num..];
    }

    /** buffer_read: the next n bytes, from as many chunks as it takes. */
    method Read(n: nat) returns (r: Option<seq<Byte>>)
      requires Valid()
      modifies this, buffer
      ensures Valid() && (buffer == old(buffer) || fresh(buffer))
      ensures Taken(r, GetBytes(n, old(rest)), rest)
    {
      var dest: seq<Byte> := [];
      var left: nat := n;
      ghost var all := rest;
      while true
        invariant Valid() && (buffer == old(buffer) || fresh(buffer))
        invariant |dest| + left == n && dest + rest == all
        decreases |chunks|
      {
        var size := len - offset;
        var bytes := Copy(if left < size then left else size);
        Grouped(dest, bytes, rest);
        dest := dest + bytes;
        left := left - |bytes|;
        if left == 0 {
          FirstBytes(dest, rest, all);
          return Some(dest);
        }
        if chunks == [] || chunks[0] == [] {
          return None;
        }
        Refill(|chunks[0]|);
      }
    }

    method Read32() returns (r: Option<nat>)
      requires Valid()
      modifies this, buffer
      ensures Valid() && (buffer == old(buffer) || fresh(buffer))
      ensures Taken(r, Get32(old(rest)), rest)
    {
      var bytes := Read(4);
      if bytes == None {
        return None;
      }
      return Some(GetU32(bytes.value));
    }

    /** read_string */
    method ReadString() returns (r: Option<seq<Byte>>)
      requires Valid()
      modifies this, buffer
      ensures Valid() && (buffer == old(buffer) || fresh(buffer))
      ensures Taken(r, GetString(old(rest)), rest)
    {
      var size := Read32();
      if size == None {
        return None;
      }
      r := Read(size.value);
    }

    method ReadInst() returns (r: Option<Inst>)
      requires Valid()
      modifies this, buffer
      ensures Valid() && (buffer == old(buffer) || fresh(buffer))
      ensures Taken(r, GetInst(old(rest)), rest)
    {
      var bytes := Read(4);
      if bytes == None {
        return None;
      }
      assert bytes.value[2..4] == old(rest)[2..4];
      return Some(Inst(bytes.value[0], bytes.value[1], GetI16(bytes.value[2..4])));
    }

    method ReadUp() returns (r: Option<Upvalue>)
      requires Valid()
      modifies this, buffer
      ensures Valid() && (buffer == old(buffer) || fresh(buffer))
      ensures Taken(r, GetUp(old(rest)), rest)
    {
      var bytes := Read(4);
      if bytes == None {
        return None;
      }
      assert bytes.value[..2] == old(rest)[..2] && bytes.value[2..4] == old(rest)[2..4];
      return Some(Upvalue(GetU16(bytes.value[..2]), GetU16(bytes.value[2..4])));
    }

    method ReadConst() returns (r: Option<Const>)
      requires Valid()
      modifies this, buffer
      ensures Valid() && (buffer == old(buffer) || fresh(buffer))
      ensures Taken(r, GetConst(old(rest)), rest)
    {
      ghost var all := rest;
      var id := Read(1);
      if id == None {
        return None;
      }
      match id.value[0]
      case 0 => return Some(CNil);
      case 1 => return Some(CFalse);
      case 2 => return Some(CTrue);
      case 3 =>
        var n := Read(8);
        if n == None {
          return None;
        }
        assert n.value == all[1..9] && all[1..][8..] == all[9..];
        return Some(CNumber(n.value));
      case 4 =>
        var s := ReadString();
        if s == None {
          return None;
        }
        return Some(CString(s.value));
      case _ => return None;
    }

    method ReadInsts() returns (r: Option<seq<Inst>>)
      requires Valid()
      modifies this, buffer
      ensures Valid() && (buffer == old(buffer) || fresh(buffer))
      ensures Taken(r, GetCounted(GetInst, old(rest)), rest)
    {
      var count := Read32();
      if count == None {
        return None;
      }
      ghost var all := rest;
      var n, xs: seq<Inst> := count.value, [];
      Started(GetMany(GetInst, n, all));
      for k := 0 to n
        invariant Valid() && (buffer == old(buffer) || fresh(buffer))
        invariant Ahead(xs, GetMany(GetInst, n - k, rest)) == GetMany(GetInst, n, all)
      {
        Turn(GetInst, xs, n - k, rest);
        var x := ReadInst();
        if x == None {
          return None;
        }
        xs := xs + [x.value];
      }
      Finished(xs, rest);
      return Some(xs);
    }

    method ReadConsts() returns (r: Option<seq<Const>>)
      requires Valid()
      modifies this, buffer
      ensures Valid() && (buffer == old(buffer) || fresh(buffer))
      ensures Taken(r, GetCounted(GetConst, old(rest)), rest)
    {
      var count := Read32();
      if count == None {
        return None;
      }
      ghost var all := rest;
      var n, xs: seq<Const> := count.value, [];
      Started(GetMany(GetConst, n, all));
      for k := 0 to n
        invariant Valid() && (buffer == old(buffer) || fresh(buffer))
        invariant Ahead(xs, GetMany(GetConst, n - k, rest)) == GetMany(GetConst, n, all)
      {
        Turn(GetConst, xs, n - k, rest);
        var x := ReadConst();
        if x == None {
          return None;
        }
        xs := xs + [x.value];
      }
      Finished(xs, rest);
      return Some(xs);
    }

    method ReadUps() returns (r: Option<seq<Upvalue>>)
      requires Valid()
      modifies this, buffer
      ensures Valid() && (buffer == old(buffer) || fresh(buffer))
      ensures Taken(r, GetCounted(GetUp, old(rest)), rest)
    {
      var count := Read32();
      if count == None {
        return None;
      }
      ghost var all := rest;
      var n, xs: seq<Upvalue> := count.value, [];
      Started(GetMany(GetUp, n, all));
      for k := 0 to n
        invariant Valid() && (buffer == old(buffer) || fresh(buffer))
        invariant Ahead(xs, GetMany(GetUp, n - k, rest)) == GetMany(GetUp, n, all)
      {
        Turn(GetUp, xs, n - k, rest);
        var x := ReadUp();
        if x == None {
          return None;
        }
        xs := xs + [x.value];
      }
      Finished(xs, rest);
      return Some(xs);
    }

    method ReadLines() returns (r: Option<seq<nat>>)
      requires Valid()
      modifies this, buffer
      ensures Valid() && (buffer == old(buffer) || fresh(buffer))
      ensures Taken(r, GetCounted(Get32, old(rest)), rest)
    {
      var count := Read32();
      if count == None {
        return None;
      }
      ghost var all := rest;
      var n, xs: seq<nat> := count.value, [];
      Started(GetMany(Get32, n, all));
      for k := 0 to n
        invariant Valid() && (buffer == old(buffer) || fresh(buffer))
        invariant Ahead(xs, GetMany(Get32, n - k, rest)) == GetMany(Get32, n, all)
      {
        Turn(Get32, xs, n - k, rest);
        var x := Read32();
        if x == None {
          return None;
        }
        xs := xs + [x.value];
      }
      Finished(xs, rest);
      return Some(xs);
    }

    method ReadProts(n: nat, ghost proto: seq<Byte> -> Read<Prototype>) returns (r: Option<seq<Prototype>>)
      requires Valid() && IsProto(proto)
      modifies this, buffer
      ensures Valid() && (buffer == old(buffer) || fresh(buffer))
      ensures Taken(r, GetMany(proto, n, old(rest)), rest)
      decreases |rest|, 1
    {
      ghost var all := rest;
      var xs: seq<Prototype> := [];
      Started(GetMany(proto, n, all));
      for k := 0 to n
        invariant Valid() && (buffer == old(buffer) || fresh(buffer)) && |rest| <= |all|
        invariant Ahead(xs, GetMany(proto, n - k, rest)) == GetMany(proto, n, all)
      {
        Turn(proto, xs, n - k, rest);
        var x := ReadPrototype(proto);
        if x == None {
          return None;
        }
        xs := xs + [x.value];
      }
      Finished(xs, rest);
      return Some(xs);
    }

    method ReadFront() returns (r: Option<(seq<Inst>, seq<Const>, seq<Upvalue>, nat)>)
      requires Valid()
      modifies this, buffer
      ensures Valid() && (buffer == old(buffer) || fresh(buffer))
      ensures Taken(r, GetFront(old(rest)), rest)
    {
      var insts := ReadInsts();
      if insts == None { return None; }
      var consts := ReadConsts();
      if consts == None { return None; }
      var ups := ReadUps();
      if ups == None { return None; }
      var numProt := Read32();
      if numProt == None { return None; }
      return Some((insts.value, consts.value, ups.value, numProt.value));
    }

    method ReadBack() returns (r: Option<(seq<Byte>, seq<nat>)>)
      requires Valid()
      modifies this, buffer
      ensures Valid() && (buffer == old(buffer) || fresh(buffer))
      ensures Taken(r, GetBack(old(rest)), rest)
    {
      var name := ReadString();
      if name == None { return None; }
      var lines := ReadLines();
      if lines == None { return None; }
      return Some((name.value, lines.value));
    }

    /** read_prototype */
    method ReadPrototype(ghost proto: seq<Byte> -> Read<Prototype>) returns (r: Option<Prototype>)
      requires Valid() && IsProto(proto)
      modifies this, buffer
      ensures Valid() && (buffer == old(buffer) || fresh(buffer))
      ensures Taken(r, proto(old(rest)), rest)
      decreases |rest|, 0
    {
      assert proto(rest) == GetProto(rest);
      var front := ReadFront();
      if front == None { return None; }
      var (insts, consts, ups, numProt) := front.value;
      ProtosCounted(proto, numProt, rest);
      var prots := ReadProts(numProt, proto);
      if prots == None { return None; }
      var back := ReadBack();
      if back == None { return None; }
      return Some(Prototype(insts, consts, ups, prots.value, back.value.0, back.value.1));
    }
  }

  /** What a counted loop returns that has collected xs so far. */
  function Ahead<T>(xs: seq<T>, r: Read<seq<T>>): Read<seq<T>> {
    match r
    case None => None
    case Some(w) => Some((xs + w.0, w.1))
  }

  lemma Started<T>(r: Read<seq<T>>)
    ensures Ahead([], r) == r
  {
    if r.Some? {
      assert [] + r.value.0 == r.value.0;
    }
  }

  lemma Finished<T>(xs: seq<T>, s: seq<Byte>)
    ensures Ahead(xs, Some(([], s))) == Some((xs, s))
  {
    assert xs + [] == xs;
  }

  /** One turn of a counted loop: it gives up, or collects one element more. */
  lemma Turn<T(!new)>(get: seq<Byte> -> Read<T>, xs: seq<T>, n: nat, s: seq<Byte>)
    requires Shrinks(get) && n > 0
    ensures get(s) == None ==> GetMany(get, n, s) == None
    ensures get(s).Some? ==>
              Ahead(xs, GetMany(get, n, s)) == Ahead(xs + [get(s).value.0], GetMany(get, n - 1, get(s).value.1))
  {
    if get(s).Some? {
      AheadOfOne(xs, get(s).value.0, GetMany(get, n - 1, get(s).value.1));
    }
  }

  /** What read_prototype reads, by another name. */
  ghost predicate IsProto(proto: seq<Byte> -> Read<Prototype>) {
    && Shrinks(proto)
    && forall s {:trigger GetProto(s)} :: proto(s) == GetProto(s)
  }

  /** The loop over the inner functions is a counted loop like the others. */
  lemma {:induction false} ProtosCounted(proto: seq<Byte> -> Read<Prototype>, n: nat, s: seq<Byte>)
    requires IsProto(proto)
    ensures GetProtos(n, s) == GetMany(proto, n, s)
  {
    if n > 0 {
      assert proto(s) == GetProto(s);
      if proto(s).Some? {
        ProtosCounted(proto, n - 1, proto(s).value.1);
      }
    }
  }

  lemma AheadOfOne<T>(xs: seq<T>, x: T, r: Read<seq<T>>)
    ensures Ahead(xs, Ahead([x], r)) == Ahead(xs + [x], r)
  {
    if r.Some? {
      assert xs + ([x] + r.value.0) == (xs + [x]) + r.value.0;
    }
  }

  lemma FirstBytes(a: seq<Byte>, b: seq<Byte>, all: seq<Byte>)
    requires a + b == all
    ensures GetBytes(|a|, all) == Some((a, b))
  {
  }

  /** The outcome of a reading method on a buffer, by that of reading from a string of bytes. */
  predicate Taken<T(==)>(r: Option<T>, wanted: Read<T>, rest: seq<Byte>) {
    match wanted
    case None => r == None
    case Some(w) => r == Some(w.0) && rest == w.1
  }

  /** Whatever the sizes of the chunks, a compiled function is read back as the machine's form of it: the very
      function that was compiled, if its operands have room and its strings can be told. */
  method Reload(ghost f: Func, ghost rest: seq<Byte>, chunks: seq<seq<Byte>>) returns (p: Option<Prototype>)
    requires Countable(f) && Flat(chunks) == Put(f) + rest
    ensures p == Some(Load(f)) && (p == Some(Exact(f)) <==> Fits(f))
  {
    GetProtoPut(f, rest);
    SurvivesIff(f);
    var buffer := new ReaderBuffer(chunks);
    p := buffer.ReadPrototype(GetProto);
  }
}
