/** The matcher of lua/lstrlib.c as it runs: one state with a fixed buffer of captures, changed on the way
    into an item and changed back when the rest fails. */
module LuaMatcher {
  import opened Options
  import opened LuaPattern
  import LuaPatternMeaning

  /** A pointer into the subject, NULL, or a raised error. */
  datatype Answer = Null | End(s: nat) | Raise(error: PatternError)

  class MatchState {
    const src: string
    const pat: string
    const capture: array<Capture>
    var level: nat

    ghost predicate Valid()
      reads this
    {
      capture.Length == MAXCAPTURES && level <= MAXCAPTURES
    }

    /** The captures made so far. */
    ghost function Caps(): seq<Capture>
      requires Valid()
      reads this, capture
    {
      capture[..level]
    }

    constructor (src: string, pat: string)
      ensures Valid() && this.src == src && this.pat == pat && level == 0 && fresh(capture)
    {
      this.src, this.pat := src, pat;
      capture := new Capture[MAXCAPTURES](_ => Capture(0, 0));
      level := 0;
    }

    /** The answer and the captures agree with this outcome; a failed match leaves the captures that were
        there before as they were. */
    ghost predicate Agrees(o: Outcome, a: Answer, before: seq<Capture>)
      requires Valid()
      reads this, capture
    {
      match o
      case Fail => a == Null && Caps() == before
      case Found(end, caps) => a == End(end) && Caps() == caps
      case Error(e) => a == Raise(e)
    }

    /** capture_to_close */
    method CaptureToClose() returns (r: Option<nat>)
      requires Valid()
      ensures r == ToClose(Caps())
    {
      var l: nat := level;
      while l > 0
        invariant l <= level <= capture.Length
        invariant ToClose(capture[..level]) == ToClose(capture[..l])
      {
        assert capture[..l][..l - 1] == capture[..l - 1];
        l := l - 1;
        if capture[l].len == UNFINISHED { return Some(l); }
      }
      return None;
    }

    /** matchbracketclass */
    method MatchBracketClass(c: char, p: nat, ec: nat) returns (r: bool)
      ensures r == MatchBracket(c, pat, p, ec)
    {
      var sig, q := true, p;
      if At(pat, p + 1) == '^' {
        sig, q := false, p + 1;
      }
      q := q + 1;
      while q < ec
        invariant InSet(c, pat, if sig then p + 1 else p + 2, ec) == InSet(c, pat, q, ec)
        decreases ec - q
      {
        if At(pat, q) == ESC {
          q := q + 1;
          if MatchClass(c, At(pat, q)) { return sig; }
        } else if At(pat, q + 1) == '-' && q + 2 < ec {
          q := q + 2;
          if At(pat, q - 2) <= c <= At(pat, q) { return sig; }
        } else if At(pat, q) == c {
          return sig;
        }
        q := q + 1;
      }
      return !sig;
    }

    /** classend */
    method FindClassEnd(p: nat) returns (r: Result<nat>)
      requires At(pat, p) != '\0'
      ensures r == ClassEnd(pat, p)
    {
      if At(pat, p) == ESC {
        return if At(pat, p + 1) == '\0' then Err(EndsWithEscape) else Ok(p + 2);
      }
      if At(pat, p) != '[' { return Ok(p + 1); }
      var q: nat := if At(pat, p + 1) == '^' then p + 2 else p + 1;
      while At(pat, q) != '\0'
        invariant ClassEnd(pat, p) == SetEnd(pat, q)
        decreases |pat| - q
      {
        q := if At(pat, q) == ESC && At(pat, q + 1) != '\0' then q + 2 else q + 1;
        if At(pat, q) == ']' { return Ok(q + 1); }
      }
      return Err(MissingBracket);
    }

    method SingleMatches(s: nat, p: nat, ep: nat) returns (r: bool)
      requires p < ep
      ensures r == Single(src, s, pat, p, ep)
    {
      if s >= |src| { return false; }
      if At(pat, p) == '[' {
        r := MatchBracketClass(src[s], p, ep - 1);
      } else {
        r := At(pat,
            p) == '.' || (if At(pat, p) == ESC then MatchClass(src[s], At(pat, p + 1)) else At(pat, p) == src[s]);
      }
    }

    /** matchbalance */
    method FindBalance(s: nat, open: char, close: char) returns (r: Option<nat>)
      ensures r == MatchBalance(src, s, open, close)
    {
      if s >= |src| || src[s] != open { return None; }
      var t, cont: nat := s + 1, 1;
      while t < |src|
        invariant cont >= 1
        invariant MatchBalance(src, s, open, close) == BalanceFrom(src, t, open, close, cont)
        decreases |src| - t
      {
        if src[t] == close {
          cont := cont - 1;
          if cont == 0 { return Some(t + 1); }
        } else if src[t] == open {
          cont := cont + 1;
        }
        t := t + 1;
      }
      return None;
    }

    /** max_expand */
    method MaxExpand(s: nat, p: nat, ep: nat) returns (a: Answer)
      requires Valid() && s <= |src| && p < ep < |pat|
      modifies this`level, capture
      ensures Valid()
      ensures Agrees(MaxTry(src, pat, s, MaxCount(src, s, pat, p, ep), ep + 1, old(Caps())), a, old(Caps()))
      decreases |pat| - (ep + 1), 2
    {
      ghost var caps, max := Caps(), MaxCount(src, s, pat, p, ep);
      var i: nat := 0;
      var more := SingleMatches(s, p, ep);
      while more
        invariant Valid() && Caps() == caps
        invariant max == i + MaxCount(src, s + i, pat, p, ep) && s + i <= |src|
        invariant more == Single(src, s + i, pat, p, ep)
        decreases |src| - s - i, more
      {
        i := i + 1;
        more := SingleMatches(s + i, p, ep);
      }
      ghost var r := MaxTry(src, pat, s, i, ep + 1, caps);
      while true
        invariant Valid() && Caps() == caps && i <= max
        invariant r == MaxTry(src, pat, s, i, ep + 1, caps)
        decreases i
      {
        a := DoMatch(s + i, ep + 1);
        if a != Null || i == 0 { return; }
        i := i - 1;
      }
    }

    /** min_expand */
    method MinExpand(s0: nat, p: nat, ep: nat) returns (a: Answer)
      requires Valid() && s0 <= |src| && p < ep < |pat|
      modifies this`level, capture
      ensures Valid()
      ensures Agrees(MinTry(src, pat, s0, p, ep + 1, old(Caps())), a, old(Caps()))
      decreases |pat| - (ep + 1), 2
    {
      ghost var caps := Caps();
      ghost var r := MinTry(src, pat, s0, p, ep + 1, caps);
      var s := s0;
      while true
        invariant Valid() && Caps() == caps && s <= |src|
        invariant r == MinTry(src, pat, s, p, ep + 1, caps)
        decreases |src| - s
      {
        a := DoMatch(s, ep + 1);
        if a != Null { return; }
        var more := SingleMatches(s, p, ep);
        if !more { return; }
        s := s + 1;
      }
    }

    /** start_capture */
    method StartCapture(s: nat, p: nat, what: int) returns (a: Answer)
      requires Valid() && s <= |src| && p <= |pat|
      modifies this`level, capture
      ensures Valid()
      ensures Agrees(if |old(Caps())| >= MAXCAPTURES then Error(TooManyCaptures)
                     else LuaPattern.Match(src, pat, s, p, old(Caps()) + [Capture(s, what)]), a, old(Caps()))
      decreases |pat| - p, 2
    {
      if level >= MAXCAPTURES { return Raise(TooManyCaptures); }
      ghost var before := Caps();
      capture[level] := Capture(s, what);
      level := level + 1;
      assert Caps() == before + [Capture(s, what)];
      a := DoMatch(s, p);
      if a == Null {
        level := level - 1;
        assert Caps() == (before + [Capture(s, what)])[..|before|];
      }
    }

    /** end_capture */
    method EndCapture(s: nat, p: nat) returns (a: Answer)
      requires Valid() && s <= |src| && p <= |pat|
      modifies this`level, capture
      ensures Valid()
      ensures var l := ToClose(old(Caps()));
        Agrees(if l.None? then Error(InvalidPatternCapture)
               else LuaPattern.Match(src, pat, s, p, CloseCapture(old(Caps()), l.value, s)), a, old(Caps()))
      decreases |pat| - p, 2
    {
      var l := CaptureToClose();
      if l.None? { return Raise(InvalidPatternCapture); }
      ghost var before := Caps();
      capture[l.value] := Capture(capture[l.value].init, s - capture[l.value].init);
      assert Caps() == CloseCapture(before, l.value, s);
      a := DoMatch(s, p);
      if a == Null {
        capture[l.value] := Capture(capture[l.value].init, UNFINISHED);
        assert Caps() == before;
      }
    }

    /** What the loop of match has still to decide. */
    ghost function Rest(s: nat, p: nat): Outcome
      requires Valid() && s <= |src|
      reads this, capture
    {
      LuaPattern.Match(src, pat, s, p, Caps())
    }

    /** match; each turn of the loop is one jump to `init`. */
    method DoMatch(s0: nat, p0: nat) returns (a: Answer)
      requires Valid() && s0 <= |src| && p0 <= |pat|
      modifies this`level, capture
      ensures Valid()
      ensures Agrees(LuaPattern.Match(src, pat, s0, p0, old(Caps())), a, old(Caps()))
      decreases |pat| - p0, 1
    {
      ghost var caps := Caps();
      ghost var o := LuaPattern.Match(src, pat, s0, p0, caps);
      var s: nat, p: nat := s0, p0;
      while true
        invariant Valid() && Caps() == caps && s <= |src| && p0 <= p <= |pat|
        invariant Rest(s, p) == o
        decreases |pat| - p
      {
        var c, d := At(pat, p), At(pat, p + 1);
        if c == '(' {
          if d == ')' {
            a := StartCapture(s, p + 2, POSITION);
          } else {
            a := StartCapture(s, p + 1, UNFINISHED);
          }
          return;
        } else if c == ')' {
          a := EndCapture(s, p + 1);
          return;
        } else if c == '\0' {
          return End(s);
        } else if c == '$' && d == '\0' {
          return if s == |src| then End(s) else Null;
        } else {
          var again: bool;
          if c == ESC && (d == 'b' || d == 'f' || IsDigit(d)) {
            a, again, s, p := MatchEscape(s, p);
          } else {
            a, again, s, p := MatchItem(s, p);
          }
          if !again { return; }
        }
      }
    }

    /** The items %b, %f and %0 to %9; `again` jumps to `init`. */
    method MatchEscape(s: nat, p: nat) returns (a: Answer, again: bool, s2: nat, p2: nat)
      requires Valid() && s <= |src| && p <= |pat| && At(pat, p) == ESC
      requires At(pat, p + 1) == 'b' || At(pat, p + 1) == 'f' || IsDigit(At(pat, p + 1))
      ensures Valid() && s2 <= |src|
      ensures !again ==> Agrees(LuaPattern.Match(src, pat, s, p, Caps()), a, Caps())
      ensures again ==> p < p2 <= |pat| && Rest(s2, p2) == LuaPattern.Match(src, pat, s, p, Caps())
    {
      a, again, s2, p2 := Null, false, s, p;
      var d := At(pat, p + 1);
      if d == 'b' {
        if At(pat, p + 2) == '\0' || At(pat, p + 3) == '\0' { return Raise(Unbalanced), false, s, p; }
        var e := FindBalance(s, At(pat, p + 2), At(pat, p + 3));
        if e.Some? { again, s2, p2 := true, e.value, p + 4; }
      } else if d == 'f' {
        if At(pat, p + 2) != '[' { return Raise(MissingBracketAfterF), false, s, p; }
        var ep := FindClassEnd(p + 2);
        if ep.Err? { return Raise(ep.error), false, s, p; }
        var previous := if s == 0 then '\0' else src[s - 1];
        var behind := MatchBracketClass(previous, p + 2, ep.value - 1);
        var ahead := MatchBracketClass(At(src, s), p + 2, ep.value - 1);
        if !behind && ahead { again, p2 := true, ep.value; }
      } else {
        var l := CheckCapture(capture[..level], d);
        if l.Err? { return Raise(l.error), false, s, p; }
        var e := MatchCapture(src, s, capture[l.value]);
        if e.Some? { again, s2, p2 := true, e.value, p + 2; }
      }
    }

    /** The default case of match: a single-character item and its suffix; `again` jumps to `init`. */
    method MatchItem(s: nat, p: nat) returns (a: Answer, again: bool, s2: nat, p2: nat)
      requires Valid() && s <= |src| && p <= |pat| && At(pat, p) != '\0' && Parse(pat, p) == ParseSingle(pat, p)
      modifies this`level, capture
      ensures Valid() && s2 <= |src|
      ensures !again ==> Agrees(LuaPattern.Match(src, pat, s, p, old(Caps())), a, old(Caps()))
      ensures again ==> p < p2 <= |pat| && Caps() == old(Caps())
      ensures again ==> Rest(s2, p2) == LuaPattern.Match(src, pat, s, p, old(Caps()))
      decreases |pat| - p, 0
    {
      a, again, s2, p2 := Null, false, s, p;
      var e := FindClassEnd(p);
      if e.Err? { return Raise(e.error), false, s, p; }
      var ep := e.value;
      var m := SingleMatches(s, p, ep);
      var suffix := At(pat, ep);
      if suffix == '?' {
        if m {
          a := DoMatch(s + 1, ep + 1);
          if a != Null { return; }
        }
        again, p2 := true, ep + 1;
      } else if suffix == '*' {
        a := MaxExpand(s, p, ep);
      } else if suffix == '+' {
        if m { a := MaxExpand(s + 1, p, ep); }
      } else if suffix == '-' {
        a := MinExpand(s, p, ep);
      } else if m {
        again, s2, p2 := true, s + 1, ep;
      }
    }

    /** The search loop of str_find_aux over starting places, from `init` on. */
    method Find(init: nat, anchor: bool, p: nat) returns (at: nat, a: Answer)
      requires Valid() && init <= |src| && p <= |pat|
      modifies this`level, capture
      ensures Valid() && init <= at <= |src|
      ensures a == Null ==> forall k | init <= k <= (if anchor then init else |src|) ::
        LuaPatternMeaning.AllFail(src, pat, k, p, [])
      ensures a.End? ==>
        && LuaPatternMeaning.Decides(src, pat, at, p, [], Found(a.s, Caps()))
        && (forall k | init <= k < at :: LuaPatternMeaning.AllFail(src, pat, k, p, []))
      ensures a.Raise? ==>
        && LuaPatternMeaning.Decides(src, pat, at, p, [], Error(a.error))
        && (forall k | init <= k < at :: LuaPatternMeaning.AllFail(src, pat, k, p, []))
    {
      at := init;
      while true
        invariant Valid() && init <= at <= |src| && (anchor ==> at == init)
        invariant forall k | init <= k < at :: LuaPatternMeaning.AllFail(src, pat, k, p, [])
        decreases |src| - at
      {
        level := 0;
        assert Caps() == [];
        LuaPatternMeaning.MatchDecides(src, pat, at, p, []);
        a := DoMatch(at, p);
        if a != Null || at == |src| || anchor { return; }
        at := at + 1;
      }
    }
  }

  // ---------------------------------------------------------------- plain search

  ghost predicate Occurs(src: string, sub: string, k: nat) {
    k + |sub| <= |src| && src[k..k + |sub|] == sub
  }

  /** memchr */
  method MemChr(src: string, from: nat, c: char, n: nat) returns (r: Option<nat>)
    requires from + n <= |src|
    ensures r.Some? ==> from <= r.value < from + n && src[r.value] == c && c !in src[from..r.value]
    ensures r.None? ==> c !in src[from..from + n]
  {
    for k := from to from + n
      invariant c !in src[from..k]
    {
      if src[k] == c { return Some(k); }
    }
    return None;
  }

  lemma FirstCharThere(src: string, sub: string, k: nat)
    requires sub != [] && Occurs(src, sub, k)
    ensures src[k] == sub[0]
  {
    assert src[k..k + |sub|][0] == src[k];
  }

  /** lmemfind: the first occurrence, by looking for the first character and comparing the rest. */
  method MemFind(src: string, sub: string) returns (r: Option<nat>)
    ensures r.Some? ==> Occurs(src, sub, r.value) && forall k: nat | k < r.value :: !Occurs(src, sub, k)
    ensures r.None? ==> forall k: nat :: !Occurs(src, sub, k)
  {
    if sub == [] {
      assert Occurs(src, sub, 0);
      return Some(0);
    }
    if |sub| > |src| { return None; }
    var from: nat, l1: nat := 0, |src| - (|sub| - 1);
    while l1 > 0
      invariant from + l1 == |src| - (|sub| - 1)
      invariant forall k: nat | k < from :: !Occurs(src, sub, k)
      decreases l1
    {
      var c := MemChr(src, from, sub[0], l1);
      forall k: nat | from <= k < (if c.Some? then c.value else from + l1) ensures !Occurs(src, sub, k) {
        assert src[k] in src[from..if c.Some? then c.value else from + l1];
        if Occurs(src, sub, k) { FirstCharThere(src, sub, k); }
      }
      if c.None? {
        forall k: nat | k >= from + l1 ensures !Occurs(src, sub, k) {}
        return None;
      }
      var init := c.value + 1;
      if src[init..init + (|sub| - 1)] == sub[1..] {
        assert src[c.value..c.value + |sub|] == [src[c.value]] + src[init..init + (|sub| - 1)] == sub;
        return Some(c.value);
      }
      assert !Occurs(src, sub, c.value) by {
        assert src[c.value..c.value + |sub|][1..] == src[init..init + (|sub| - 1)];
      }
      l1 := l1 - (init - from);
      from := init;
    }
    return None;
  }
}
