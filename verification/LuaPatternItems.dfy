/** What the items of a Lua pattern stand for (lua/lstrlib.c): a set is the union of its ranges, classes and
    characters, and %b reaches to the first place where the two delimiters balance. */
module LuaPatternItems {
  import opened Options
  import opened LuaPattern

  // ---------------------------------------------------------------- sets

  datatype Member = Class(class_: char) | Range(low: char, high: char) | Just(c: char)

  predicate Contains(m: Member, c: char) {
    match m
    case Class(class_) => MatchClass(c, class_)
    case Range(low, high) => low <= c <= high
    case Just(d) => c == d
  }

  /** What is written between the brackets, from left to right. */
  function Members(pat: string, q: nat, ec: nat): seq<Member>
    decreases ec - q
  {
    if q >= ec then []
    else if At(pat, q) == ESC then [Class(At(pat, q + 1))] + Members(pat, q + 2, ec)
    else if At(pat, q + 1) == '-' && q + 2 < ec then [Range(At(pat, q), At(pat, q + 2))] + Members(pat, q + 3, ec)
    else [Just(At(pat, q))] + Members(pat, q + 1, ec)
  }

  predicate InUnion(c: char, members: seq<Member>) {
    exists m | m in members :: Contains(m, c)
  }

  lemma UnionMore(m: Member, members: seq<Member>, c: char)
    ensures InUnion(c, [m] + members) <==> Contains(m, c) || InUnion(c, members)
  {
    if Contains(m, c) { assert m in [m] + members; }
    if InUnion(c, members) {
      var n :| n in members && Contains(n, c);
      assert n in [m] + members;
    }
  }

  lemma {:induction false} InSetIsUnion(c: char, pat: string, q: nat, ec: nat)
    ensures InSet(c, pat, q, ec) <==> InUnion(c, Members(pat, q, ec))
    decreases ec - q
  {
    if q < ec {
      if At(pat, q) == ESC {
        InSetIsUnion(c, pat, q + 2, ec);
        UnionMore(Class(At(pat, q + 1)), Members(pat, q + 2, ec), c);
      } else if At(pat, q + 1) == '-' && q + 2 < ec {
        InSetIsUnion(c, pat, q + 3, ec);
        UnionMore(Range(At(pat, q), At(pat, q + 2)), Members(pat, q + 3, ec), c);
      } else {
        InSetIsUnion(c, pat, q + 1, ec);
        UnionMore(Just(At(pat, q)), Members(pat, q + 1, ec), c);
      }
    }
  }

  /** A set matches the characters of the union of its members, or with ^ all others. */
  lemma BracketIsUnion(c: char, pat: string, p: nat, ec: nat)
    ensures var complement := At(pat, p + 1) == '^';
      MatchBracket(c, pat, p, ec) <==>
        InUnion(c, Members(pat, if complement then p + 2 else p + 1, ec)) == !complement
  {
    InSetIsUnion(c, pat, if At(pat, p + 1) == '^' then p + 2 else p + 1, ec);
  }

  /** A class in upper case matches what the same class in lower case does not. */
  lemma UpperComplements(c: char, lower: char)
    requires IsLower(lower) && IsClass(lower)
    ensures MatchClass(c, (lower as int - 32) as char) <==> !MatchClass(c, lower)
  {
  }

  // ---------------------------------------------------------------- classes

  /** The characters that can be seen and are no letters or digits. */
  const PUNCTUATION := {
    '!', '\"', '#', '$', '%', '&', '\'', '(', ')', '*', '+', ',', '-', '.', '/', ':',
    ';', '<', '=', '>', '?', '@', '[', '\\', ']', '^', '_', '`', '{', '|', '}', '~'}

  lemma ClassLetter(c: char, i: nat, k: char)
    requires i < 10 && k == "acdlpsuwxz"[i]
    ensures MatchClass(c, k) <==> InClass(c, k)
  {
    assert k in "acdlpsuwxz";
  }

  /** What the class letters stand for. */
  lemma LettersAre(c: char)
    ensures MatchClass(c, 'a') <==> 'a' <= c <= 'z' || 'A' <= c <= 'Z'
    ensures MatchClass(c, 'l') <==> 'a' <= c <= 'z'
    ensures MatchClass(c, 'u') <==> 'A' <= c <= 'Z'
    ensures MatchClass(c, 'd') <==> '0' <= c <= '9'
    ensures MatchClass(c, 'w') <==> 'a' <= c <= 'z' || 'A' <= c <= 'Z' || '0' <= c <= '9'
    ensures MatchClass(c, 'x') <==> 'a' <= c <= 'f' || 'A' <= c <= 'F' || '0' <= c <= '9'
  {
    ClassLetter(c, 0, 'a');
    ClassLetter(c, 3, 'l');
    ClassLetter(c, 6, 'u');
    ClassLetter(c, 2, 'd');
    ClassLetter(c, 7, 'w');
    ClassLetter(c, 8, 'x');
  }

  lemma SignsAre(c: char)
    ensures MatchClass(c, 'p') <==> c in PUNCTUATION
    ensures MatchClass(c, 's') <==> c in {' ', '\t', '\n', '\r', 11 as char, 12 as char}
    ensures MatchClass(c, 'c') <==> c as int < 32 || c as int == 127
    ensures MatchClass(c, 'z') <==> c as int == 0
  {
    ClassLetter(c, 4, 'p');
    ClassLetter(c, 5, 's');
    ClassLetter(c, 1, 'c');
    ClassLetter(c, 9, 'z');
  }

  const CLASSES := {'a', 'c', 'd', 'l', 'p', 's', 'u', 'w', 'x', 'z', 'A', 'C', 'D', 'L', 'P', 'S', 'U', 'W', 'X', 'Z'}

  /** Any other character after the escape stands for itself. */
  lemma EscapedIsItself(c: char, d: char)
    requires d !in CLASSES
    ensures MatchClass(c, d) <==> c == d
  {
  }

  // ---------------------------------------------------------------- balanced strings

  /** A character that both opens and closes closes. */
  function Weight(c: char, open: char, close: char): int {
    if c == close then -1 else if c == open then 1 else 0
  }

  /** How many more delimiters open than close in src[i..k]. */
  function Height(src: string, i: nat, k: nat, open: char, close: char): int
    requires i <= k <= |src|
    decreases k
  {
    if i == k then 0 else Height(src, i, k - 1, open, close) + Weight(src[k - 1], open, close)
  }

  lemma {:induction false} HeightFront(src: string, i: nat, k: nat, open: char, close: char)
    requires i < k <= |src|
    ensures Height(src, i, k, open, close) == Weight(src[i], open, close) + Height(src, i + 1, k, open, close)
    decreases k
  {
    if i + 1 < k { HeightFront(src, i, k - 1, open, close); }
  }

  /** `e` is the first place after `s` at which `cont` more delimiters have closed than opened. */
  ghost predicate FirstClosed(src: string, s: nat, open: char, close: char, cont: nat, e: nat) {
    && s < e <= |src| && Height(src, s, e, open, close) + cont == 0
    && forall k: nat | s <= k < e :: Height(src, s, k, open, close) + cont > 0
  }

  lemma FirstStep(src: string, s: nat, t: nat, open: char, close: char, cont: nat, rest: nat, e: nat)
    requires s < |src| && t == s + 1 && cont >= 1 && rest >= 1 && rest == cont + Weight(src[s], open, close)
    ensures FirstClosed(src, s, open, close, cont, e) <==> FirstClosed(src, t, open, close, rest, e)
  {
    if t <= e <= |src| {
      forall k: nat | t <= k <= e
        ensures Height(src, s, k, open, close) == Weight(src[s], open, close) + Height(src, t, k, open, close)
      {
        HeightFront(src, s, k, open, close);
      }
      if FirstClosed(src, t, open, close, rest, e) {
        forall k: nat | s <= k < e ensures Height(src, s, k, open, close) + cont > 0 {
          if k > s { assert Height(src, t, k, open, close) + rest > 0; }
        }
      }
      if FirstClosed(src, s, open, close, cont, e) {
        assert e != t;
        forall k: nat | t <= k < e ensures Height(src, t, k, open, close) + rest > 0 {
          assert Height(src, s, k, open, close) + cont > 0;
        }
      }
    }
  }

  lemma {:induction false} BalanceIsFirst(src: string, s: nat, open: char, close: char, cont: nat, e: nat)
    requires cont >= 1
    ensures BalanceFrom(src, s, open, close, cont) == Some(e) <==> FirstClosed(src, s, open, close, cont, e)
    decreases |src| - s
  {
    if s < |src| {
      var rest := cont + Weight(src[s], open, close);
      if rest == 0 {
        HeightFront(src, s, s + 1, open, close);
        if e > s + 1 && e <= |src| { assert !(Height(src, s, s + 1, open, close) + cont > 0); }
      } else {
        BalanceIsFirst(src, s + 1, open, close, rest, e);
        FirstStep(src, s, s + 1, open, close, cont, rest, e);
      }
    }
  }

  /** %b: from an opening delimiter to behind the first place where as many have closed as opened; there is no
      match if there is no such place. */
  lemma MatchBalanceIs(src: string, s: nat, inside: nat, open: char, close: char, e: nat)
    requires inside == s + 1
    ensures MatchBalance(src, s, open, close) == Some(e) <==>
      s < |src| && src[s] == open && FirstClosed(src, inside, open, close, 1, e)
    ensures MatchBalance(src, s, open, close).None? <==>
      !(s < |src| && src[s] == open && exists k: nat :: FirstClosed(src, inside, open, close, 1, k))
  {
    forall k: nat
      ensures BalanceFrom(src, inside, open, close, 1) == Some(k) <==> FirstClosed(src, inside, open, close, 1, k)
    {
      BalanceIsFirst(src, inside, open, close, 1, k);
    }
  }

  // ---------------------------------------------------------------- captures and frontiers

  /** %n is the n-th capture, counted from 1, if that is closed. */
  lemma ReferenceIs(caps: seq<Capture>, n: int)
    requires 0 <= n <= 9
    ensures var r := CheckCapture(caps, ('0' as int + n) as char);
      if 1 <= n <= |caps| && caps[n - 1].len != UNFINISHED then r == Ok(n - 1) else r == Err(InvalidCaptureIndex)
  {
  }

  predicate SameChar(src: string, i: nat, j: nat, k: nat) {
    i + k < |src| && j + k < |src| && src[i + k] == src[j + k]
  }

  /** The `n` characters from `i` and those from `j` are the same, one by one. */
  ghost predicate Repeats(src: string, i: nat, j: nat, n: nat) {
    i + n <= |src| && j + n <= |src| && forall k: nat | k < n :: SameChar(src, i, j, k)
  }

  lemma SameText(src: string, i: nat, j: nat, n: nat)
    requires i + n <= |src| && j + n <= |src|
    ensures src[j..j + n] == src[i..i + n] <==> Repeats(src, i, j, n)
  {
    var here, there := src[i..i + n], src[j..j + n];
    if there == here {
      forall k: nat | k < n ensures SameChar(src, i, j, k) {
        assert here[k] == there[k];
      }
    } else {
      var k :| 0 <= k < n && here[k] != there[k];
      assert !SameChar(src, i, j, k);
    }
  }

  /** A reference reaches to `e` exactly if the subject repeats the captured characters from `s` to there; a
      position capture, which has no characters, matches nowhere. */
  lemma RepeatsCapture(src: string, s: nat, c: Capture, e: nat)
    requires s <= |src| && c.init + c.len <= |src|
    ensures MatchCapture(src, s, c) == Some(e) <==>
      0 <= c.len && e == s + c.len && Repeats(src, s, c.init, c.len)
  {
    if 0 <= c.len <= |src| - s {
      SameText(src, s, c.init, c.len);
    }
  }

  /** What the text of a set from `p` to the bracket at `ec` stands for. */
  predicate SetHolds(c: char, pat: string, p: nat, ec: nat) {
    if At(pat, p + 1) == '^' then !InUnion(c, Members(pat, p + 2, ec)) else InUnion(c, Members(pat, p + 1, ec))
  }

  /** %f: the character before is not in the set and the one here is; NUL stands for what is beyond the subject. */
  lemma FrontierIs(src: string, s: nat, pat: string, p: nat, ep: nat)
    requires s <= |src| && ep > 0
    ensures AtFrontier(src, s, pat, p, ep) <==>
      && !SetHolds(if s == 0 then '\0' else src[s - 1], pat, p, ep - 1)
      && SetHolds(if s == |src| then '\0' else src[s], pat, p, ep - 1)
  {
    BracketIsUnion(if s == 0 then '\0' else src[s - 1], pat, p, ep - 1);
    BracketIsUnion(if s == |src| then '\0' else src[s], pat, p, ep - 1);
  }
}
