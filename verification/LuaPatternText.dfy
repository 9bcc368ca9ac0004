/** Lua patterns as they are written (lua/lstrlib.c): the text of every item reads back as that item, and what a
    single-character item stands for. */
module LuaPatternText {
  import opened LuaPattern
  import opened LuaPatternItems

  /** A single-character item. */
  datatype Atom = AnyChar | Plain(c: char) | Escaped(c: char) | Set(complement: bool, members: seq<Member>)

  /** The text `t` stands at `p`. */
  ghost predicate Stands(pat: string, p: nat, t: string) {
    p + |t| <= |pat| && pat[p..p + |t|] == t
  }

  /** The first characters of the text. */
  lemma Chars(pat: string, p: nat, t: string)
    requires Stands(pat, p, t)
    ensures |t| > 0 ==> At(pat, p) == t[0]
    ensures |t| > 1 ==> At(pat, p + 1) == t[1]
    ensures |t| > 2 ==> At(pat, p + 2) == t[2]
    ensures |t| > 3 ==> At(pat, p + 3) == t[3]
  {
    var here := pat[p..p + |t|];
    assert forall k | 0 <= k < |t| :: here[k] == pat[p + k];
  }

  lemma StandsSplit(pat: string, p: nat, a: string, b: string)
    requires Stands(pat, p, a + b)
    ensures Stands(pat, p, a) && Stands(pat, p + |a|, b)
  {
    var t := pat[p..p + |a + b|];
    assert t[..|a|] == a && t[|a|..] == b;
    assert pat[p..p + |a|] == t[..|a|] && pat[p + |a|..p + |a| + |b|] == t[|a|..];
  }

  // ---------------------------------------------------------------- sets

  function MemberText(m: Member): (t: string)
    ensures t != []
  {
    match m
    case Class(k) => [ESC, k]
    case Range(low, high) => [low, '-', high]
    case Just(c) => [c]
  }

  function MembersText(ms: seq<Member>): string {
    if ms == [] then "" else MemberText(ms[0]) + MembersText(ms[1..])
  }

  /** Characters that stand for themselves in a set. */
  predicate Ordinary(c: char) {
    c != '\0' && c != ESC
  }

  predicate MemberOk(m: Member) {
    match m
    case Class(k) => k != '\0'
    case Range(low, high) => Ordinary(low) && Ordinary(high) && high != ']'
    case Just(c) => Ordinary(c)
  }

  /** These members, written one after the other, are not taken for others: only the first may begin with a closing
      bracket, and a hyphen that does not make a range is the last. */
  predicate MembersOk(ms: seq<Member>) {
    ms == []
    || (&& MemberOk(ms[0]) && (|ms| > 1 ==> MemberText(ms[1])[0] != ']')
        && (ms[0].Just? && |ms| > 1 && MemberText(ms[1])[0] == '-' ==> ms[1..] == [Just('-')])
        && MembersOk(ms[1..]))
  }

  /** The first member, and what comes behind it. */
  lemma FirstMember(pat: string, q: nat, ms: seq<Member>, next: nat)
    requires ms != [] && Stands(pat, q, MembersText(ms) + "]") && next == q + |MemberText(ms[0])|
    ensures Stands(pat, q, MemberText(ms[0])) && Stands(pat, next, MembersText(ms[1..]) + "]")
    ensures At(pat, next) == if |ms| > 1 then MemberText(ms[1])[0] else ']'
    ensures next + |MembersText(ms[1..])| == q + |MembersText(ms)|
  {
    var t, rest := MemberText(ms[0]), MembersText(ms[1..]) + "]";
    assert MembersText(ms) + "]" == t + rest;
    StandsSplit(pat, q, t, rest);
    Chars(pat, next, rest);
  }

  lemma FirstOk(ms: seq<Member>)
    requires ms != [] && MembersOk(ms)
    ensures MemberOk(ms[0]) && MembersOk(ms[1..]) && (|ms| > 1 ==> MemberText(ms[1])[0] != ']')
  {
  }

  lemma {:induction false} SetEndReads(pat: string, q: nat, ms: seq<Member>)
    requires ms != [] && MembersOk(ms) && Stands(pat, q, MembersText(ms) + "]")
    ensures SetEnd(pat, q) == Ok(q + |MembersText(ms)| + 1)
    decreases |ms|
  {
    var next := q + |MemberText(ms[0])|;
    FirstOk(ms);
    FirstMember(pat, q, ms, next);
    MemberEnds(pat, q, ms[0]);
    if |ms| > 1 {
      SetEndReads(pat, next, ms[1..]);
    } else {
      assert MembersText(ms[1..]) == "";
    }
  }

  /** The loop of classend over one member, and to what follows it. */
  lemma MemberEnds(pat: string, q: nat, m: Member)
    requires MemberOk(m) && Stands(pat, q, MemberText(m))
    ensures SetEnd(pat, q) ==
      var next := q + |MemberText(m)|; if At(pat, next) == ']' then Ok(next + 1) else SetEnd(pat, next)
  {
    Chars(pat, q, MemberText(m));
    if m.Range? { assert SetEnd(pat, q) == SetEnd(pat, q + 1) == SetEnd(pat, q + 2); }
  }

  /** The loop of matchbracketclass over one member. */
  lemma MemberReads(pat: string, q: nat, m: Member, next: nat, ec: nat)
    requires MemberOk(m) && Stands(pat, q, MemberText(m)) && next == q + |MemberText(m)| <= ec
    requires m.Just? && At(pat, next) == '-' ==> next + 1 >= ec
    ensures Members(pat, q, ec) == [m] + Members(pat, next, ec)
  {
    Chars(pat, q, MemberText(m));
  }

  lemma {:induction false} MembersRead(pat: string, q: nat, ms: seq<Member>, ec: nat)
    requires MembersOk(ms) && Stands(pat, q, MembersText(ms) + "]") && ec == q + |MembersText(ms)|
    ensures Members(pat, q, ec) == ms
    decreases |ms|
  {
    if ms != [] {
      var next := q + |MemberText(ms[0])|;
      FirstMember(pat, q, ms, next);
      if |ms| > 1 && ms[1..] == [Just('-')] { assert MembersText(ms[1..]) == "-" + MembersText([]) == "-"; }
      MemberReads(pat, q, ms[0], next, ec);
      MembersRead(pat, next, ms[1..], ec);
      assert ms == [ms[0]] + ms[1..];
    }
  }

  // ---------------------------------------------------------------- single characters

  function SingleText(x: Atom): (t: string)
    ensures t != []
  {
    match x
    case AnyChar => "."
    case Plain(c) => [c]
    case Escaped(c) => [ESC, c]
    case Set(complement, ms) => (if complement then "[^" else "[") + (MembersText(ms) + "]")
  }

  predicate SingleOk(x: Atom) {
    match x
    case AnyChar => true
    case Plain(c) => c != '\0' && c != '.' && c != ESC && c != '['
    case Escaped(c) => c != '\0'
    case Set(complement, ms) => ms != [] && MembersOk(ms) && (complement || MemberText(ms[0])[0] != '^')
  }

  predicate Means(x: Atom, c: char) {
    match x
    case AnyChar => true
    case Plain(d) => c == d
    case Escaped(k) => MatchClass(c, k)
    case Set(complement, ms) => InUnion(c, ms) != complement
  }

  /** The parts of the text of a set. */
  lemma SetParts(pat: string, p: nat, complement: bool, ms: seq<Member>, q: nat)
    requires SingleOk(Set(complement, ms)) && Stands(pat, p, SingleText(Set(complement, ms)))
    requires q == if complement then p + 2 else p + 1
    ensures At(pat, p) == '[' && (At(pat, p + 1) == '^' <==> complement)
    ensures Stands(pat, q, MembersText(ms) + "]")
    ensures p + |SingleText(Set(complement, ms))| == q + |MembersText(ms)| + 1
  {
    var open := if complement then "[^" else "[";
    var rest := MembersText(ms) + "]";
    StandsSplit(pat, p, open, rest);
    Chars(pat, p, open);
    Chars(pat, q, rest);
  }

  lemma SetReads(pat: string, p: nat, complement: bool, ms: seq<Member>, q: nat, ec: nat, c: char)
    requires ms != [] && MembersOk(ms) && At(pat, p) == '[' && (At(pat, p + 1) == '^' <==> complement)
    requires q == (if complement then p + 2 else p + 1) && Stands(pat, q, MembersText(ms) + "]")
    requires ec == q + |MembersText(ms)|
    ensures ClassEnd(pat, p) == Ok(ec + 1)
    ensures MatchBracket(c, pat, p, ec) <==> InUnion(c, ms) != complement
  {
    SetEndReads(pat, q, ms);
    MembersRead(pat, q, ms, ec);
    BracketIsUnion(c, pat, p, ec);
  }

  /** The text of a single-character item ends where it should and matches what it stands for. */
  lemma SingleReads(pat: string, p: nat, x: Atom, c: char)
    requires SingleOk(x) && Stands(pat, p, SingleText(x))
    ensures At(pat, p) != '\0' && ClassEnd(pat, p) == Ok(p + |SingleText(x)|)
    ensures SingleMatch(c, pat, p, p + |SingleText(x)|) <==> Means(x, c)
  {
    Chars(pat, p, SingleText(x));
    match x
    case Set(complement, ms) =>
      var q := if complement then p + 2 else p + 1;
      SetParts(pat, p, complement, ms, q);
      SetReads(pat, p, complement, ms, q, q + |MembersText(ms)|, c);
    case _ =>
  }

  // ---------------------------------------------------------------- items

  function SuffixText(rep: Rep): char {
    match rep
    case Optional => '?'
    case Many => '*'
    case Some_ => '+'
    case Lazy => '-'
  }

  /** The text of an item; `x` is its single-character item, if it has one. */
  function ItemText(item: Item, x: Atom): string {
    match item
    case Open(what) => if what == POSITION then "()" else "("
    case Close => ")"
    case Balance(open, close) => [ESC, 'b', open, close]
    case Frontier(_) => "%f" + SingleText(x)
    case Reference(digit) => [ESC, digit]
    case Anchor => "$"
    case One => SingleText(x)
    case Repeat(rep) => SingleText(x) + [SuffixText(rep)]
    case _ => ""
  }

  predicate IsSuffix(c: char) {
    c == '?' || c == '*' || c == '+' || c == '-'
  }

  /** Not a parenthesis, an escape of another meaning, or a dollar at the end of the pattern. */
  predicate StandsAlone(x: Atom, after: char) {
    match x
    case Plain(c) => c != '(' && c != ')' && (c == '$' ==> after != '\0')
    case Escaped(c) => c != 'b' && c != 'f' && !('0' <= c <= '9')
    case _ => true
  }

  /** The item can be told from others by what comes after it. */
  predicate ItemOk(item: Item, x: Atom, p: nat, after: char) {
    match item
    case Open(what) => what == POSITION || (what == UNFINISHED && after != ')')
    case Close => true
    case Balance(open, close) => open != '\0' && close != '\0'
    case Frontier(set_) => x.Set? && SingleOk(x) && set_ == p + 2
    case Reference(digit) => '0' <= digit <= '9'
    case Anchor => after == '\0'
    case One => SingleOk(x) && StandsAlone(x, after) && !IsSuffix(after)
    case Repeat(rep) => SingleOk(x) && StandsAlone(x, SuffixText(rep))
    case _ => false
  }

  lemma ParenthesisReads(pat: string, p: nat, item: Item)
    requires item.Open? || item.Close?
    requires Stands(pat, p, ItemText(item, AnyChar)) && ItemOk(item, AnyChar, p, At(pat, p + |ItemText(item, AnyChar)|))
    ensures Parse(pat, p) == Parsed(item, p + |ItemText(item, AnyChar)|)
  {
    Chars(pat, p, ItemText(item, AnyChar));
  }

  lemma EscapeReads(pat: string, p: nat, item: Item)
    requires item.Balance? || item.Reference?
    requires Stands(pat, p, ItemText(item, AnyChar)) && ItemOk(item, AnyChar, p, At(pat, p + |ItemText(item, AnyChar)|))
    ensures Parse(pat, p) == Parsed(item, p + |ItemText(item, AnyChar)|)
  {
    Chars(pat, p, ItemText(item, AnyChar));
  }

  lemma AnchorReads(pat: string, p: nat)
    requires Stands(pat, p, "$") && At(pat, p + 1) == '\0'
    ensures Parse(pat, p).item == Anchor
  {
    Chars(pat, p, "$");
  }

  /** What stands at `p` is read as the item it is the text of, and the next item begins behind it. */
  lemma ItemReads(pat: string, p: nat, item: Item, x: Atom)
    requires Stands(pat, p, ItemText(item, x)) && ItemOk(item, x, p, At(pat, p + |ItemText(item, x)|))
    ensures Parse(pat, p).item == item
    ensures !item.Anchor? ==> Parse(pat, p).next == p + |ItemText(item, x)|
  {
    match item
    case Open(_) => ParenthesisReads(pat, p, item);
    case Close => ParenthesisReads(pat, p, item);
    case Balance(_, _) => EscapeReads(pat, p, item);
    case Reference(_) => EscapeReads(pat, p, item);
    case Anchor => AnchorReads(pat, p);
    case One =>
      assert SingleText(x) + [] == SingleText(x);
      SingleItem(pat, p, x, [], p + |SingleText(x)|);
    case Repeat(rep) => SingleItem(pat, p, x, [SuffixText(rep)], p + |SingleText(x)| + 1);
    case Frontier(_) => FrontierReads(pat, p, x);
  }

  lemma FrontierReads(pat: string, p: nat, x: Atom)
    requires x.Set? && SingleOk(x) && Stands(pat, p, "%f" + SingleText(x))
    ensures Parse(pat, p) == Parsed(Frontier(p + 2), p + 2 + |SingleText(x)|)
  {
    StandsSplit(pat, p, "%f", SingleText(x));
    Chars(pat, p, "%f");
    Chars(pat, p + 2, SingleText(x));
    SingleReads(pat, p + 2, x, ' ');
  }

  lemma SingleItem(pat: string, p: nat, x: Atom, suffix: string, end: nat)
    requires SingleOk(x) && |suffix| <= 1 && Stands(pat, p, SingleText(x) + suffix)
    requires end == p + |SingleText(x) + suffix|
    requires if suffix == [] then !IsSuffix(At(pat, end)) else IsSuffix(suffix[0])
    requires StandsAlone(x, At(pat, p + |SingleText(x)|))
    ensures Parse(pat, p).next == end
    ensures suffix == [] ==> Parse(pat, p).item == One
    ensures forall rep | suffix == [SuffixText(rep)] :: Parse(pat, p).item == Repeat(rep)
  {
    var t := SingleText(x);
    StandsSplit(pat, p, t, suffix);
    Chars(pat, p, t);
    Chars(pat, p + |t|, suffix);
    SingleReads(pat, p, x, ' ');
  }

  /** A set that is never closed, an escape or a %b that is cut short, and a %f without a set are malformed. */
  lemma {:induction false} NoBracket(pat: string, q: nat)
    requires forall k: nat | k > q :: At(pat, k) != ']'
    ensures SetEnd(pat, q) == Err(MissingBracket)
    decreases |pat| - q
  {
    if At(pat, q) != '\0' {
      NoBracket(pat, if At(pat, q) == ESC && At(pat, q + 1) != '\0' then q + 2 else q + 1);
    }
  }

  lemma MalformedReads(pat: string, p: nat)
    ensures At(pat, p) == ESC && At(pat, p + 1) == '\0' ==> Parse(pat, p).item == Malformed(EndsWithEscape)
    ensures Stands(pat, p, "%b") && (At(pat, p + 2) == '\0' || At(pat, p + 3) == '\0') ==>
              Parse(pat, p).item == Malformed(Unbalanced)
    ensures Stands(pat, p, "%f") && At(pat, p + 2) != '[' ==> Parse(pat, p).item == Malformed(MissingBracketAfterF)
    ensures At(pat, p) == '[' && (forall k: nat | k > p :: At(pat, k) != ']') ==>
              Parse(pat, p).item == Malformed(MissingBracket)
    ensures At(pat, p) == '\0' ==> Parse(pat, p).item == Finish
  {
    if Stands(pat, p, "%b") { Chars(pat, p, "%b"); }
    if Stands(pat, p, "%f") { Chars(pat, p, "%f"); }
    if forall k: nat | k > p :: At(pat, k) != ']' {
      NoBracket(pat, if At(pat, p + 1) == '^' then p + 2 else p + 1);
    }
  }
}
