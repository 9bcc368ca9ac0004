/** Lua patterns (lua/lstrlib.c): how a pattern is read, what matching it computes, and what a match is. */
module LuaPattern {
  import opened Options

  const ESC := '%'
  const MAXCAPTURES: nat := 32
  const UNFINISHED := -1
  const POSITION := -2

  datatype Capture = Capture(init: nat, len: int)

  datatype PatternError =
    | EndsWithEscape
    | MissingBracket
    | MissingBracketAfterF
    | Unbalanced
    | TooManyCaptures
    | InvalidPatternCapture
    | InvalidCaptureIndex

  datatype Result<T> = Ok(value: T) | Err(error: PatternError)

  /** A pattern ends at its first NUL. */
  function At(pat: string, p: nat): char {
    if p < |pat| then pat[p] else '\0'
  }

  // ---------------------------------------------------------------- single characters

  predicate IsLower(c: char) { 'a' <= c <= 'z' }

  predicate IsUpper(c: char) { 'A' <= c <= 'Z' }

  predicate IsDigit(c: char) { '0' <= c <= '9' }

  function ToLower(c: char): char {
    if IsUpper(c) then (c as int + 32) as char else c
  }

  /** The character classes of the C locale. */
  predicate InClass(c: char, class_: char) {
    var printable := '!' <= c <= '~';
    var alpha := IsLower(c) || IsUpper(c);
    match class_
    case 'a' => alpha
    case 'c' => c < ' ' || c == 127 as char
    case 'd' => IsDigit(c)
    case 'l' => IsLower(c)
    case 'p' => printable && !alpha && !IsDigit(c)
    case 's' => c == ' ' || 9 as char <= c <= 13 as char
    case 'u' => IsUpper(c)
    case 'w' => alpha || IsDigit(c)
    case 'x' => IsDigit(c) || 'a' <= c <= 'f' || 'A' <= c <= 'F'
    case 'z' => c == '\0'
    case _ => false
  }

  predicate IsClass(class_: char) {
    class_ in "acdlpsuwxz"
  }

  /** match_class */
  predicate MatchClass(c: char, cl: char) {
    if IsClass(ToLower(cl)) then InClass(c, ToLower(cl)) == IsLower(cl) else cl == c
  }

  /** The loop of matchbracketclass, from just before `q`. */
  predicate InSet(c: char, pat: string, q: nat, ec: nat)
    decreases ec - q
  {
    if q >= ec then false
    else if At(pat, q) == ESC then MatchClass(c, At(pat, q + 1)) || InSet(c, pat, q + 2, ec)
    else if At(pat, q + 1) == '-' && q + 2 < ec then At(pat, q) <= c <= At(pat, q + 2) || InSet(c, pat, q + 3, ec)
    else At(pat, q) == c || InSet(c, pat, q + 1, ec)
  }

  /** matchbracketclass; `p` is at the opening bracket and `ec` at the closing one. */
  predicate MatchBracket(c: char, pat: string, p: nat, ec: nat) {
    if At(pat, p + 1) == '^' then !InSet(c, pat, p + 2, ec) else InSet(c, pat, p + 1, ec)
  }

  /** singlematch */
  predicate SingleMatch(c: char, pat: string, p: nat, ep: nat) {
    if At(pat, p) == '.' then true
    else if At(pat, p) == ESC then MatchClass(c, At(pat, p + 1))
    else if At(pat, p) == '[' then ep > 0 && MatchBracket(c, pat, p, ep - 1)
    else At(pat, p) == c
  }

  // ---------------------------------------------------------------- reading a pattern

  /** The loop of classend over the inside of a set. */
  function SetEnd(pat: string, q: nat): (r: Result<nat>)
    ensures r.Ok? ==> q < r.value <= |pat|
    decreases |pat| - q
  {
    if At(pat, q) == '\0' then Err(MissingBracket)
    else
      var next := if At(pat, q) == ESC && At(pat, q + 1) != '\0' then q + 2 else q + 1;
      if At(pat, next) == ']' then Ok(next + 1) else SetEnd(pat, next)
  }

  /** classend: where the single-character item at `p` ends. */
  function ClassEnd(pat: string, p: nat): (r: Result<nat>)
    requires At(pat, p) != '\0'
    ensures r.Ok? ==> p < r.value <= |pat|
  {
    if At(pat, p) == ESC then if At(pat, p + 1) == '\0' then Err(EndsWithEscape) else Ok(p + 2)
    else if At(pat, p) == '[' then SetEnd(pat, if At(pat, p + 1) == '^' then p + 2 else p + 1)
    else Ok(p + 1)
  }

  /** ?, *, + and - */
  datatype Rep = Optional | Many | Some_ | Lazy

  datatype Item =
    | Open(what: int)
    | Close
    | Balance(open: char, close: char)
    | Frontier(set_: nat)
    | Reference(digit: char)
    | Finish
    | Anchor
    | One
    | Repeat(rep: Rep)
    | Malformed(error: PatternError)

  /** An item and where the next one begins. */
  datatype Parsed = Parsed(item: Item, next: nat)

  function Suffix(c: char): Option<Rep> {
    if c == '?' then Some(Optional)
    else if c == '*' then Some(Many)
    else if c == '+' then Some(Some_)
    else if c == '-' then Some(Lazy)
    else None
  }

  function ParseSingle(pat: string, p: nat): (r: Parsed)
    requires At(pat, p) != '\0'
    ensures r.item.Malformed? || p < r.next <= |pat|
  {
    var ep := ClassEnd(pat, p);
    if ep.Err? then Parsed(Malformed(ep.error), p)
    else if Suffix(At(pat, ep.value)).Some? then Parsed(Repeat(Suffix(At(pat, ep.value)).value), ep.value + 1)
    else Parsed(One, ep.value)
  }

  function ParseFrontier(pat: string, p: nat): (r: Parsed)
    ensures r.item.Malformed? || p < r.next <= |pat|
  {
    if At(pat, p + 2) != '[' then Parsed(Malformed(MissingBracketAfterF), p)
    else
      var ep := ClassEnd(pat, p + 2);
      if ep.Err? then Parsed(Malformed(ep.error), p) else Parsed(Frontier(p + 2), ep.value)
  }

  /** The switch of match, without the subject. */
  function Parse(pat: string, p: nat): (r: Parsed)
    ensures r.item.Malformed? || r.item.Finish? || r.item.Anchor? || p < r.next <= |pat|
  {
    var c := At(pat, p);
    if c == '\0' then Parsed(Finish, p)
    else if c == '(' then
      if At(pat, p + 1) == ')' then Parsed(Open(POSITION), p + 2) else Parsed(Open(UNFINISHED), p + 1)
    else if c == ')' then Parsed(Close, p + 1)
    else if c == ESC && At(pat, p + 1) == 'b' then
      if At(pat, p + 2) == '\0' || At(pat, p + 3) == '\0' then Parsed(Malformed(Unbalanced), p)
      else Parsed(Balance(At(pat, p + 2), At(pat, p + 3)), p + 4)
    else if c == ESC && At(pat, p + 1) == 'f' then ParseFrontier(pat, p)
    else if c == ESC && IsDigit(At(pat, p + 1)) then Parsed(Reference(At(pat, p + 1)), p + 2)
    else if c == '$' && At(pat, p + 1) == '\0' then Parsed(Anchor, p)
    else ParseSingle(pat, p)
  }

  // ---------------------------------------------------------------- items without choice

  /** The loop of matchbalance: `cont` strings are open before `s`. */
  function BalanceFrom(src: string, s: nat, open: char, close: char, cont: nat): (r: Option<nat>)
    ensures r.Some? ==> s < r.value <= |src|
    decreases |src| - s
  {
    if s >= |src| then None
    else if src[s] == close then
      if cont <= 1 then Some(s + 1) else BalanceFrom(src, s + 1, open, close, cont - 1)
    else BalanceFrom(src, s + 1, open, close, if src[s] == open then cont + 1 else cont)
  }

  function MatchBalance(src: string, s: nat, open: char, close: char): (r: Option<nat>)
    ensures r.Some? ==> s < r.value <= |src|
  {
    if At(src, s) != open || s >= |src| then None else BalanceFrom(src, s + 1, open, close, 1)
  }

  /** Between a character outside the set and one inside it; both ends of the subject read as NUL. */
  predicate AtFrontier(src: string, s: nat, pat: string, p: nat, ep: nat)
    requires ep > 0
  {
    var previous := if s == 0 then '\0' else At(src, s - 1);
    !MatchBracket(previous, pat, p, ep - 1) && MatchBracket(At(src, s), pat, p, ep - 1)
  }

  /** capture_to_close: the last capture that is still open. */
  function ToClose(caps: seq<Capture>): (r: Option<nat>)
    ensures r.Some? ==> r.value < |caps| && caps[r.value].len == UNFINISHED
    ensures r.Some? ==> forall i | r.value < i < |caps| :: caps[i].len != UNFINISHED
    ensures r.None? ==> forall i | 0 <= i < |caps| :: caps[i].len != UNFINISHED
  {
    if caps == [] then None
    else if caps[|caps| - 1].len == UNFINISHED then Some(|caps| - 1)
    else ToClose(caps[..|caps| - 1])
  }

  /** check_capture */
  function CheckCapture(caps: seq<Capture>, digit: char): (r: Result<nat>)
    ensures r.Ok? ==> r.value < |caps|
  {
    var l := digit as int - '1' as int;
    if l < 0 || l >= |caps| || caps[l].len == UNFINISHED then Err(InvalidCaptureIndex) else Ok(l)
  }

  /** match_capture: the length of a position capture, read as a size, is larger than any subject. */
  function MatchCapture(src: string, s: nat, c: Capture): (r: Option<nat>)
    requires s <= |src|
    ensures r.Some? ==> s <= r.value <= |src|
  {
    if 0 <= c.len <= |src| - s && c.init + c.len <= |src| && src[c.init..c.init + c.len] == src[s..s + c.len]
    then Some(s + c.len) else None
  }

  // ---------------------------------------------------------------- matching

  datatype Outcome = Fail | Found(end: nat, caps: seq<Capture>) | Error(error: PatternError)

  /** Whether the subject goes on with a character of the single item at `p`. */
  predicate Single(src: string, s: nat, pat: string, p: nat, ep: nat) {
    s < |src| && SingleMatch(src[s], pat, p, ep)
  }

  /** How far max_expand gets. */
  function MaxCount(src: string, s: nat, pat: string, p: nat, ep: nat): (n: nat)
    ensures s <= |src| ==> s + n <= |src|
    ensures forall j | s <= j < s + n :: Single(src, j, pat, p, ep)
    ensures !Single(src, s + n, pat, p, ep)
    decreases |src| - s
  {
    if Single(src, s, pat, p, ep) then 1 + MaxCount(src, s + 1, pat, p, ep) else 0
  }

  /** match, with the captures as a value. */
  function Match(src: string, pat: string, s: nat, p: nat, caps: seq<Capture>): Outcome
    requires s <= |src|
    decreases |pat| - p, 1, 0
  {
    var Parsed(item, next) := Parse(pat, p);
    match item
    case Malformed(e) => Error(e)
    case Finish => Found(s, caps)
    case Anchor => if s == |src| then Found(s, caps) else Fail
    case Open(what) =>
      if |caps| >= MAXCAPTURES then Error(TooManyCaptures)
      else Match(src, pat, s, next, caps + [Capture(s, what)])
    case Close =>
      var l := ToClose(caps);
      if l.None? then Error(InvalidPatternCapture)
      else Match(src, pat, s, next, CloseCapture(caps, l.value, s))
    case Balance(open, close) =>
      var e := MatchBalance(src, s, open, close);
      if e.None? then Fail else Match(src, pat, e.value, next, caps)
    case Frontier(set_) => if AtFrontier(src, s, pat, set_, next) then Match(src, pat, s, next, caps) else Fail
    case Reference(digit) =>
      var l := CheckCapture(caps, digit);
      if l.Err? then Error(l.error)
      else
        var e := MatchCapture(src, s, caps[l.value]);
        if e.None? then Fail else Match(src, pat, e.value, next, caps)
    case One => if Single(src, s, pat, p, next) then Match(src, pat, s + 1, next, caps) else Fail
    case Repeat(rep) =>
      var m := Single(src, s, pat, p, next - 1);
      match rep
      case Optional =>
        var r := if m then Match(src, pat, s + 1, next, caps) else Fail;
        if r.Fail? then Match(src, pat, s, next, caps) else r
      case Many => MaxTry(src, pat, s, MaxCount(src, s, pat, p, next - 1), next, caps)
      case Some_ => if m then MaxTry(src, pat, s + 1, MaxCount(src, s + 1, pat, p, next - 1), next, caps) else Fail
      case Lazy => MinTry(src, pat, s, p, next, caps)
  }

  /** end_capture: the capture ends before `s`, and the others stay as they are. */
  function CloseCapture(caps: seq<Capture>, l: nat, s: nat): (r: seq<Capture>)
    requires l < |caps|
    ensures |r| == |caps| && r[l].init == caps[l].init && r[l].init + r[l].len == s
    ensures forall k | 0 <= k < |caps| && k != l :: r[k] == caps[k]
  {
    caps[l := Capture(caps[l].init, s - caps[l].init)]
  }

  /** The second loop of max_expand: `i` repetitions, then fewer. */
  function MaxTry(src: string, pat: string, s: nat, i: nat, next: nat, caps: seq<Capture>): Outcome
    requires s + i <= |src|
    decreases |pat| - next, 2, i
  {
    var r := Match(src, pat, s + i, next, caps);
    if !r.Fail? || i == 0 then r else MaxTry(src, pat, s, i - 1, next, caps)
  }

  /** min_expand: no repetition, then one more at a time. */
  function MinTry(src: string, pat: string, s: nat, p: nat, next: nat, caps: seq<Capture>): Outcome
    requires s <= |src| && next > 0
    decreases |pat| - next, 2, |src| - s
  {
    var r := Match(src, pat, s, next, caps);
    if !r.Fail? then r
    else if Single(src, s, pat, p, next - 1) then MinTry(src, pat, s + 1, p, next, caps)
    else Fail
  }

  // ---------------------------------------------------------------- what a match is

  predicate Allowed(rep: Rep, n: nat) {
    match rep
    case Optional => n <= 1
    case Some_ => n >= 1
    case _ => true
  }

  /** One way through the pattern: `script` says how often each repeated item is taken. */
  function Replay(src: string, pat: string, s: nat, p: nat, caps: seq<Capture>, script: seq<nat>): Outcome
    requires s <= |src|
    decreases |pat| - p
  {
    var Parsed(item, next) := Parse(pat, p);
    match item
    case Malformed(e) => Error(e)
    case Finish => Found(s, caps)
    case Anchor => if s == |src| then Found(s, caps) else Fail
    case Open(what) =>
      if |caps| >= MAXCAPTURES then Error(TooManyCaptures)
      else Replay(src, pat, s, next, caps + [Capture(s, what)], script)
    case Close =>
      var l := ToClose(caps);
      if l.None? then Error(InvalidPatternCapture)
      else Replay(src, pat, s, next, CloseCapture(caps, l.value, s), script)
    case Balance(open, close) =>
      var e := MatchBalance(src, s, open, close);
      if e.None? then Fail else Replay(src, pat, e.value, next, caps, script)
    case Frontier(set_) => if AtFrontier(src, s, pat, set_, next) then Replay(src, pat, s, next, caps, script) else Fail
    case Reference(digit) =>
      var l := CheckCapture(caps, digit);
      if l.Err? then Error(l.error)
      else
        var e := MatchCapture(src, s, caps[l.value]);
        if e.None? then Fail else Replay(src, pat, e.value, next, caps, script)
    case One => if Single(src, s, pat, p, next) then Replay(src, pat, s + 1, next, caps, script) else Fail
    case Repeat(rep) =>
      if script == [] then Fail
      else if Allowed(rep, script[0]) && Taken(src, s, pat, p, next - 1, script[0])
      then Replay(src, pat, s + script[0], next, caps, script[1..]) else Fail
  }

  /** The next `n` characters of the subject all belong to the item at `p`. */
  predicate Taken(src: string, s: nat, pat: string, p: nat, ep: nat, n: nat) {
    s + n <= |src| && forall j | s <= j < s + n :: Single(src, j, pat, p, ep)
  }

  /** Which of two ways is tried first: the one that, at the first item where they differ, takes the
      greedy item more often or the lazy item less often. */
  predicate Earlier(pat: string, p: nat, a: seq<nat>, b: seq<nat>)
    decreases |pat| - p
  {
    var Parsed(item, next) := Parse(pat, p);
    match item
    case Malformed(_) => false
    case Finish => false
    case Anchor => false
    case Repeat(rep) =>
      a != [] && b != [] &&
      if a[0] == b[0] then Earlier(pat, next, a[1..], b[1..]) else if rep == Lazy then a[0] < b[0] else a[0] > b[0]
    case _ => Earlier(pat, next, a, b)
  }
}
