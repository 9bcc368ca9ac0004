/** What the captures of a match hold (lua/lstrlib.c), told by the way the match takes: where in the subject each
    parenthesis of the pattern stands. */
module LuaPatternSpans {
  import opened Options
  import opened LuaPattern
  import opened LuaPatternItems
  import opened LuaPatternMeaning

  /** A place in the pattern, the item that begins there, and the place in the subject that belongs to it. */
  datatype Stop = Stop(p: nat, item: Item, s: nat)

  // ---------------------------------------------------------------- parentheses

  /** A parenthesis that is to be closed; a position capture is not. */
  predicate Opens(item: Item) {
    item.Open? && item.what != POSITION
  }

  function Turn(item: Item): int {
    if Opens(item) then 1 else if item == Close then -1 else 0
  }

  /** How many more parentheses open than close from item i to before item j. */
  function Depth(way: seq<Stop>, i: nat, j: nat): int
    requires j <= |way|
    decreases j
  {
    if j <= i then 0 else Depth(way, i, j - 1) + Turn(way[j - 1].item)
  }

  /** As many parentheses have opened from item i to before item k as have closed, or more. */
  ghost predicate Covered(way: seq<Stop>, i: nat, k: nat) {
    k <= |way| && Depth(way, i, k) >= 0
  }

  /** From item i to before item j no parenthesis closes that was opened earlier. */
  ghost predicate Within(way: seq<Stop>, i: nat, j: nat) {
    j <= |way| && forall k: nat | k <= j :: Covered(way, i, k)
  }

  /** The parenthesis opened at item i is closed at item j. */
  ghost predicate Pair(way: seq<Stop>, i: nat, j: nat) {
    && i < j < |way| && Opens(way[i].item) && way[j].item == Close
    && Within(way, i + 1, j) && Depth(way, i + 1, j) == 0
  }

  /** Those of the first n items that open a capture. */
  function Openings(way: seq<Stop>, n: nat): seq<nat>
    requires n <= |way|
  {
    if n == 0 then [] else Openings(way, n - 1) + if way[n - 1].item.Open? then [n - 1] else []
  }

  // ---------------------------------------------------------------- the way

  /** A reference goes over what stands between the parentheses of the capture of that number, closed at item j. */
  ghost predicate Refers(src: string, way: seq<Stop>, i: nat, digit: char, j: nat)
    requires i + 1 < |way| && way[i].s <= way[i + 1].s
  {
    var l := digit as int - '1' as int;
    && 0 <= l < |Openings(way, i)| && j < i
    && var o := Openings(way, i)[l];
       && Pair(way, o, j) && way[i + 1].s - way[i].s == way[j].s - way[o].s
       && Repeats(src, way[i].s, way[o].s, way[i + 1].s - way[i].s)
  }

  /** From stop i to the next one the item of the pattern is passed over in the subject. */
  ghost predicate Goes(src: string, pat: string, way: seq<Stop>, i: nat)
    requires i + 1 < |way|
  {
    var Stop(p, item, s) := way[i];
    var to := way[i + 1];
    && Parse(pat, p) == Parsed(item, to.p) && s <= to.s <= |src|
    && match item
       case Open(_) => to.s == s
       case Close => to.s == s
       case Frontier(set_) => to.s == s && to.p > 0 && AtFrontier(src, s, pat, set_, to.p)
       case Balance(open, close) => MatchBalance(src, s, open, close) == Some(to.s)
       case Reference(digit) => exists j: nat :: Refers(src, way, i, digit, j)
       case One => to.s == s + 1 && Single(src, s, pat, p, to.p)
       case Repeat(rep) => to.p > 0 && Allowed(rep, to.s - s) && Taken(src, s, pat, p, to.p - 1, to.s - s)
       case _ => false
  }

  ghost predicate Way(src: string, pat: string, way: seq<Stop>) {
    && way != [] && way[|way| - 1].s <= |src|
    && forall i: nat | i + 1 < |way| :: Goes(src, pat, way, i)
  }

  // ---------------------------------------------------------------- what a capture holds

  /** The capture of the parenthesis at item i: where that stands, and how far it is from there to the one that
      closes it. */
  ghost predicate Holds(way: seq<Stop>, i: nat, c: Capture) {
    && i + 1 < |way| && way[i].item.Open? && c.init == way[i].s
    && (if !Opens(way[i].item) then c.len == POSITION
        else
          || (c.len == UNFINISHED && Within(way, i + 1, |way| - 1))
          || (exists j: nat :: j + 1 < |way| && Pair(way, i, j) && c.len == way[j].s - c.init))
  }

  ghost predicate Captured(way: seq<Stop>, caps: seq<Capture>) {
    && way != []
    && var opens := Openings(way, |way| - 1);
       |caps| == |opens| && forall l | 0 <= l < |caps| :: Holds(way, opens[l], caps[l])
  }

  // ---------------------------------------------------------------- one item more

  lemma {:induction false} DepthMore(way: seq<Stop>, x: Stop, i: nat, j: nat)
    requires j <= |way|
    ensures Depth(way + [x], i, j) == Depth(way, i, j)
    decreases j
  {
    if j > i { DepthMore(way, x, i, j - 1); }
  }

  lemma WithinMore(way: seq<Stop>, x: Stop, i: nat, j: nat)
    requires Within(way, i, j)
    ensures Within(way + [x], i, j) && Depth(way + [x], i, j) == Depth(way, i, j)
  {
    forall k: nat | k <= j ensures Covered(way + [x], i, k) {
      assert Covered(way, i, k);
      DepthMore(way, x, i, k);
    }
    assert Covered(way, i, j);
    DepthMore(way, x, i, j);
  }

  lemma PairMore(way: seq<Stop>, x: Stop, i: nat, j: nat)
    requires Pair(way, i, j)
    ensures Pair(way + [x], i, j)
  {
    WithinMore(way, x, i + 1, j);
  }

  lemma {:induction false} OpeningsMore(way: seq<Stop>, x: Stop, n: nat)
    requires n <= |way|
    ensures Openings(way + [x], n) == Openings(way, n)
  {
    if n > 0 { OpeningsMore(way, x, n - 1); }
  }

  /** The openings after one item more. */
  lemma OpeningsThen(way: seq<Stop>, x: Stop, i: nat)
    requires i + 1 == |way|
    ensures Openings(way + [x], |way|) == if way[i].item.Open? then Openings(way, i) + [i] else Openings(way, i)
  {
    OpeningsMore(way, x, i);
    assert Openings(way + [x], i) + [] == Openings(way, i);
  }

  lemma GoesMore(src: string, pat: string, way: seq<Stop>, x: Stop, i: nat)
    requires i + 1 < |way| && Goes(src, pat, way, i)
    ensures Goes(src, pat, way + [x], i)
  {
    var item := way[i].item;
    if item.Reference? {
      var j: nat :| Refers(src, way, i, item.digit, j);
      OpeningsMore(way, x, i);
      PairMore(way, x, Openings(way, i)[item.digit as int - '1' as int], j);
      assert Refers(src, way + [x], i, item.digit, j);
    }
  }

  lemma WayMore(src: string, pat: string, way: seq<Stop>, x: Stop)
    requires Way(src, pat, way) && Goes(src, pat, way + [x], |way| - 1)
    ensures Way(src, pat, way + [x])
  {
    forall i: nat | i + 1 < |way + [x]| ensures Goes(src, pat, way + [x], i) {
      if i + 1 < |way| { GoesMore(src, pat, way, x, i); }
    }
  }

  lemma {:induction false} WayRises(src: string, pat: string, way: seq<Stop>, i: nat, j: nat)
    requires Way(src, pat, way) && i <= j < |way|
    ensures way[i].s <= way[j].s
    decreases j
  {
    if i < j {
      WayRises(src, pat, way, i, j - 1);
      assert Goes(src, pat, way, j - 1);
    }
  }

  /** How many captures from the l-th on are still open. */
  function Unclosed(caps: seq<Capture>, l: nat): nat
    decreases |caps| - l
  {
    if l >= |caps| then 0 else (if caps[l].len == UNFINISHED then 1 else 0) + Unclosed(caps, l + 1)
  }

  lemma {:induction false} NoneUnclosed(caps: seq<Capture>, l: nat)
    requires forall k | l <= k < |caps| :: caps[k].len != UNFINISHED
    ensures Unclosed(caps, l) == 0
    decreases |caps| - l
  {
    if l < |caps| { NoneUnclosed(caps, l + 1); }
  }

  lemma {:induction false} UnclosedMore(caps: seq<Capture>, c: Capture, l: nat)
    requires l <= |caps|
    ensures Unclosed(caps + [c], l) == Unclosed(caps, l) + if c.len == UNFINISHED then 1 else 0
    decreases |caps| - l
  {
    if l < |caps| {
      UnclosedMore(caps, c, l + 1);
    } else {
      assert Unclosed(caps + [c], l + 1) == 0;
    }
  }

  lemma {:induction false} UnclosedLess(caps: seq<Capture>, now: seq<Capture>, k: nat, l: nat)
    requires l <= k < |caps| == |now| && caps[k].len == UNFINISHED && now[k].len != UNFINISHED
    requires forall m | 0 <= m < |caps| && m != k :: now[m] == caps[m]
    ensures Unclosed(now, l) == Unclosed(caps, l) - 1
    decreases |caps| - l
  {
    if l < k {
      UnclosedLess(caps, now, k, l + 1);
    } else {
      UnclosedSame(caps, now, l + 1);
    }
  }

  lemma {:induction false} UnclosedSame(caps: seq<Capture>, now: seq<Capture>, l: nat)
    requires |caps| == |now| && forall m | l <= m < |caps| :: now[m] == caps[m]
    ensures Unclosed(now, l) == Unclosed(caps, l)
    decreases |caps| - l
  {
    if l < |caps| { UnclosedSame(caps, now, l + 1); }
  }

  /** The capture of item o, which if it is open has `u` open ones after it: that is how deep it is. */
  ghost predicate Entry(way: seq<Stop>, o: nat, c: Capture, u: int) {
    && Holds(way, o, c)
    && (c.len == UNFINISHED ==> Within(way, o + 1, |way| - 1) && Depth(way, o + 1, |way| - 1) == u)
  }

  /** The trigger keeps one capture from calling for the next. */
  ghost predicate Entries(way: seq<Stop>, opens: seq<nat>, caps: seq<Capture>) {
    && |caps| == |opens|
    && forall l: nat {:trigger opens[l]} | l < |opens| :: Entry(way, opens[l], caps[l], Unclosed(caps, l + 1))
  }

  ghost predicate Recorded(way: seq<Stop>, caps: seq<Capture>) {
    way != [] && Entries(way, Openings(way, |way| - 1), caps)
  }

  /** A capture that is closed, or is still open after the item. */
  lemma HoldsMore(way: seq<Stop>, x: Stop, i: nat, c: Capture)
    requires Holds(way, i, c)
    requires c.len == UNFINISHED ==> Within(way + [x], i + 1, |way|)
    ensures Holds(way + [x], i, c)
  {
    if c.len != UNFINISHED && Opens(way[i].item) {
      var j: nat :| j + 1 < |way| && Pair(way, i, j) && c.len == way[j].s - c.init;
      PairMore(way, x, i, j);
    }
  }

  lemma StillWithin(way: seq<Stop>, x: Stop, i: nat, d: int)
    requires i < |way| && Within(way, i, |way| - 1) && d == Depth(way, i, |way| - 1)
    requires d + Turn(way[|way| - 1].item) >= 0
    ensures Within(way + [x], i, |way|)
    ensures Depth(way + [x], i, |way|) == d + Turn(way[|way| - 1].item)
  {
    WithinMore(way, x, i, |way| - 1);
  }

  lemma EntryMore(way: seq<Stop>, x: Stop, o: nat, c: Capture, u: nat, v: nat)
    requires Entry(way, o, c, u) && (c.len == UNFINISHED ==> v == u + Turn(way[|way| - 1].item))
    ensures Entry(way + [x], o, c, v)
  {
    if c.len == UNFINISHED { StillWithin(way, x, o + 1, u); }
    HoldsMore(way, x, o, c);
  }

  lemma EntryOpens(way: seq<Stop>, x: Stop, o: nat, c: Capture)
    requires o + 1 == |way| && way[o].item == Open(c.len) && c.init == way[o].s
    requires c.len == UNFINISHED || c.len == POSITION
    ensures Entry(way + [x], o, c, 0)
  {
    assert Within(way + [x], o + 1, |way|);
  }

  lemma EntryCloses(way: seq<Stop>, x: Stop, o: nat, c: Capture, now: Capture)
    requires Entry(way, o, c, 0) && c.len == UNFINISHED && way[|way| - 1].item == Close
    requires now.init == c.init && now.len >= 0 && now.init + now.len == way[|way| - 1].s
    ensures Entry(way + [x], o, now, 0)
  {
    WithinMore(way, x, o + 1, |way| - 1);
    assert Pair(way + [x], o, |way| - 1);
  }

  lemma SameOpenings(way: seq<Stop>, x: Stop, i: nat)
    requires i + 1 == |way| && !way[i].item.Open?
    ensures Openings(way + [x], |way + [x]| - 1) == Openings(way, |way| - 1)
  {
    OpeningsThen(way, x, i);
  }

  lemma EachStays(way: seq<Stop>, x: Stop, opens: seq<nat>, caps: seq<Capture>)
    requires Entries(way, opens, caps) && way != [] && Turn(way[|way| - 1].item) == 0
    ensures Entries(way + [x], opens, caps)
  {
    forall l: nat {:trigger opens[l]} | l < |opens| ensures Entry(way + [x], opens[l], caps[l], Unclosed(caps, l + 1)) {
      EntryMore(way, x, opens[l], caps[l], Unclosed(caps, l + 1), Unclosed(caps, l + 1));
    }
  }

  /** An item that is no parenthesis. */
  lemma PlainRecorded(way: seq<Stop>, x: Stop, caps: seq<Capture>)
    requires Recorded(way, caps)
    requires !way[|way| - 1].item.Open? && !way[|way| - 1].item.Close?
    ensures Recorded(way + [x], caps)
  {
    SameOpenings(way, x, |way| - 1);
    EachStays(way, x, Openings(way, |way| - 1), caps);
  }

  lemma EachOpens(way: seq<Stop>, x: Stop, opens: seq<nat>, caps: seq<Capture>, c: Capture)
    requires Entries(way, opens, caps) && way != [] && c.init == way[|way| - 1].s
    requires way[|way| - 1].item == Open(c.len) && (c.len == UNFINISHED || c.len == POSITION)
    ensures Entries(way + [x], opens + [|way| - 1], caps + [c])
  {
    var more, now := opens + [|way| - 1], caps + [c];
    forall l: nat {:trigger more[l]} | l < |more| ensures Entry(way + [x], more[l], now[l], Unclosed(now, l + 1)) {
      if l < |caps| {
        assert more[l] == opens[l];
        UnclosedMore(caps, c, l + 1);
        EntryMore(way, x, opens[l], caps[l], Unclosed(caps, l + 1), Unclosed(now, l + 1));
      } else {
        EntryOpens(way, x, |way| - 1, c);
      }
    }
  }

  lemma OpenRecorded(way: seq<Stop>, x: Stop, caps: seq<Capture>, c: Capture)
    requires Recorded(way, caps) && way[|way| - 1].item == Open(c.len) && c.init == way[|way| - 1].s
    requires c.len == UNFINISHED || c.len == POSITION
    ensures Recorded(way + [x], caps + [c])
  {
    OpeningsThen(way, x, |way| - 1);
    EachOpens(way, x, Openings(way, |way| - 1), caps, c);
  }

  /** The k-th capture, the last that is open, is closed. */
  ghost predicate Closes(caps: seq<Capture>, now: seq<Capture>, k: nat) {
    && k < |caps| == |now| && caps[k].len == UNFINISHED && now[k].len >= 0 && now[k].init == caps[k].init
    && (forall m | 0 <= m < |caps| && m != k :: now[m] == caps[m])
    && (forall m | k < m < |caps| :: caps[m].len != UNFINISHED)
  }

  /** How deep the l-th capture is then. */
  lemma CloseDepth(caps: seq<Capture>, now: seq<Capture>, k: nat, l: nat)
    requires Closes(caps, now, k) && l < |caps| && l != k
    ensures now[l] == caps[l] && (caps[l].len == UNFINISHED ==> Unclosed(now, l + 1) == Unclosed(caps, l + 1) - 1)
  {
    if l < k { UnclosedLess(caps, now, k, l + 1); }
  }

  lemma NoneAfter(caps: seq<Capture>, now: seq<Capture>, k: nat)
    requires Closes(caps, now, k)
    ensures Unclosed(caps, k + 1) == 0 == Unclosed(now, k + 1)
  {
    NoneUnclosed(caps, k + 1);
    UnclosedSame(caps, now, k + 1);
  }

  lemma EachCloses(way: seq<Stop>, x: Stop, opens: seq<nat>, caps: seq<Capture>, now: seq<Capture>, k: nat)
    requires Entries(way, opens, caps) && way != [] && way[|way| - 1].item == Close
    requires Closes(caps, now, k) && now[k].init + now[k].len == way[|way| - 1].s
    ensures Entries(way + [x], opens, now)
  {
    forall l: nat {:trigger opens[l]} | l < |opens| ensures Entry(way + [x], opens[l], now[l], Unclosed(now, l + 1)) {
      if l == k {
        NoneAfter(caps, now, k);
        EntryCloses(way, x, opens[k], caps[k], now[k]);
      } else {
        CloseDepth(caps, now, k, l);
        EntryMore(way, x, opens[l], caps[l], Unclosed(caps, l + 1), Unclosed(now, l + 1));
      }
    }
  }

  lemma CloseRecorded(way: seq<Stop>, x: Stop, caps: seq<Capture>, now: seq<Capture>, k: nat)
    requires Recorded(way, caps) && way[|way| - 1].item == Close
    requires Closes(caps, now, k) && now[k].init + now[k].len == way[|way| - 1].s
    ensures Recorded(way + [x], now)
  {
    SameOpenings(way, x, |way| - 1);
    EachCloses(way, x, Openings(way, |way| - 1), caps, now, k);
  }

  lemma OpenedBefore(src: string, pat: string, way: seq<Stop>, caps: seq<Capture>, k: nat)
    requires Way(src, pat, way) && Recorded(way, caps) && k < |caps|
    ensures caps[k].init <= way[|way| - 1].s
  {
    var o := Openings(way, |way| - 1)[k];
    assert Entry(way, o, caps[k], Unclosed(caps, k + 1));
    WayRises(src, pat, way, o, |way| - 1);
  }

  // ---------------------------------------------------------------- the way a match takes

  lemma {:induction false} MaxTryTakes(src: string, pat: string, s: nat, i: nat, next: nat, caps: seq<Capture>)
    returns (n: nat)
    requires s + i <= |src|
    ensures n <= i && MaxTry(src, pat, s, i, next, caps) == Match(src, pat, s + n, next, caps)
    decreases i
  {
    n := i;
    if Match(src, pat, s + i, next, caps).Fail? && i > 0 { n := MaxTryTakes(src, pat, s, i - 1, next, caps); }
  }

  lemma {:induction false} MinTryTakes(src: string, pat: string, s: nat, p: nat, next: nat, caps: seq<Capture>)
    returns (n: nat)
    requires s <= |src| && next > 0 && !MinTry(src, pat, s, p, next, caps).Fail?
    ensures Taken(src, s, pat, p, next - 1, n)
    ensures MinTry(src, pat, s, p, next, caps) == Match(src, pat, s + n, next, caps)
    decreases |src| - s
  {
    n := 0;
    if Match(src, pat, s, next, caps).Fail? {
      n := MinTryTakes(src, pat, s + 1, p, next, caps);
      n := n + 1;
    }
  }

  lemma ManyTakes(src: string, pat: string, s: nat, p: nat, next: nat, caps: seq<Capture>) returns (n: nat)
    requires s <= |src| && next > 0
    ensures Taken(src, s, pat, p, next - 1, n)
    ensures MaxTry(src, pat, s, MaxCount(src, s, pat, p, next - 1), next, caps) == Match(src, pat, s + n, next, caps)
  {
    n := MaxTryTakes(src, pat, s, MaxCount(src, s, pat, p, next - 1), next, caps);
  }

  lemma SomeTakes(src: string, pat: string, s: nat, p: nat, next: nat, caps: seq<Capture>) returns (n: nat)
    requires s < |src| && next > 0 && Single(src, s, pat, p, next - 1)
    ensures n >= 1 && Taken(src, s, pat, p, next - 1, n)
    ensures MaxTry(src, pat, s + 1, MaxCount(src, s + 1, pat, p, next - 1), next, caps)
         == Match(src, pat, s + n, next, caps)
  {
    var k := ManyTakes(src, pat, s + 1, p, next, caps);
    n := k + 1;
    assert s + 1 + k == s + n;
  }

  lemma OptionalTakes(src: string, pat: string, s: nat, p: nat, caps: seq<Capture>, next: nat) returns (n: nat)
    requires s <= |src| && Parse(pat, p) == Parsed(Repeat(Optional), next)
    ensures n <= 1 && Taken(src, s, pat, p, next - 1, n)
    ensures Match(src, pat, s, p, caps) == Match(src, pat, s + n, next, caps)
  {
    n := if Single(src, s, pat, p, next - 1) && !Match(src, pat, s + 1, next, caps).Fail? then 1 else 0;
  }

  /** What match does with a repeated item. */
  lemma RepeatIs(src: string, pat: string, s: nat, p: nat, caps: seq<Capture>, rep: Rep, next: nat)
    requires s <= |src| && Parse(pat, p) == Parsed(Repeat(rep), next) && !rep.Optional?
    ensures next > p && next <= |pat|
    ensures rep.Many? ==>
      Match(src, pat, s, p, caps) == MaxTry(src, pat, s, MaxCount(src, s, pat, p, next - 1), next, caps)
    ensures rep.Lazy? ==> Match(src, pat, s, p, caps) == MinTry(src, pat, s, p, next, caps)
    ensures rep.Some_? && !Match(src, pat, s, p, caps).Fail? ==>
      && Single(src, s, pat, p, next - 1)
      && Match(src, pat, s, p, caps)
         == MaxTry(src, pat, s + 1, MaxCount(src, s + 1, pat, p, next - 1), next, caps)
  {
  }

  /** A repeated item is taken as often as it may be. */
  lemma RepeatTakes(src: string, pat: string, s: nat, p: nat, caps: seq<Capture>, rep: Rep, next: nat) returns (n: nat)
    requires s <= |src| && next > 0 && Parse(pat, p) == Parsed(Repeat(rep), next)
    requires !Match(src, pat, s, p, caps).Fail?
    ensures Allowed(rep, n) && Taken(src, s, pat, p, next - 1, n)
    ensures Match(src, pat, s, p, caps) == Match(src, pat, s + n, next, caps)
  {
    if rep.Optional? {
      n := OptionalTakes(src, pat, s, p, caps, next);
    } else {
      RepeatIs(src, pat, s, p, caps, rep, next);
      if rep.Many? {
        n := ManyTakes(src, pat, s, p, next, caps);
      } else if rep.Some_? {
        n := SomeTakes(src, pat, s, p, next, caps);
      } else {
        n := MinTryTakes(src, pat, s, p, next, caps);
      }
    }
  }

  /** A reference that matches goes over what its capture holds. */
  lemma ReferenceGoes(src: string, pat: string, way: seq<Stop>, x: Stop, caps: seq<Capture>, i: nat, digit: char,
                      l: nat)
    returns (j: nat)
    requires Way(src, pat, way) && Recorded(way, caps) && i + 1 == |way| && way[i].item == Reference(digit)
    requires CheckCapture(caps, digit) == Ok(l) && MatchCapture(src, way[i].s, caps[l]) == Some(x.s)
    ensures Refers(src, way + [x], i, digit, j)
  {
    var opens := Openings(way, i);
    assert Entry(way, opens[l], caps[l], Unclosed(caps, l + 1));
    j :| j + 1 < |way| && Pair(way, opens[l], j) && caps[l].len == way[j].s - caps[l].init;
    PairMore(way, x, opens[l], j);
    OpeningsMore(way, x, i);
    RepeatsCapture(src, way[i].s, caps[l], x.s);
  }

  /** Where an item without choice leads, and what it does to the captures. */
  ghost predicate Leads(src: string, pat: string, s: nat, p: nat, caps: seq<Capture>, item: Item, next: nat, t: nat,
                        now: seq<Capture>)
    requires s <= |src|
  {
    match item
    case Open(what) => t == s && now == caps + [Capture(s, what)] && (what == POSITION || what == UNFINISHED)
    case Close => t == s && ToClose(caps).Some? && now == CloseCapture(caps, ToClose(caps).value, s)
    case Balance(open, close) => MatchBalance(src, s, open, close) == Some(t) && now == caps
    case Frontier(set_) => t == s && next > 0 && AtFrontier(src, s, pat, set_, next) && now == caps
    case Reference(digit) =>
      && CheckCapture(caps, digit).Ok? && now == caps
      && MatchCapture(src, s, caps[CheckCapture(caps, digit).value]) == Some(t)
    case One => t == s + 1 && Single(src, s, pat, p, next) && now == caps
    case _ => false
  }

  lemma OnwardIs(src: string, pat: string, s: nat, p: nat, caps: seq<Capture>, item: Item, next: nat, t: nat,
                 now: seq<Capture>)
    requires s <= |src| && Parse(pat, p) == Parsed(item, next) && Onward(src, pat, s, p, caps) == Some((t, now))
    ensures s <= t <= |src| && Leads(src, pat, s, p, caps, item, next, t, now)
  {
  }

  lemma StepRecorded(src: string, pat: string, way: seq<Stop>, x: Stop, caps: seq<Capture>, now: seq<Capture>, i: nat)
    requires Way(src, pat, way) && Recorded(way, caps) && i + 1 == |way| && way[i].s <= |src|
    requires Leads(src, pat, way[i].s, way[i].p, caps, way[i].item, x.p, x.s, now)
    ensures Recorded(way + [x], now)
  {
    match way[i].item
    case Open(what) => OpenRecorded(way, x, caps, Capture(way[i].s, what));
    case Close =>
      var k := ToClose(caps).value;
      OpenedBefore(src, pat, way, caps, k);
      CloseRecorded(way, x, caps, now, k);
    case _ => PlainRecorded(way, x, caps);
  }

  lemma StepPasses(src: string, pat: string, way: seq<Stop>, x: Stop, caps: seq<Capture>, now: seq<Capture>, i: nat)
    requires Way(src, pat, way) && Recorded(way, caps) && i + 1 == |way| && way[i].s <= x.s <= |src|
    requires Parse(pat, way[i].p) == Parsed(way[i].item, x.p)
    requires Leads(src, pat, way[i].s, way[i].p, caps, way[i].item, x.p, x.s, now)
    ensures Goes(src, pat, way + [x], i)
  {
    if way[i].item.Reference? {
      var digit := way[i].item.digit;
      var j := ReferenceGoes(src, pat, way, x, caps, i, digit, CheckCapture(caps, digit).value);
    }
  }

  /** An item without choice. */
  lemma StepGoes(src: string, pat: string, way: seq<Stop>, x: Stop, caps: seq<Capture>, now: seq<Capture>, i: nat)
    requires Way(src, pat, way) && Recorded(way, caps) && i + 1 == |way| && way[i].s <= |src|
    requires Parse(pat, way[i].p) == Parsed(way[i].item, x.p)
    requires Onward(src, pat, way[i].s, way[i].p, caps) == Some((x.s, now))
    ensures Way(src, pat, way + [x]) && Recorded(way + [x], now)
  {
    OnwardIs(src, pat, way[i].s, way[i].p, caps, way[i].item, x.p, x.s, now);
    StepRecorded(src, pat, way, x, caps, now, i);
    StepPasses(src, pat, way, x, caps, now, i);
    WayMore(src, pat, way, x);
  }

  /** Matching goes on from where the item leads. */
  lemma MatchesOn(src: string, pat: string, s: nat, p: nat, caps: seq<Capture>, item: Item, next: nat)
    requires s <= |src| && Parse(pat, p) == Parsed(item, next) && Match(src, pat, s, p, caps).Found?
    requires !item.Repeat? && !item.Finish? && !item.Anchor?
    ensures next > p && next <= |pat| && Onward(src, pat, s, p, caps).Some?
    ensures var on := Onward(src, pat, s, p, caps).value;
      on.0 <= |src| && Match(src, pat, s, p, caps) == Match(src, pat, on.0, next, on.1)
  {
  }

  lemma RepeatGoes(src: string, pat: string, way: seq<Stop>, x: Stop, caps: seq<Capture>, i: nat, n: nat)
    requires Way(src, pat, way) && Recorded(way, caps) && i + 1 == |way| && way[i].item.Repeat?
    requires Parse(pat, way[i].p) == Parsed(way[i].item, x.p) && x.s == way[i].s + n && x.p > 0
    requires Allowed(way[i].item.rep, n) && Taken(src, way[i].s, pat, way[i].p, x.p - 1, n)
    ensures Way(src, pat, way + [x]) && Recorded(way + [x], caps)
  {
    assert Goes(src, pat, way + [x], i);
    WayMore(src, pat, way, x);
    PlainRecorded(way, x, caps);
  }

  lemma NextBehind(src: string, pat: string, s: nat, p: nat, caps: seq<Capture>)
    requires s <= |src| && Match(src, pat, s, p, caps).Found?
    requires !Parse(pat, p).item.Finish? && !Parse(pat, p).item.Anchor?
    ensures p < Parse(pat, p).next <= |pat|
  {
  }

  /** The match has come to this stop with these captures, and goes on to `r`. */
  ghost predicate Arrived(src: string, pat: string, x: Stop, caps: seq<Capture>, r: Outcome) {
    x.s <= |src| && x.item == Parse(pat, x.p).item && Match(src, pat, x.s, x.p, caps) == r
  }

  lemma RepeatStop(src: string, pat: string, way: seq<Stop>, caps: seq<Capture>, i: nat, r: Outcome) returns (x: Stop)
    requires Way(src, pat, way) && Recorded(way, caps) && r.Found? && i + 1 == |way|
    requires Arrived(src, pat, way[i], caps, r) && way[i].item.Repeat? && way[i].p < Parse(pat, way[i].p).next
    ensures x.p == Parse(pat, way[i].p).next && Arrived(src, pat, x, caps, r)
    ensures Way(src, pat, way + [x]) && Recorded(way + [x], caps)
  {
    var Stop(p, item, s) := way[i];
    var next := Parse(pat, p).next;
    var n := RepeatTakes(src, pat, s, p, caps, item.rep, next);
    x := Stop(next, Parse(pat, next).item, s + n);
    RepeatGoes(src, pat, way, x, caps, i, n);
  }

  lemma PlainStop(src: string, pat: string, way: seq<Stop>, caps: seq<Capture>, i: nat, r: Outcome)
    returns (x: Stop, now: seq<Capture>)
    requires Way(src, pat, way) && Recorded(way, caps) && r.Found? && i + 1 == |way|
    requires Arrived(src, pat, way[i], caps, r)
    requires !way[i].item.Repeat? && !way[i].item.Finish? && !way[i].item.Anchor?
    ensures x.p == Parse(pat, way[i].p).next && Arrived(src, pat, x, now, r)
    ensures Way(src, pat, way + [x]) && Recorded(way + [x], now)
  {
    var Stop(p, item, s) := way[i];
    var next := Parse(pat, p).next;
    MatchesOn(src, pat, s, p, caps, item, next);
    var on := Onward(src, pat, s, p, caps).value;
    x, now := Stop(next, Parse(pat, next).item, on.0), on.1;
    StepGoes(src, pat, way, x, caps, now, i);
  }

  /** The next stop, and the captures there. */
  lemma NextStop(src: string, pat: string, way: seq<Stop>, caps: seq<Capture>, i: nat, r: Outcome)
    returns (x: Stop, now: seq<Capture>)
    requires Way(src, pat, way) && Recorded(way, caps) && r.Found? && i + 1 == |way|
    requires Arrived(src, pat, way[i], caps, r) && !way[i].item.Finish? && !way[i].item.Anchor?
    ensures way[i].p < x.p <= |pat| && Arrived(src, pat, x, now, r)
    ensures Way(src, pat, way + [x]) && Recorded(way + [x], now)
  {
    NextBehind(src, pat, way[i].s, way[i].p, caps);
    if way[i].item.Repeat? {
      x := RepeatStop(src, pat, way, caps, i, r);
      now := caps;
    } else {
      x, now := PlainStop(src, pat, way, caps, i, r);
    }
  }

  lemma LastStop(src: string, pat: string, way: seq<Stop>, caps: seq<Capture>, i: nat, r: Outcome)
    requires r.Found? && i + 1 == |way| && Arrived(src, pat, way[i], caps, r)
    requires way[i].item.Finish? || way[i].item.Anchor?
    ensures r.caps == caps && Ends(src, pat, way[i], r.end)
  {
  }

  /** From here the match goes on to the end of the pattern. */
  lemma {:induction false} MatchGoes(src: string, pat: string, way: seq<Stop>, caps: seq<Capture>, i: nat, r: Outcome)
    returns (more: seq<Stop>)
    requires Way(src, pat, way) && Recorded(way, caps) && r.Found? && i + 1 == |way|
    requires Arrived(src, pat, way[i], caps, r)
    ensures way <= more && Way(src, pat, more) && Recorded(more, r.caps) && Ends(src, pat, more[|more| - 1], r.end)
    decreases |pat| - way[i].p
  {
    if way[i].item.Finish? || way[i].item.Anchor? {
      LastStop(src, pat, way, caps, i, r);
      more := way;
    } else {
      var x, now := NextStop(src, pat, way, caps, i, r);
      more := MatchGoes(src, pat, way + [x], now, i + 1, r);
    }
  }

  /** The pattern is at its end, and the match at `end`. */
  ghost predicate Ends(src: string, pat: string, last: Stop, end: nat) {
    && last.item == Parse(pat, last.p).item && last.s == end
    && (last.item.Finish? || (last.item.Anchor? && end == |src|))
  }

  /** The captures of a match: there is a way through pattern and subject from beginning to end, and each capture
      holds what its parentheses stand around on it, or the position. */
  lemma MatchSpans(src: string, pat: string, s: nat, p: nat, end: nat, caps: seq<Capture>) returns (way: seq<Stop>)
    requires s <= |src| && Match(src, pat, s, p, []) == Found(end, caps)
    ensures Way(src, pat, way) && way[0] == Stop(p, Parse(pat, p).item, s) && Captured(way, caps)
    ensures Ends(src, pat, way[|way| - 1], end)
  {
    way := MatchGoes(src, pat, [Stop(p, Parse(pat, p).item, s)], [], 0, Found(end, caps));
  }

  /** A closed capture lies within what the match has gone over. */
  lemma CapturesLieWithin(src: string, pat: string, s: nat, p: nat, end: nat, caps: seq<Capture>, l: nat)
    requires s <= |src| && Match(src, pat, s, p, []) == Found(end, caps) && l < |caps|
    ensures s <= caps[l].init <= end <= |src|
    ensures caps[l].len != UNFINISHED && caps[l].len != POSITION ==>
              0 <= caps[l].len && caps[l].init + caps[l].len <= end
  {
    var way := MatchSpans(src, pat, s, p, end, caps);
    var i, last := Openings(way, |way| - 1)[l], |way| - 1;
    assert Holds(way, i, caps[l]);
    WayRises(src, pat, way, 0, i);
    WayRises(src, pat, way, i, last);
    if caps[l].len != UNFINISHED && caps[l].len != POSITION {
      var j: nat :| j + 1 < |way| && Pair(way, i, j) && caps[l].len == way[j].s - caps[l].init;
      WayRises(src, pat, way, i, j);
      WayRises(src, pat, way, j, last);
    }
  }
}
