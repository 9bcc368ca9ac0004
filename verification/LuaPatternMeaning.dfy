/** The matcher of lua/lstrlib.c decides the meaning of patterns: it tries the ways through a pattern in
    their order and stops at the first that does not fail. */
module LuaPatternMeaning {
  import opened Options
  import opened LuaPattern

  ghost predicate AllFail(src: string, pat: string, s: nat, p: nat, caps: seq<Capture>)
    requires s <= |src|
  {
    forall script :: Replay(src, pat, s, p, caps, script).Fail?
  }

  /** `script` has this outcome, and every way that is tried before it fails. */
  ghost predicate FirstWay(src: string, pat: string, s: nat, p: nat, caps: seq<Capture>, script: seq<nat>, r: Outcome)
    requires s <= |src|
  {
    && Replay(src, pat, s, p, caps, script) == r
    && (forall t :: Earlier(pat, p, t, script) ==> Replay(src, pat, s, p, caps, t).Fail?)
  }

  ghost predicate Decides(src: string, pat: string, s: nat, p: nat, caps: seq<Capture>, r: Outcome)
    requires s <= |src|
  {
    if r.Fail? then AllFail(src, pat, s, p, caps)
    else exists script :: FirstWay(src, pat, s, p, caps, script, r)
  }

  /** An item without choice: the ways on from it are the ways through it. */
  lemma Passes(src: string, pat: string, s: nat, p: nat, caps: seq<Capture>, s2: nat, caps2: seq<Capture>, r: Outcome)
    requires s <= |src| && s2 <= |src| && Decides(src, pat, s2, Parse(pat, p).next, caps2, r)
    requires !Parse(pat, p).item.Repeat? && !Parse(pat, p).item.Malformed? && !Parse(pat, p).item.Finish?
    requires !Parse(pat, p).item.Anchor?
    requires forall script ::
             Replay(src, pat, s, p, caps, script) == Replay(src, pat, s2, Parse(pat, p).next, caps2, script)
    ensures Decides(src, pat, s, p, caps, r)
  {
    if !r.Fail? {
      var script :| FirstWay(src, pat, s2, Parse(pat, p).next, caps2, script, r);
      assert FirstWay(src, pat, s, p, caps, script, r);
    }
  }

  /** An item at which every way ends alike. */
  lemma Stops(src: string, pat: string, s: nat, p: nat, caps: seq<Capture>, r: Outcome)
    requires s <= |src| && (forall script :: Replay(src, pat, s, p, caps, script) == r)
    ensures Decides(src, pat, s, p, caps, r)
  {
    if !r.Fail? {
      forall t ensures !Earlier(pat, p, t, []) { NoneBeforeEmpty(pat, p, t); }
      assert FirstWay(src, pat, s, p, caps, [], r);
    }
  }

  lemma {:induction false} NoneBeforeEmpty(pat: string, p: nat, t: seq<nat>)
    ensures !Earlier(pat, p, t, [])
    decreases |pat| - p
  {
    var Parsed(item, next) := Parse(pat, p);
    if !item.Malformed? && !item.Finish? && !item.Anchor? && !item.Repeat? { NoneBeforeEmpty(pat, next, t); }
  }

  // ---------------------------------------------------------------- repeated items

  /** These counts are possible at the repeated item at `p`. */
  ghost predicate Possible(src: string, s: nat, pat: string, p: nat, rep: Rep, n: nat) {
    Parse(pat, p).item == Repeat(rep) && Allowed(rep, n) && Taken(src, s, pat, p, Parse(pat, p).next - 1, n)
  }

  predicate Prefers(rep: Rep, m: nat, n: nat) {
    if rep == Lazy then m < n else m > n
  }

  /** Everything fails after this many repetitions. */
  ghost predicate Hopeless(src: string, pat: string, s: nat, next: nat, caps: seq<Capture>, n: nat) {
    s + n <= |src| ==> AllFail(src, pat, s + n, next, caps)
  }

  lemma RepeatWay(src: string, pat: string, s: nat, p: nat, caps: seq<Capture>, rep: Rep, n: nat, r: Outcome)
    requires s <= |src| && Parse(pat, p).item == Repeat(rep) && Possible(src, s, pat, p, rep, n) && !r.Fail?
    requires Decides(src, pat, s + n, Parse(pat, p).next, caps, r)
    requires forall m: nat | Prefers(rep, m, n) && Possible(src, s, pat, p, rep, m) ::
      Hopeless(src, pat, s, Parse(pat, p).next, caps, m)
    ensures Decides(src, pat, s, p, caps, r)
  {
    var next := Parse(pat, p).next;
    var t :| FirstWay(src, pat, s + n, next, caps, t, r);
    var script := [n] + t;
    assert script[1..] == t;
    forall u | Earlier(pat, p, u, script) ensures Replay(src, pat, s, p, caps, u).Fail? {
      if Possible(src, s, pat, p, rep, u[0]) {
        if u[0] == n {
          assert Earlier(pat, next, u[1..], t);
        } else {
          assert Prefers(rep, u[0], n) && Hopeless(src, pat, s, next, caps, u[0]);
          assert AllFail(src, pat, s + u[0], next, caps);
        }
      }
    }
    assert FirstWay(src, pat, s, p, caps, script, r);
  }

  lemma RepeatFails(src: string, pat: string, s: nat, p: nat, caps: seq<Capture>, rep: Rep)
    requires s <= |src| && Parse(pat, p).item == Repeat(rep)
    requires forall m: nat | Possible(src, s, pat, p, rep, m) :: Hopeless(src, pat, s, Parse(pat, p).next, caps, m)
    ensures AllFail(src, pat, s, p, caps)
  {
    forall u ensures Replay(src, pat, s, p, caps, u).Fail? {
      if u != [] && Possible(src, s, pat, p, rep, u[0]) {
        assert Hopeless(src, pat, s, Parse(pat, p).next, caps, u[0]);
        assert AllFail(src, pat, s + u[0], Parse(pat, p).next, caps);
      }
    }
  }

  // ---------------------------------------------------------------- the theorem

  /** The tries from `i` repetitions downwards. */
  lemma {:induction false} MaxTryDecides(src: string, pat: string, s: nat, i: nat, next: nat, caps: seq<Capture>)
    returns (n: nat)
    requires s + i <= |src|
    ensures var r := MaxTry(src, pat, s, i, next, caps);
      && (r.Fail? ==> forall m: nat | m <= i :: Hopeless(src, pat, s, next, caps, m))
      && (!r.Fail? ==> n <= i && Decides(src, pat, s + n, next, caps, r))
      && (!r.Fail? ==> forall m: nat | n < m <= i :: Hopeless(src, pat, s, next, caps, m))
    decreases |pat| - next, 3, i
  {
    MatchDecides(src, pat, s + i, next, caps);
    n := i;
    if Match(src, pat, s + i, next, caps).Fail? {
      assert Hopeless(src, pat, s, next, caps, i);
      if i > 0 { n := MaxTryDecides(src, pat, s, i - 1, next, caps); }
    }
  }

  /** The tries from `k` repetitions upwards. */
  lemma {:induction false} MinTryDecides(src: string, pat: string, s: nat, k: nat, p: nat, next: nat,
                                         caps: seq<Capture>) returns (n: nat)
    requires s + k <= |src| && next > 0 && Taken(src, s, pat, p, next - 1, k)
    ensures var r := MinTry(src, pat, s + k, p, next, caps);
      && (r.Fail? ==> forall m: nat | k <= m && Taken(src, s, pat, p, next - 1, m) ::
            Hopeless(src, pat, s, next, caps, m))
      && (!r.Fail? ==> k <= n && Taken(src, s, pat, p, next - 1, n) && Decides(src, pat, s + n, next, caps, r))
      && (!r.Fail? ==> forall m: nat | k <= m < n :: Hopeless(src, pat, s, next, caps, m))
    decreases |pat| - next, 3, |src| - s - k
  {
    MatchDecides(src, pat, s + k, next, caps);
    n := k;
    if Match(src, pat, s + k, next, caps).Fail? {
      assert Hopeless(src, pat, s, next, caps, k);
      if Single(src, s + k, pat, p, next - 1) {
        assert Taken(src, s, pat, p, next - 1, k + 1);
        n := MinTryDecides(src, pat, s, k + 1, p, next, caps);
      } else {
        NoMore(src, s, pat, p, next - 1, k);
      }
    }
  }

  lemma NoMore(src: string, s: nat, pat: string, p: nat, ep: nat, k: nat)
    requires !Single(src, s + k, pat, p, ep)
    ensures forall m: nat | Taken(src, s, pat, p, ep, m) :: m <= k
  {
  }

  lemma TakenBound(src: string, s: nat, pat: string, p: nat, ep: nat, m: nat)
    requires s <= |src| && Taken(src, s, pat, p, ep, m)
    ensures m <= MaxCount(src, s, pat, p, ep)
  {
    NoMore(src, s, pat, p, ep, MaxCount(src, s, pat, p, ep));
  }

  lemma {:induction false} RepeatDecides(src: string, pat: string, s: nat, p: nat, caps: seq<Capture>, rep: Rep)
    requires s <= |src| && Parse(pat, p).item == Repeat(rep)
    ensures Decides(src, pat, s, p, caps, Match(src, pat, s, p, caps))
    decreases |pat| - p, 1
  {
    match rep
    case Optional => OptionalDecides(src, pat, s, p, caps);
    case Many => ManyDecides(src, pat, s, p, caps);
    case Some_ => PlusDecides(src, pat, s, p, caps);
    case Lazy => LazyDecides(src, pat, s, p, caps);
  }

  lemma {:induction false} OptionalDecides(src: string, pat: string, s: nat, p: nat, caps: seq<Capture>)
    requires s <= |src| && Parse(pat, p).item == Repeat(Optional)
    ensures Decides(src, pat, s, p, caps, Match(src, pat, s, p, caps))
    decreases |pat| - p, 0
  {
    var next := Parse(pat, p).next;
    var ep := next - 1;
    var r := Match(src, pat, s, p, caps);
    MatchDecides(src, pat, s, next, caps);
    if Single(src, s, pat, p, ep) {
      MatchDecides(src, pat, s + 1, next, caps);
      assert Taken(src, s, pat, p, ep, 1);
      if !Match(src, pat, s + 1, next, caps).Fail? {
        RepeatWay(src, pat, s, p, caps, Optional, 1, r);
        return;
      }
      assert Hopeless(src, pat, s, next, caps, 1);
    } else {
      forall m: nat | Taken(src, s, pat, p, ep, m) ensures m == 0 { TakenBound(src, s, pat, p, ep, m); }
    }
    if !r.Fail? {
      RepeatWay(src, pat, s, p, caps, Optional, 0, r);
    } else {
      assert Hopeless(src, pat, s, next, caps, 0);
      RepeatFails(src, pat, s, p, caps, Optional);
    }
  }

  lemma {:induction false} ManyDecides(src: string, pat: string, s: nat, p: nat, caps: seq<Capture>)
    requires s <= |src| && Parse(pat, p).item == Repeat(Many)
    ensures Decides(src, pat, s, p, caps, Match(src, pat, s, p, caps))
    decreases |pat| - p, 0
  {
    var next := Parse(pat, p).next;
    var max := MaxCount(src, s, pat, p, next - 1);
    var r := Match(src, pat, s, p, caps);
    var n := MaxTryDecides(src, pat, s, max, next, caps);
    forall m: nat | Possible(src, s, pat, p, Many, m) ensures m <= max { TakenBound(src, s, pat, p, next - 1, m); }
    if r.Fail? {
      RepeatFails(src, pat, s, p, caps, Many);
    } else {
      RepeatWay(src, pat, s, p, caps, Many, n, r);
    }
  }

  lemma {:induction false} PlusDecides(src: string, pat: string, s: nat, p: nat, caps: seq<Capture>)
    requires s <= |src| && Parse(pat, p).item == Repeat(Some_)
    ensures Decides(src, pat, s, p, caps, Match(src, pat, s, p, caps))
    decreases |pat| - p, 0
  {
    var next := Parse(pat, p).next;
    var ep := next - 1;
    var r := Match(src, pat, s, p, caps);
    forall m: nat | Possible(src, s, pat, p, Some_, m)
      ensures Single(src, s, pat, p, ep) && 1 <= m <= 1 + MaxCount(src, s + 1, pat, p, ep)
    {
      TakenBound(src, s, pat, p, ep, m);
    }
    if Single(src, s, pat, p, ep) {
      var max := MaxCount(src, s + 1, pat, p, ep);
      var n := MaxTryDecides(src, pat, s + 1, max, next, caps);
      forall m: nat | 1 <= m
          && Hopeless(src, pat, s + 1, next, caps, m - 1) ensures Hopeless(src, pat, s, next, caps, m) {
        assert s + 1 + (m - 1) == s + m;
      }
      if r.Fail? {
        RepeatFails(src, pat, s, p, caps, Some_);
      } else {
        assert s + (n + 1) == s + 1 + n;
        assert Taken(src, s, pat, p, ep, n + 1);
        RepeatWay(src, pat, s, p, caps, Some_, n + 1, r);
      }
    } else {
      RepeatFails(src, pat, s, p, caps, Some_);
    }
  }

  lemma {:induction false} LazyDecides(src: string, pat: string, s: nat, p: nat, caps: seq<Capture>)
    requires s <= |src| && Parse(pat, p).item == Repeat(Lazy)
    ensures Decides(src, pat, s, p, caps, Match(src, pat, s, p, caps))
    decreases |pat| - p, 0
  {
    var next := Parse(pat, p).next;
    var r := Match(src, pat, s, p, caps);
    var n := MinTryDecides(src, pat, s, 0, p, next, caps);
    if r.Fail? {
      RepeatFails(src, pat, s, p, caps, Lazy);
    } else {
      RepeatWay(src, pat, s, p, caps, Lazy, n, r);
    }
  }

  /** match answers NULL only if every choice of repetitions fails, and otherwise gives the outcome, captures
      and errors included, of the first choice in greedy and lazy order that does not fail. */
  lemma {:induction false} MatchDecides(src: string, pat: string, s: nat, p: nat, caps: seq<Capture>)
    requires s <= |src|
    ensures Decides(src, pat, s, p, caps, Match(src, pat, s, p, caps))
    decreases |pat| - p, 2
  {
    var Parsed(item, next) := Parse(pat, p);
    var r := Match(src, pat, s, p, caps);
    match item
    case Repeat(rep) => RepeatDecides(src, pat, s, p, caps, rep);
    case Malformed(_) => Stops(src, pat, s, p, caps, r);
    case Finish => Stops(src, pat, s, p, caps, r);
    case Anchor => Stops(src, pat, s, p, caps, r);
    case _ => StepDecides(src, pat, s, p, caps);
  }

  /** Where an item without choice leads, None if the way ends there. */
  ghost function Onward(src: string, pat: string, s: nat, p: nat, caps: seq<Capture>): Option<(nat, seq<Capture>)>
    requires s <= |src|
  {
    var Parsed(item, next) := Parse(pat, p);
    match item
    case Open(what) => if |caps| >= MAXCAPTURES then None else Some((s, caps + [Capture(s, what)]))
    case Close => if ToClose(caps).None? then None else Some((s, CloseCapture(caps, ToClose(caps).value, s)))
    case Balance(open, close) =>
      var e := MatchBalance(src, s, open, close);
      if e.None? then None else Some((e.value, caps))
    case Frontier(set_) => if AtFrontier(src, s, pat, set_, next) then Some((s, caps)) else None
    case Reference(digit) =>
      var l := CheckCapture(caps, digit);
      if l.Err? then None
      else
        var e := MatchCapture(src, s, caps[l.value]);
        if e.None? then None else Some((e.value, caps))
    case One => if Single(src, s, pat, p, next) then Some((s + 1, caps)) else None
    case _ => None
  }

  lemma {:induction false} StepDecides(src: string, pat: string, s: nat, p: nat, caps: seq<Capture>)
    requires s <= |src|
    requires var item := Parse(pat, p).item; !item.Repeat? && !item.Malformed? && !item.Finish? && !item.Anchor?
    ensures Decides(src, pat, s, p, caps, Match(src, pat, s, p, caps))
    decreases |pat| - p, 0
  {
    var next := Parse(pat, p).next;
    var r := Match(src, pat, s, p, caps);
    var on := Onward(src, pat, s, p, caps);
    if on.Some? {
      MatchDecides(src, pat, on.value.0, next, on.value.1);
      Passes(src, pat, s, p, caps, on.value.0, on.value.1, r);
    } else {
      Stops(src, pat, s, p, caps, r);
    }
  }
}
