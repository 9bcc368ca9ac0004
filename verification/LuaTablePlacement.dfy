/** Why newkey keeps the chains of a Lua table in order and loses no entry. */
module LuaTablePlacement {
  import opened LuaTableNodes

  /** Nothing but keys and values changed. */
  lemma {:induction false} SameLinksReach(ns: seq<Node>, ns': seq<Node>, rank: seq<nat>, i: nat, j: nat)
    requires Links(ns, rank) && Links(ns', rank) && i < |ns| && |ns'| == |ns|
    requires forall k | 0 <= k < |ns| :: ns'[k].next == ns[k].next
    requires Reaches(ns, rank, i, j)
    ensures Reaches(ns', rank, i, j)
    decreases rank[i]
  {
    if i != j { SameLinksReach(ns, ns', rank, ns[i].next, j); }
  }

  lemma ReuseShape(ns: seq<Node>, rank: seq<nat>, mp: nat, key: TValue)
    requires Links(ns, rank) && InDegreeOne(ns) && DistinctKeys(ns) && FreeNodes(ns)
    requires mp < |ns| && key != Nil && !HasKey(ns, key) && ns[mp].val == Nil
    ensures var ns' := ns[mp := ns[mp].(key := key)];
      Links(ns', rank) && InDegreeOne(ns') && DistinctKeys(ns') && FreeNodes(ns')
  {
    var ns' := ns[mp := ns[mp].(key := key)];
    assert forall k | 0 <= k < |ns| :: ns'[k].next == ns[k].next && ns'[k].val == ns[k].val;
    assert forall k | 0 <= k < |ns| && k != mp :: ns'[k] == ns[k];
  }

  /** A dead entry at the main position is overwritten; its place in its chain stays. */
  lemma ReuseInv(h: Hash, ns: seq<Node>, rank: seq<nat>, mp: nat, key: TValue)
    requires Inv(h, ns, rank) && key != Nil && !HasKey(ns, key)
    requires mp == MainPosition(h, |ns|, key) && ns[mp].val == Nil
    ensures Inv(h, ns[mp := ns[mp].(key := key)], rank)
  {
    var ns' := ns[mp := ns[mp].(key := key)];
    ReuseShape(ns, rank, mp, key);
    forall i | 0 <= i < |ns| && ns'[i].key != Nil ensures Findable(h, ns', rank, i) {
      if i != mp {
        assert Findable(h, ns, rank, i);
        SameLinksReach(ns, ns', rank, MainPosition(h, |ns|, ns[i].key), i);
      }
    }
  }

  // ---------------------------------------------------------------- a key chained behind mp

  function BehindRank(rank: seq<nat>, mp: nat, n: nat): (rank': seq<nat>)
    requires mp < |rank| && n < |rank|
    ensures |rank'| == |rank| && rank'[n] == 2 * rank[mp]
    ensures forall i | 0 <= i < |rank| && i != n :: rank'[i] == 2 * rank[i] + 1
  {
    seq(|rank|, i requires 0 <= i < |rank| => if i == n then 2 * rank[mp] else 2 * rank[i] + 1)
  }

  lemma {:induction false} BehindReach(ns: seq<Node>, rank: seq<nat>, mp: nat, n: nat, key: TValue, i: nat, j: nat)
    requires Links(ns, rank) && mp < |ns| && n < |ns| && mp != n && i < |ns| && i != n
    requires Links(ChainBehind(ns, mp, n, key), BehindRank(rank, mp, n))
    requires forall k | 0 <= k < |ns| :: ns[k].next != n
    requires Reaches(ns, rank, i, j)
    ensures Reaches(ChainBehind(ns, mp, n, key), BehindRank(rank, mp, n), i, j)
    decreases rank[i]
  {
    if i != j {
      BehindReach(ns, rank, mp, n, key, ns[i].next, j);
      if i == mp { assert ChainBehind(ns, mp, n, key)[n].next == ns[mp].next; }
    }
  }

  lemma BehindLinks(h: Hash, ns: seq<Node>, rank: seq<nat>, mp: nat, n: nat, key: TValue)
    requires Inv(h, ns, rank) && mp < |ns| && n < |ns| && mp != n && ns[n].next == -1
    requires forall k | 0 <= k < |ns| :: ns[k].next != n
    ensures Links(ChainBehind(ns, mp, n, key), BehindRank(rank, mp, n))
  {
  }

  lemma BehindDegree(ns: seq<Node>, rank: seq<nat>, mp: nat, n: nat, key: TValue)
    requires Links(ns, rank) && InDegreeOne(ns) && mp < |ns| && n < |ns| && mp != n && ns[n].next == -1
    requires forall k | 0 <= k < |ns| :: ns[k].next != n
    ensures InDegreeOne(ChainBehind(ns, mp, n, key))
  {
    var ns' := ChainBehind(ns, mp, n, key);
    assert forall k | 0 <= k < |ns| && k != n && k != mp :: ns'[k].next == ns[k].next;
  }

  lemma BehindKeys(ns: seq<Node>, mp: nat, n: nat, key: TValue)
    requires DistinctKeys(ns) && FreeNodes(ns) && key != Nil && !HasKey(ns, key)
    requires mp < |ns| && n < |ns| && mp != n && ns[n].key == Nil && ns[mp].key != Nil
    ensures DistinctKeys(ChainBehind(ns, mp, n, key)) && FreeNodes(ChainBehind(ns, mp, n, key))
  {
    var ns' := ChainBehind(ns, mp, n, key);
    assert forall k | 0 <= k < |ns| && k != n && k != mp :: ns'[k] == ns[k];
    assert ns'[mp].key == ns[mp].key && ns'[n].key == key;
  }

  lemma BehindInv(h: Hash, ns: seq<Node>, rank: seq<nat>, mp: nat, n: nat, key: TValue)
    requires Inv(h, ns, rank) && key != Nil && !HasKey(ns, key) && mp == MainPosition(h, |ns|, key)
    requires n < |ns| && ns[n].key == Nil
    requires ns[mp].key != Nil && MainPosition(h, |ns|, ns[mp].key) == mp
    ensures Inv(h, ChainBehind(ns, mp, n, key), BehindRank(rank, mp, n))
  {
    var ns', rank' := ChainBehind(ns, mp, n, key), BehindRank(rank, mp, n);
    assert forall k | 0 <= k < |ns| :: ns[k].next != n;
    BehindLinks(h, ns, rank, mp, n, key);
    BehindDegree(ns, rank, mp, n, key);
    BehindKeys(ns, mp, n, key);
    forall i | 0 <= i < |ns| && ns'[i].key != Nil ensures Findable(h, ns', rank', i) {
      if i == n {
        assert Reaches(ns', rank', n, n) && ns'[mp].next == n;
      } else {
        assert Findable(h, ns, rank, i);
        BehindReach(ns, rank, mp, n, key, MainPosition(h, |ns|, ns[i].key), i);
      }
    }
  }

  // ---------------------------------------------------------------- the colliding node moved away

  lemma {:induction false} AwayReach(ns: seq<Node>, rank: seq<nat>, prev: nat, mp: nat, n: nat, key: TValue, i: nat,
                                     j: nat)
    requires Links(ns, rank) && InDegreeOne(ns) && mp < |ns| && n < |ns| && prev < |ns| && ns[prev].next == mp
    requires Links(MoveAway(ns, prev, mp, n, key), rank[n := rank[mp]])
    requires forall k | 0 <= k < |ns| :: ns[k].next != n
    requires i < |ns| && i != n && i != mp && mp != n && prev != n && prev != mp && j != n
    requires Reaches(ns, rank, i, j)
    ensures Reaches(MoveAway(ns, prev, mp, n, key), rank[n := rank[mp]], i, if j == mp then n else j)
    decreases rank[i]
  {
    var ns', rank' := MoveAway(ns, prev, mp, n, key), rank[n := rank[mp]];
    if i != j {
      var next := ns[i].next;
      if next == mp {
        assert i == prev && ns'[i].next == n;
        if j != mp {
          var after := ns[mp].next;
          assert ns'[n].next == after && after != mp;
          AwayReach(ns, rank, prev, mp, n, key, after, j);
          assert Reaches(ns', rank', n, j);
        }
      } else {
        AwayReach(ns, rank, prev, mp, n, key, next, j);
        assert ns'[i].next == next;
      }
    }
  }

  lemma AwayLinks(ns: seq<Node>, rank: seq<nat>, prev: nat, mp: nat, n: nat, key: TValue)
    requires Links(ns, rank) && InDegreeOne(ns) && mp < |ns| && n < |ns| && prev < |ns| && ns[prev].next == mp
    requires prev != mp && n != mp && n != prev && forall k | 0 <= k < |ns| :: ns[k].next != n
    ensures Links(MoveAway(ns, prev, mp, n, key), rank[n := rank[mp]])
  {
    var ns' := MoveAway(ns, prev, mp, n, key);
    assert forall k | 0 <= k < |ns| && k != prev :: ns[k].next != mp;
  }

  lemma AwayDegree(ns: seq<Node>, rank: seq<nat>, prev: nat, mp: nat, n: nat, key: TValue)
    requires Links(ns, rank) && InDegreeOne(ns) && mp < |ns| && n < |ns| && prev < |ns| && ns[prev].next == mp
    requires prev != mp && n != mp && n != prev && ns[n].next == -1 && forall k | 0 <= k < |ns| :: ns[k].next != n
    ensures InDegreeOne(MoveAway(ns, prev, mp, n, key))
  {
    var ns' := MoveAway(ns, prev, mp, n, key);
    assert forall k | 0 <= k < |ns| && k != n && k != mp && k != prev :: ns'[k].next == ns[k].next;
    assert forall k | 0 <= k < |ns| && k != prev :: ns[k].next != mp;
  }

  lemma AwayKeys(ns: seq<Node>, prev: nat, mp: nat, n: nat, key: TValue)
    requires DistinctKeys(ns) && key != Nil && !HasKey(ns, key)
    requires mp < |ns| && n < |ns| && prev < |ns| && prev != mp && prev != n && mp != n && ns[n].key == Nil
    ensures DistinctKeys(MoveAway(ns, prev, mp, n, key))
  {
    var ns' := MoveAway(ns, prev, mp, n, key);
    assert ns'[mp].key == key && ns'[n].key == ns[mp].key;
    assert forall k | 0 <= k < |ns| && k != n && k != mp :: ns'[k].key == ns[k].key;
  }

  lemma AwayFree(ns: seq<Node>, prev: nat, mp: nat, n: nat, key: TValue)
    requires FreeNodes(ns) && key != Nil && mp < |ns| && n < |ns| && prev < |ns| && prev != mp
    requires ns[prev].next == mp && ns[n].key == Nil && ns[mp].key != Nil && ns[prev].key != Nil
    ensures FreeNodes(MoveAway(ns, prev, mp, n, key))
  {
    var ns' := MoveAway(ns, prev, mp, n, key);
    assert forall k | 0 <= k < |ns| && k != n && k != mp && k != prev :: ns'[k] == ns[k];
    assert forall k | 0 <= k < |ns| && ns[k].key != Nil :: ns'[k].key != Nil;
  }

  /** The key at `k` is still found, at `n` if it was the one that moved. */
  lemma AwayFindable(h: Hash, ns: seq<Node>, rank: seq<nat>, prev: nat, mp: nat, n: nat, key: TValue, k: nat)
    requires Inv(h, ns, rank) && mp == MainPosition(h, |ns|, key)
    requires n < |ns| && ns[n].key == Nil && prev < |ns| && ns[prev].next == mp && prev != mp
    requires ns[mp].key != Nil && MainPosition(h, |ns|, ns[mp].key) != mp
    requires Links(MoveAway(ns, prev, mp, n, key), rank[n := rank[mp]])
    requires k < |ns| && ns[k].key != Nil
    ensures Findable(h, MoveAway(ns, prev, mp, n, key), rank[n := rank[mp]], if k == mp then n else k)
  {
    var ns', rank' := MoveAway(ns, prev, mp, n, key), rank[n := rank[mp]];
    var main, i := MainPosition(h, |ns|, ns[k].key), if k == mp then n else k;
    assert Findable(h, ns, rank, k);
    assert main != mp;  // a key whose main position is mp would need mp to hold its own key
    assert main != n;
    assert ns'[i].key == ns[k].key;
    assert prev != n && forall j | 0 <= j < |ns| :: ns[j].next != n;
    AwayReach(ns, rank, prev, mp, n, key, main, k);
    if main != i { assert ns'[main].key == ns[main].key; }
  }

  lemma AwayInv(h: Hash, ns: seq<Node>, rank: seq<nat>, prev: nat, mp: nat, n: nat, key: TValue)
    requires Inv(h, ns, rank) && key != Nil && !HasKey(ns, key) && mp == MainPosition(h, |ns|, key)
    requires n < |ns| && ns[n].key == Nil && prev < |ns| && ns[prev].next == mp
    requires ns[mp].key != Nil && MainPosition(h, |ns|, ns[mp].key) != mp
    ensures Inv(h, MoveAway(ns, prev, mp, n, key), rank[n := rank[mp]])
  {
    var ns', rank' := MoveAway(ns, prev, mp, n, key), rank[n := rank[mp]];
    assert prev != mp && prev != n && forall k | 0 <= k < |ns| :: ns[k].next != n;
    AwayLinks(ns, rank, prev, mp, n, key);
    AwayDegree(ns, rank, prev, mp, n, key);
    AwayKeys(ns, prev, mp, n, key);
    AwayFree(ns, prev, mp, n, key);
    forall i | 0 <= i < |ns| && ns'[i].key != Nil ensures Findable(h, ns', rank', i) {
      if i != mp { AwayFindable(h, ns, rank, prev, mp, n, key, if i == n then mp else i); }
    }
  }

  // ---------------------------------------------------------------- newkey as a whole

  /** Every node at or above `lastfree` is taken. */
  ghost predicate TakenAbove(ns: seq<Node>, lastfree: int) {
    forall i | 0 <= i < |ns| && i >= lastfree :: ns[i].key != Nil
  }

  ghost function PlaceRank(h: Hash, ns: seq<Node>, rank: seq<nat>, lastfree: int, dummy: bool, key: TValue): seq<nat>
    requires Inv(h, ns, rank) && lastfree <= |ns| && (dummy ==> lastfree <= 0)
  {
    var mp := MainPosition(h, |ns|, key);
    var n := FreePos(ns, lastfree).1;
    if (ns[mp].val == Nil && !dummy) || n < 0 then rank
    else if MainPosition(h, |ns|, ns[mp].key) != mp then rank[n := rank[mp]]
    else BehindRank(rank, mp, n)
  }

  /** newkey keeps the table in order: the new key is in its slot with a nil value, every other
      key keeps its value, and no key is added but the new one. */
  lemma PlaceInv(h: Hash, ns: seq<Node>, rank: seq<nat>, lastfree: int, dummy: bool, key: TValue)
    requires Inv(h, ns, rank) && lastfree <= |ns| && (dummy ==> lastfree <= 0)
    requires key != Nil && !HasKey(ns, key) && TakenAbove(ns, lastfree)
    requires Place(h, ns, rank, lastfree, dummy, key).Placed?
    ensures var p := Place(h, ns, rank, lastfree, dummy, key);
      && |p.ns| == |ns| && p.lastfree <= lastfree
      && Inv(h, p.ns, PlaceRank(h, ns, rank, lastfree, dummy, key))
      && TakenAbove(p.ns, p.lastfree)
      && p.slot < |p.ns| && p.ns[p.slot].key == key && p.ns[p.slot].val == Nil
  {
    var mp := MainPosition(h, |ns|, key);
    if ns[mp].val == Nil && !dummy {
      ReuseInv(h, ns, rank, mp, key);
    } else {
      var n := FreePos(ns, lastfree).1;
      var othern := MainPosition(h, |ns|, ns[mp].key);
      if othern != mp {
        assert ns[mp].key != Nil && Findable(h, ns, rank, mp);
        AwayInv(h, ns, rank, FindPrev(ns, rank, othern, mp), mp, n, key);
      } else {
        BehindInv(h, ns, rank, mp, n, key);
      }
    }
  }

  ghost predicate HasEntry(ns: seq<Node>, key: TValue, val: TValue) {
    exists i :: 0 <= i < |ns| && ns[i].key == key && ns[i].val == val
  }

  /** The entries with a value are the same, and the only new key is `key`, with a nil value. */
  ghost predicate SameEntries(ns: seq<Node>, ns': seq<Node>, key: TValue) {
    && (forall i | 0 <= i < |ns| && ns[i].val != Nil :: HasEntry(ns', ns[i].key, ns[i].val))
    && (forall j | 0 <= j < |ns'| && ns'[j].key != Nil ::
          if ns'[j].key == key then ns'[j].val == Nil else HasEntry(ns, ns'[j].key, ns'[j].val))
  }

  lemma ReuseEntries(ns: seq<Node>, mp: nat, key: TValue)
    requires mp < |ns| && ns[mp].val == Nil && !HasKey(ns, key)
    ensures SameEntries(ns, ns[mp := ns[mp].(key := key)], key)
  {
    var ns' := ns[mp := ns[mp].(key := key)];
    forall i | 0 <= i < |ns| && ns[i].val != Nil ensures HasEntry(ns', ns[i].key, ns[i].val) {
      assert ns'[i] == ns[i];
    }
  }

  lemma AwayEntries(ns: seq<Node>, prev: nat, mp: nat, n: nat, key: TValue)
    requires prev < |ns| && mp < |ns| && n < |ns| && prev != mp && prev != n && mp != n
    requires ns[n].val == Nil && !HasKey(ns, key)
    ensures SameEntries(ns, MoveAway(ns, prev, mp, n, key), key)
  {
    var ns' := MoveAway(ns, prev, mp, n, key);
    forall i | 0 <= i < |ns| && ns[i].val != Nil ensures HasEntry(ns', ns[i].key, ns[i].val) {
      var j := if i == mp then n else i;
      assert ns'[j].key == ns[i].key && ns'[j].val == ns[i].val;
    }
    forall j | 0 <= j < |ns| && j != mp ensures HasEntry(ns, ns'[j].key, ns'[j].val) {
      var i := if j == n then mp else j;
      assert ns[i].key == ns'[j].key && ns[i].val == ns'[j].val;
    }
  }

  lemma BehindEntries(ns: seq<Node>, mp: nat, n: nat, key: TValue)
    requires mp < |ns| && n < |ns| && mp != n && ns[n].val == Nil && !HasKey(ns, key)
    ensures SameEntries(ns, ChainBehind(ns, mp, n, key), key)
  {
    var ns' := ChainBehind(ns, mp, n, key);
    assert forall i | 0 <= i < |ns| && i != n :: ns'[i].key == ns[i].key && ns'[i].val == ns[i].val;
    forall i | 0 <= i < |ns| && ns[i].val != Nil ensures HasEntry(ns', ns[i].key, ns[i].val) {
    }
    forall j | 0 <= j < |ns| && j != n ensures HasEntry(ns, ns'[j].key, ns'[j].val) {
    }
  }

  lemma PlaceEntries(h: Hash, ns: seq<Node>, rank: seq<nat>, lastfree: int, dummy: bool, key: TValue)
    requires Inv(h, ns, rank) && lastfree <= |ns| && (dummy ==> lastfree <= 0)
    requires key != Nil && !HasKey(ns, key) && Place(h, ns, rank, lastfree, dummy, key).Placed?
    ensures SameEntries(ns, Place(h, ns, rank, lastfree, dummy, key).ns, key)
  {
    var mp, n := MainPosition(h, |ns|, key), FreePos(ns, lastfree).1;
    if ns[mp].val == Nil && !dummy {
      ReuseEntries(ns, mp, key);
    } else {
      var othern := MainPosition(h, |ns|, ns[mp].key);
      if othern != mp {
        assert ns[mp].key != Nil && Findable(h, ns, rank, mp);
        AwayEntries(ns, FindPrev(ns, rank, othern, mp), mp, n, key);
      } else {
        BehindEntries(ns, mp, n, key);
      }
    }
  }

  lemma EntryValue(ns: seq<Node>, k: TValue, v: TValue)
    requires DistinctKeys(ns) && k != Nil && HasEntry(ns, k, v)
    ensures ValueAt(ns, k) == v && HasKey(ns, k)
  {
    var i :| 0 <= i < |ns| && ns[i].key == k && ns[i].val == v;
    ValueAtNode(ns, i);
  }

  /** Contents: apart from the new key, lookups see what they saw before. */
  lemma PlaceContents(h: Hash, ns: seq<Node>, rank: seq<nat>, lastfree: int, dummy: bool, key: TValue, k: TValue)
    requires Inv(h, ns, rank) && lastfree <= |ns| && (dummy ==> lastfree <= 0)
    requires key != Nil && !HasKey(ns, key) && TakenAbove(ns, lastfree)
    requires Place(h, ns, rank, lastfree, dummy, key).Placed?
    ensures var p := Place(h, ns, rank, lastfree, dummy, key);
      && ValueAt(p.ns, k) == ValueAt(ns, k)
      && (k != Nil && HasKey(p.ns, k) ==> k == key || HasKey(ns, k))
  {
    PlaceInv(h, ns, rank, lastfree, dummy, key);
    PlaceEntries(h, ns, rank, lastfree, dummy, key);
    var ns' := Place(h, ns, rank, lastfree, dummy, key).ns;
    if k != Nil {
      if j :| 0 <= j < |ns'| && ns'[j].key == k {
        ValueAtNode(ns', j);
        if k != key { EntryValue(ns, k, ns'[j].val); }
      } else if i :| 0 <= i < |ns| && ns[i].key == k {
        ValueAtNode(ns, i);
        if ns[i].val != Nil { EntryValue(ns', k, ns[i].val); }
      }
    }
  }

  // ---------------------------------------------------------------- storing through a slot

  lemma StoreShape(ns: seq<Node>, rank: seq<nat>, i: nat, v: TValue)
    requires Links(ns, rank) && InDegreeOne(ns) && DistinctKeys(ns) && FreeNodes(ns) && i < |ns| && ns[i].key != Nil
    ensures var ns' := ns[i := ns[i].(val := v)];
      Links(ns', rank) && InDegreeOne(ns') && DistinctKeys(ns') && FreeNodes(ns')
  {
    var ns' := ns[i := ns[i].(val := v)];
    assert forall k | 0 <= k < |ns| :: ns'[k].key == ns[k].key && ns'[k].next == ns[k].next;
    assert forall k | 0 <= k < |ns| && k != i :: ns'[k] == ns[k];
  }

  /** Storing into the value cell of a node that holds a key. */
  lemma StoreInv(h: Hash, ns: seq<Node>, rank: seq<nat>, i: nat, v: TValue)
    requires Inv(h, ns, rank) && i < |ns| && ns[i].key != Nil
    ensures Inv(h, ns[i := ns[i].(val := v)], rank)
    ensures ValueAt(ns[i := ns[i].(val := v)], ns[i].key) == v
  {
    var ns' := ns[i := ns[i].(val := v)];
    StoreShape(ns, rank, i, v);
    forall k | 0 <= k < |ns| && ns'[k].key != Nil ensures Findable(h, ns', rank, k) {
      assert Findable(h, ns, rank, k);
      SameLinksReach(ns, ns', rank, MainPosition(h, |ns|, ns[k].key), k);
    }
    ValueAtNode(ns', i);
  }

  lemma StoreOthers(ns: seq<Node>, i: nat, v: TValue, k: TValue)
    requires DistinctKeys(ns) && i < |ns| && k != ns[i].key
    ensures ValueAt(ns[i := ns[i].(val := v)], k) == ValueAt(ns, k)
    ensures HasKey(ns[i := ns[i].(val := v)], k) <==> HasKey(ns, k)
  {
    var ns' := ns[i := ns[i].(val := v)];
    assert forall j | 0 <= j < |ns| :: ns'[j].key == ns[j].key;
    if j :| 0 <= j < |ns| && ns[j].key == k {
      assert ns'[j].key == k;
      if k != Nil {
        ValueAtNode(ns, j);
        ValueAtNode(ns', j);
      }
    }
  }

  /** An array of free nodes is in order. */
  lemma EmptyInv(h: Hash, ns: seq<Node>, rank: seq<nat>)
    requires |ns| > 0 && |rank| == |ns| && forall i | 0 <= i < |ns| :: ns[i] == Node(Nil, Nil, -1)
    ensures Inv(h, ns, rank) && TakenAbove(ns, |ns|)
  {
  }

  // ---------------------------------------------------------------- room

  function KeySet(ns: seq<Node>): set<TValue> {
    set i | 0 <= i < |ns| && ns[i].key != Nil :: ns[i].key
  }

  ghost predicate HasFree(ns: seq<Node>) {
    exists i :: 0 <= i < |ns| && ns[i].key == Nil
  }

  lemma {:induction false} FullKeySet(ns: seq<Node>)
    requires DistinctKeys(ns) && !HasFree(ns)
    ensures |KeySet(ns)| == |ns|
  {
    if ns != [] {
      var last, rest := ns[|ns| - 1], ns[..|ns| - 1];
      assert forall i | 0 <= i < |rest| :: rest[i] == ns[i];
      assert ns[|ns| - 1].key != Nil;
      assert forall i | 0 <= i < |rest| :: rest[i].key != last.key;
      assert !HasFree(rest);
      FullKeySet(rest);
      assert KeySet(ns) == KeySet(rest) + {last.key};
    }
  }

  /** Fewer keys than nodes leave a free node, and getfreepos finds it. */
  lemma FreePosFound(ns: seq<Node>, lastfree: int)
    requires lastfree <= |ns| && TakenAbove(ns, lastfree) && HasFree(ns)
    ensures FreePos(ns, lastfree).1 >= 0
  {
    var i :| 0 <= i < |ns| && ns[i].key == Nil;
    assert i < lastfree;
  }

  /** newkey asks for a rehash exactly if the main position is taken and no node is free. */
  lemma NoRoomIff(h: Hash, ns: seq<Node>, rank: seq<nat>, lastfree: int, dummy: bool, key: TValue, mp: nat)
    requires Inv(h, ns, rank) && lastfree <= |ns| && (dummy ==> lastfree <= 0) && mp == MainPosition(h, |ns|, key)
    requires TakenAbove(ns, lastfree)
    ensures Place(h, ns, rank, lastfree, dummy, key).NoRoom? <==>
      (ns[mp].val != Nil || dummy) && forall i | 0 <= i < |ns| :: ns[i].key != Nil
  {
    if ns[mp].val != Nil || dummy {
      var n := FreePos(ns, lastfree).1;
      if n >= 0 { assert ns[n].key == Nil; }
    }
  }
}
