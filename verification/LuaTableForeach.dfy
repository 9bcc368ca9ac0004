/** A traversal of a Lua table whose body clears entries, as table.foreach allows (lua/ltablib.c). */
module LuaTableForeach {
  import opened LuaTableNodes
  import opened LuaTableContents
  import opened LuaTableTraversal
  import opened LuaTable

  /** A table in order is one moment of a traversal. */
  lemma TableMoment(t: Table)
    requires t.Valid()
    ensures var e := t.Entries(); Places(e.keys) && Moment(e.keys, e.vals)
  {
    OrderDistinct(t.arr[..], t.sizearray, t.node[..]);
  }

  /** Each place of the traversal holds the value of its key. */
  lemma TablePlace(t: Table, i: nat)
    requires t.Valid() && i < |t.Entries().keys|
    ensures t.Entries().keys[i] != Nil ==> t.At(t.Entries().keys[i]) == t.Entries().vals[i]
  {
    if i >= t.sizearray && t.Entries().keys[i] != Nil {
      ValueAtNode(t.node[..], i - t.sizearray);
    }
  }

  lemma AllPlaces(t: Table)
    requires t.Valid()
    ensures forall i | 0 <= i < |t.Entries().keys| ::
              if t.Entries().keys[i] != Nil then t.At(t.Entries().keys[i])
                  == t.Entries().vals[i] else t.Entries().vals[i] == Nil
  {
    TableMoment(t);
    forall i: nat | i < |t.Entries().keys| && t.Entries().keys[i] != Nil
      ensures t.At(t.Entries().keys[i]) == t.Entries().vals[i]
    {
      TablePlace(t, i);
    }
  }

  /** Every key with a value has a place. */
  lemma TableKey(t: Table, k: TValue) returns (i: nat)
    requires t.Valid() && t.At(k) != Nil
    ensures i < |t.Entries().keys| && t.Entries().keys[i] == k && t.Entries().vals[i] == t.At(k)
  {
    OrderKeys(t.arr[..], t.sizearray, t.node[..], k);
    i :| 0 <= i < |t.Entries().keys| && t.Entries().keys[i] == k;
    TablePlace(t, i);
  }

  /** Clears what the table holds under some keys. */
  method ClearAll(t: Table, cs: seq<TValue>)
    requires t.Valid()
    modifies t.arr, t.node
    ensures t.Valid() && t.Entries().keys == old(t.Entries().keys)
    ensures forall k :: t.At(k) == if k in cs then Nil else old(t.At(k))
    ensures forall i | 0 <= i < |t.Entries().keys| && t.Entries().vals[i] != Nil :: old(t.Entries().vals[i]) != Nil
  {
    ghost var keys := t.Entries().keys;
    AllPlaces(t);
    for n := 0 to |cs|
      invariant t.Valid() && t.Entries().keys == old(t.Entries().keys)
      invariant forall k :: t.At(k) == if k in cs[..n] then Nil else old(t.At(k))
    {
      assert cs[..n + 1] == cs[..n] + [cs[n]];
      ClearKey(t, cs[n]);
    }
    assert cs[..|cs|] == cs;
    AllPlaces(t);
    forall i | 0 <= i < |keys| && t.Entries().vals[i] != Nil ensures old(t.Entries().vals[i]) != Nil {
      assert t.At(keys[i]) != Nil && old(t.At(keys[i])) != Nil;
    }
  }

  method ClearKey(t: Table, c: TValue)
    requires t.Valid()
    modifies t.arr, t.node
    ensures t.Valid() && t.Entries().keys == old(t.Entries().keys)
    ensures forall k :: t.At(k) == if k == c then Nil else old(t.At(k))
  {
    if c == Nil {
      return;
    }
    var found, cell := t.FindCell(c);
    if found {
      t.Store(cell, c, Nil);
    }
  }

  /** The calls so far: the last one returned `key`, which is at place `p`. */
  ghost predicate SoFar(keys: seq<TValue>, vals: seq<seq<TValue>>, seen: seq<TValue>, key: TValue, p: int) {
    && Places(keys) && |vals| == |seen| + 1 && -1 <= p < |keys|
    && (forall n: nat | n < |seen| :: Returned(keys, vals, seen, n))
    && (if seen == [] then key == Nil && p == -1 else key != Nil && key == seen[|seen| - 1] && p >= 0 && keys[p] == key)
  }

  lemma OneMore(keys: seq<TValue>, vals: seq<seq<TValue>>, seen: seq<TValue>, key: TValue, p: int, next: TValue,
                after: seq<TValue>)
    requires SoFar(keys, vals, seen, key, p) && Moment(keys, vals[|seen|])
    requires var r := Following(Order(keys, vals[|seen|]), key); r.Entry? && r.key == next
    ensures var q := FirstLive(vals[|seen|], p + 1); SoFar(keys, vals + [after], seen + [next], next, q) && q > p
  {
    FollowingPlace(keys, vals[|seen|], key, p);
    var vs, ss := vals + [after], seen + [next];
    forall n: nat | n < |ss| ensures Returned(keys, vs, ss, n) {
      if n < |seen| {
        assert Returned(keys, vals, seen, n);
      }
    }
  }

  /** What has a value now has had one at every call. */
  ghost predicate Fading(vals: seq<seq<TValue>>, now: seq<TValue>) {
    forall n, i | 0 <= n < |vals| && 0 <= i < |vals[n]| && i < |now| && now[i] != Nil :: vals[n][i] != Nil
  }

  lemma FadingMore(vals: seq<seq<TValue>>, before: seq<TValue>, now: seq<TValue>)
    requires Fading(vals, before) && |now| == |before|
    requires forall i | 0 <= i < |now| && now[i] != Nil :: before[i] != Nil
    ensures Fading(vals + [now], now)
  {
  }

  /** A traversal that has ended visited no key twice and every key that still has a value. */
  lemma Complete(t: Table, vals: seq<seq<TValue>>, seen: seq<TValue>)
    requires t.Valid() && Traversal(t.Entries().keys, vals, seen) && Fading(vals, t.Entries().vals)
    ensures forall m, n | 0 <= m < n < |seen| :: seen[m] != seen[n]
    ensures forall k | t.At(k) != Nil :: k in seen
  {
    var keys := t.Entries().keys;
    TraversalComplete(keys, vals, seen);
    forall k | t.At(k) != Nil ensures k in seen {
      var i := TableKey(t, k);
      assert !NilOnce(vals, i);
    }
    forall m, n | 0 <= m < n < |seen| ensures seen[m] != seen[n] {
      assert seen[m] in keys && seen[n] in keys;
    }
  }

  /** Compared with what the table held at first: nothing has changed but that entries were cleared,
      each by the body run for one of the keys seen, all of which had a value. */
  ghost predicate OnlyCleared(t: Table, was: TValue -> TValue, seen: seq<TValue>, clears: TValue -> seq<TValue>)
    requires t.Valid()
    reads t, t.arr, t.node
  {
    && (forall k :: t.At(k) != Nil ==> t.At(k) == was(k))
    && (forall k | k in seen :: was(k) != Nil)
    && (forall k | was(k) != Nil && t.At(k) == Nil :: exists s :: s in seen && k in clears(s))
  }

  /** The calls of a traversal up to now. */
  ghost predicate Under(t: Table, keys: seq<TValue>, vals: seq<seq<TValue>>, seen: seq<TValue>, key: TValue, p: int)
    requires t.Valid()
    reads t, t.arr, t.node
  {
    && t.Entries().keys == keys && SoFar(keys, vals, seen, key, p)
    && vals[|seen|] == t.Entries().vals && Fading(vals, t.Entries().vals)
  }

  /** The entry after the last one visited, and its place. */
  method NextEntry(t: Table, key: TValue, ghost keys: seq<TValue>, ghost vals: seq<seq<TValue>>, seen: seq<TValue>,
                   ghost p: int)
    returns (r: NextResult, ghost q: nat)
    requires t.Valid() && Under(t, keys, vals, seen, key, p)
    ensures r == Following(Order(keys, vals[|seen|]), key) && Moment(keys, vals[|seen|])
    ensures !r.Entry? ==> r.End? && Traversal(keys, vals, seen)
    ensures r.Entry? ==> q == FirstLive(vals[|seen|], p + 1) && t.At(r.key) != Nil
  {
    TableMoment(t);
    FollowingPlace(keys, t.Entries().vals, key, p);
    r := t.Next(key);
    q := FirstLive(t.Entries().vals, p + 1);
    if r.Entry? {
      TablePlace(t, q);
    }
  }

  /** The body of the loop, run for one key. */
  method Body(t: Table, clears: TValue -> seq<TValue>, key: TValue, ghost seen: seq<TValue>,
              ghost was: TValue -> TValue)
    requires t.Valid() && OnlyCleared(t, was, seen, clears) && t.At(key) != Nil
    modifies t.arr, t.node
    ensures t.Valid() && OnlyCleared(t, was, seen + [key], clears) && t.Entries().keys == old(t.Entries().keys)
    ensures forall i | 0 <= i < |t.Entries().keys| && t.Entries().vals[i] != Nil :: old(t.Entries().vals[i]) != Nil
  {
    ClearAll(t, clears(key));
    forall k | was(k) != Nil && t.At(k) == Nil ensures exists s :: s in seen + [key] && k in clears(s) {
      if k in clears(key) {
        assert key in seen + [key];
      } else {
        var s :| s in seen && k in clears(s);
        assert s in seen + [key];
      }
    }
  }

  /** One turn of the loop of foreach: false at the end of the table. */
  method Visit(t: Table, clears: TValue -> seq<TValue>, key0: TValue, seen0: seq<TValue>,
               ghost keys: seq<TValue>, ghost vals0: seq<seq<TValue>>, ghost p0: int, ghost was: TValue -> TValue)
    returns (more: bool, key: TValue, seen: seq<TValue>, ghost vals: seq<seq<TValue>>, ghost p: int)
    requires t.Valid() && Under(t, keys, vals0, seen0, key0, p0) && OnlyCleared(t, was, seen0, clears)
    modifies t.arr, t.node
    ensures t.Valid() && Under(t, keys, vals, seen, key, p) && OnlyCleared(t, was, seen, clears)
    ensures if more then p > p0 else Traversal(keys, vals, seen)
  {
    key, seen, vals, p := key0, seen0, vals0, p0;
    var r, q := NextEntry(t, key, keys, vals, seen, p);
    if r.End? {
      return false, key, seen, vals, p;
    }
    ghost var before := t.Entries().vals;
    Body(t, clears, r.key, seen, was);
    ghost var after := t.Entries().vals;
    OneMore(keys, vals, seen, key, p, r.key, after);
    FadingMore(vals, before, after);
    more, key, p := true, r.key, q;
    seen := seen + [r.key];
    vals := vals + [after];
  }

  /** foreach: visits entry after entry; the body may clear any entries, as `clears` says.
      It visits no key twice, none that had no value, and leaves out none that still has one. */
  method ForEach(t: Table, clears: TValue -> seq<TValue>) returns (seen: seq<TValue>, ghost vals: seq<seq<TValue>>)
    requires t.Valid()
    modifies t.arr, t.node
    ensures t.Valid() && Traversal(old(t.Entries().keys), vals, seen)
    ensures forall m, n | 0 <= m < n < |seen| :: seen[m] != seen[n]
    ensures forall k | k in seen :: old(t.At(k)) != Nil
    ensures forall k | t.At(k) != Nil :: k in seen && t.At(k) == old(t.At(k))
    ensures forall k | old(t.At(k)) != Nil && t.At(k) == Nil :: exists s :: s in seen && k in clears(s)
  {
    ghost var keys, a, sz, ns := t.Entries().keys, t.arr[..], t.sizearray, t.node[..];
    ghost var was: TValue -> TValue := k requires sz <= |a| => AtSeq(a, sz, ns, k);
    ghost var p: int := -1;
    var more, key := true, Nil;
    seen := [];
    vals := [t.Entries().vals];
    TableMoment(t);
    while more
      invariant t.Valid() && Under(t, keys, vals, seen, key, p) && OnlyCleared(t, was, seen, clears)
      invariant !more ==> Traversal(keys, vals, seen)
      decreases more, |keys| - p
    {
      more, key, seen, vals, p := Visit(t, clears, key, seen, keys, vals, p, was);
    }
    Complete(t, vals, seen);
  }
}
