/** Traversing a Lua table with luaH_next (lua/ltable.c). */
module LuaTableTraversal {
  import opened LuaTableNodes
  import opened LuaTableContents

  /** The entries of a table in traversal order, nil ones included. */
  datatype Order = Order(keys: seq<TValue>, vals: seq<TValue>)

  datatype NextResult = Entry(key: TValue, val: TValue) | End | InvalidKey

  ghost function OrderOf(a: seq<TValue>, sz: nat, ns: seq<Node>): (e: Order)
    requires sz <= |a|
    ensures |e.keys| == |e.vals| == sz + |ns|
  {
    Order(seq(sz + |ns|, i requires 0 <= i < sz + |ns| => if i < sz then Num(i + 1) else ns[i - sz].key),
          seq(sz + |ns|, i requires 0 <= i < sz + |ns| => if i < sz then a[i] else ns[i - sz].val))
  }

  /** The first entry at or after `i` that is not nil. */
  function After(e: Order, i: nat): NextResult
    requires |e.keys| == |e.vals|
    decreases |e.keys| - i
  {
    if i >= |e.keys| then End
    else if e.vals[i] != Nil then Entry(e.keys[i], e.vals[i])
    else After(e, i + 1)
  }

  /** The entry that luaH_next returns for `key`. */
  ghost function Following(e: Order, key: TValue): NextResult
    requires |e.keys| == |e.vals|
  {
    if key == Nil then After(e, 0)
    else if key in e.keys then
      var j :| 0 <= j < |e.keys| && e.keys[j] == key; After(e, j + 1)
    else InvalidKey
  }

  lemma OrderKeys(a: seq<TValue>, sz: nat, ns: seq<Node>, key: TValue)
    requires sz <= |a| && key != Nil
    ensures key in OrderOf(a, sz, ns).keys <==> InArray(sz, key) || HasKey(ns, key)
  {
    var e := OrderOf(a, sz, ns);
    if InArray(sz, key) { assert e.keys[key.n - 1] == key; }
    if i :| 0 <= i < |ns| && ns[i].key == key { assert e.keys[sz + i] == key; }
  }

  /** The keys of a table, each with one place, free nodes apart. */
  ghost predicate Places(keys: seq<TValue>) {
    forall i, j | 0 <= i < |keys| && 0 <= j < |keys| && keys[i] == keys[j] && keys[i] != Nil :: i == j
  }

  lemma OrderDistinct(a: seq<TValue>, sz: nat, ns: seq<Node>)
    requires sz <= |a| && DistinctKeys(ns) && NoShadow(sz, ns)
    ensures Places(OrderOf(a, sz, ns).keys)
  {
  }

  /** luaH_next goes on right after the place of the key it is given, if the key has one. */
  lemma FollowingAt(a: seq<TValue>, sz: nat, ns: seq<Node>, key: TValue, i: int)
    requires sz <= |a| && DistinctKeys(ns) && NoShadow(sz, ns) && -2 <= i < sz + |ns|
    requires if key == Nil then i == -1 else if i < 0 then i == -2 && key !in OrderOf(a, sz, ns).keys
             else OrderOf(a, sz, ns).keys[i] == key
    ensures Following(OrderOf(a, sz, ns), key) == if i == -2 then InvalidKey else After(OrderOf(a, sz, ns), i + 1)
  {
    OrderDistinct(a, sz, ns);
  }

  // ---------------------------------------------------------------- whole traversals

  /** The values of one moment of the traversal; a free node has none. */
  ghost predicate Moment(keys: seq<TValue>, vals: seq<TValue>) {
    |vals| == |keys| && forall i | 0 <= i < |keys| && keys[i] == Nil :: vals[i] == Nil
  }

  /** The call at time `t`, given the key returned before it, returned seen[t]. */
  ghost predicate Returned(keys: seq<TValue>, vals: seq<seq<TValue>>, seen: seq<TValue>, t: nat) {
    && t < |seen| && t < |vals| && Moment(keys, vals[t])
    && var r := Following(Order(keys, vals[t]), if t == 0 then Nil else seen[t - 1]);
       r.Entry? && r.key == seen[t]
  }

  /** The last call returned no entry. */
  ghost predicate Ended(keys: seq<TValue>, vals: seq<TValue>, prev: TValue) {
    Moment(keys, vals) && Following(Order(keys, vals), prev) == End
  }

  /** A whole traversal: luaH_next is called from nil until it returns no more entry. Between two
      calls values may change in any way, from vals[t] to vals[t + 1], but no key is added. */
  ghost predicate Traversal(keys: seq<TValue>, vals: seq<seq<TValue>>, seen: seq<TValue>) {
    && Places(keys) && |vals| == |seen| + 1
    && (forall t: nat | t < |seen| :: Returned(keys, vals, seen, t))
    && Ended(keys, vals[|seen|], if seen == [] then Nil else seen[|seen| - 1])
  }

  /** Where the scan from `i` stops. */
  function FirstLive(vals: seq<TValue>, i: nat): (j: nat)
    ensures i < |vals| ==> i <= j
    ensures j < |vals| ==> vals[j] != Nil
    ensures forall m | i <= m < j && m < |vals| :: vals[m] == Nil
    decreases |vals| - i
  {
    if i >= |vals| then |vals| else if vals[i] != Nil then i else FirstLive(vals, i + 1)
  }

  lemma {:induction false} AfterFirstLive(e: Order, i: nat)
    requires |e.keys| == |e.vals|
    ensures var j := FirstLive(e.vals, i);
      After(e, i) == if j < |e.keys| then Entry(e.keys[j], e.vals[j]) else End
    decreases |e.keys| - i
  {
    if i < |e.keys| && e.vals[i] == Nil { AfterFirstLive(e, i + 1); }
  }

  /** What luaH_next does when it is given the key at place `p`, or nil (`p` is -1). */
  lemma FollowingPlace(keys: seq<TValue>, vals: seq<TValue>, prev: TValue, p: int)
    requires Places(keys) && Moment(keys, vals) && -1 <= p < |keys|
    requires if p < 0 then prev == Nil else prev != Nil && keys[p] == prev
    ensures var j := FirstLive(vals, p + 1);
      && Following(Order(keys, vals), prev) == (if j < |keys| then Entry(keys[j], vals[j]) else End)
      && (j < |keys| ==> keys[j] != Nil)
  {
    AfterFirstLive(Order(keys, vals), p + 1);
    if p >= 0 {
      assert prev in keys && forall j | 0 <= j < |keys| && keys[j] == prev :: j == p;
    }
  }

  /** The moment `t` of a traversal, from the place `p` of the key returned before it. */
  lemma StepPlace(keys: seq<TValue>, vals: seq<seq<TValue>>, seen: seq<TValue>, t: nat, p: int)
    requires Traversal(keys, vals, seen) && t < |vals| && -1 <= p < |keys|
    requires if t == 0 then p == -1 else p >= 0 && keys[p] == seen[t - 1] && seen[t - 1] != Nil
    ensures var j := FirstLive(vals[t], p + 1);
      |vals[t]| == |keys| && if t < |seen| then j < |keys| && keys[j] == seen[t] && seen[t] != Nil else j >= |keys|
  {
    assert t < |seen| ==> Returned(keys, vals, seen, t);
    FollowingPlace(keys, vals[t], if t == 0 then Nil else seen[t - 1], p);
  }

  /** Place `m` had no value at one of the calls. */
  ghost predicate NilOnce(vals: seq<seq<TValue>>, m: nat) {
    exists u :: 0 <= u < |vals| && m < |vals[u]| && vals[u][m] == Nil
  }

  /** Where the next scan starts. */
  function Next(ps: seq<nat>): nat {
    if ps == [] then 0 else ps[|ps| - 1] + 1
  }

  /** The first keys returned are those at the places `ps`; every place passed over had no value
      at the time. */
  ghost predicate Visited(keys: seq<TValue>, vals: seq<seq<TValue>>, seen: seq<TValue>, ps: seq<nat>) {
    && |ps| <= |seen| <= |vals|
    && (forall t | 0 <= t < |ps| :: ps[t] < |keys| && keys[ps[t]] == seen[t] && seen[t] != Nil)
    && (forall t, u | 0 <= t < u < |ps| :: ps[t] < ps[u])
    && (forall m | 0 <= m < Next(ps) :: m in ps || NilOnce(vals, m))
  }

  lemma VisitedExtend(keys: seq<TValue>, vals: seq<seq<TValue>>, seen: seq<TValue>, ps: seq<nat>, j: nat)
    requires Visited(keys, vals, seen, ps) && |ps| < |seen| && j < |keys| && keys[j] == seen[|ps|] && seen[|ps|] != Nil
    requires Next(ps) <= j && forall m | Next(ps) <= m < j :: NilOnce(vals, m)
    ensures Visited(keys, vals, seen, ps + [j])
  {
    var qs := ps + [j];
    assert forall m :: m in qs <==> m in ps || m == j;
    forall t, u | 0 <= t < u < |qs| ensures qs[t] < qs[u] {
      if u == |ps| && t < |ps| - 1 { assert ps[t] < ps[|ps| - 1]; }
    }
  }

  lemma NextStep(keys: seq<TValue>, vals: seq<seq<TValue>>, seen: seq<TValue>, ps: seq<nat>)
    requires Traversal(keys, vals, seen) && Visited(keys, vals, seen, ps)
    ensures var t, j := |ps|, FirstLive(vals[|ps|], Next(ps));
      |vals[t]| == |keys| && if t < |seen| then j < |keys| && keys[j] == seen[t] && seen[t] != Nil else j >= |keys|
  {
    var t := |ps|;
    if t == 0 {
      StepPlace(keys, vals, seen, 0, -1);
    } else {
      var p := ps[t - 1];
      assert p < |keys| && keys[p] == seen[t - 1] && seen[t - 1] != Nil;
      StepPlace(keys, vals, seen, t, p);
    }
  }

  lemma {:induction false} PlacesVisited(keys: seq<TValue>, vals: seq<seq<TValue>>, seen: seq<TValue>, n: nat)
    returns (ps: seq<nat>)
    requires Traversal(keys, vals, seen) && n <= |seen|
    ensures |ps| == n && Visited(keys, vals, seen, ps)
  {
    if n == 0 {
      ps := [];
    } else {
      var qs := PlacesVisited(keys, vals, seen, n - 1);
      NextStep(keys, vals, seen, qs);
      var j := FirstLive(vals[n - 1], Next(qs));
      forall m | Next(qs) <= m < j ensures NilOnce(vals, m) {
        assert vals[n - 1][m] == Nil;
      }
      VisitedExtend(keys, vals, seen, qs, j);
      ps := qs + [j];
    }
  }

  /** No key with a value throughout is left out. */
  lemma NothingSkipped(keys: seq<TValue>, vals: seq<seq<TValue>>, seen: seq<TValue>, i: nat)
    requires Traversal(keys, vals, seen) && i < |keys| && !NilOnce(vals, i)
    ensures keys[i] in seen
  {
    var n := |seen|;
    var ps := PlacesVisited(keys, vals, seen, n);
    if i < Next(ps) {
      var t :| 0 <= t < |ps| && ps[t] == i;
      assert seen[t] == keys[i];
    } else {
      NextStep(keys, vals, seen, ps);
    }
  }

  lemma ReturnedInOrder(keys: seq<TValue>, vals: seq<seq<TValue>>, seen: seq<TValue>, t: nat, u: nat, i: nat, j: nat)
    requires Traversal(keys, vals, seen) && t < u < |seen| && i < |keys| && j < |keys| && keys[i] == seen[t]
             && keys[j] == seen[u]
    ensures i < j && seen[t] != seen[u]
  {
    var ps := PlacesVisited(keys, vals, seen, |seen|);
    assert ps[t] < ps[u];
    assert keys[ps[t]] == keys[i] && keys[ps[u]] == keys[j];
  }

  /** A traversal returns every key that has a value throughout, returns no key twice, and goes
      through the array part before the hash part, even if values are cleared meanwhile. */
  lemma TraversalComplete(keys: seq<TValue>, vals: seq<seq<TValue>>, seen: seq<TValue>)
    requires Traversal(keys, vals, seen)
    ensures forall i | 0 <= i < |keys| && !NilOnce(vals, i) :: keys[i] in seen
    ensures forall t, u, i, j | 0 <= t < u < |seen| && 0 <= i < |keys| && 0 <= j < |keys| && keys[i] == seen[t]
            && keys[j] == seen[u] ::
      i < j && seen[t] != seen[u]
    ensures forall t | 0 <= t < |seen| :: seen[t] in keys
  {
    forall i | 0 <= i < |keys| && !NilOnce(vals, i) ensures keys[i] in seen {
      NothingSkipped(keys, vals, seen, i);
    }
    forall t, u, i, j | 0 <= t < u < |seen| && 0 <= i < |keys| && 0 <= j < |keys| && keys[i] == seen[t]
        && keys[j] == seen[u]
      ensures i < j && seen[t] != seen[u]
    {
      ReturnedInOrder(keys, vals, seen, t, u, i, j);
    }
    var ps := PlacesVisited(keys, vals, seen, |seen|);
  }

  // ---------------------------------------------------------------- the order

  lemma {:induction false} AfterIs(e: Order, i: nat, j: nat)
    requires |e.keys| == |e.vals| && i <= j <= |e.vals| && forall k | i <= k < j :: e.vals[k] == Nil
    ensures j < |e.vals| && e.vals[j] != Nil ==> After(e, i) == Entry(e.keys[j], e.vals[j])
    ensures j == |e.vals| ==> After(e, i) == End
    decreases j - i
  {
    if i < j { AfterIs(e, i + 1, j); }
  }

  /** The key of a place of the array part, or nil before the first one. */
  function IndexKey(i: nat): TValue {
    if i == 0 then Nil else Num(i)
  }

  lemma FollowingIndex(a: seq<TValue>, sz: nat, ns: seq<Node>, i: nat)
    requires sz <= |a| && i <= sz && Places(OrderOf(a, sz, ns).keys)
    ensures Following(OrderOf(a, sz, ns), IndexKey(i)) == After(OrderOf(a, sz, ns), i)
  {
    var e := OrderOf(a, sz, ns);
    if i > 0 { assert e.keys[i - 1] == Num(i); }
  }

  /** The array part comes first, by its indices: after i the next index with a value. */
  lemma NextIndex(a: seq<TValue>, sz: nat, ns: seq<Node>, i: nat, j: nat)
    requires sz <= |a| && i < j <= sz && Places(OrderOf(a, sz, ns).keys)
    requires a[j - 1] != Nil && forall k | i <= k < j - 1 :: a[k] == Nil
    ensures Following(OrderOf(a, sz, ns), IndexKey(i)) == Entry(Num(j), a[j - 1])
  {
    FollowingIndex(a, sz, ns, i);
    AfterIs(OrderOf(a, sz, ns), i, j - 1);
  }

  /** Behind its last value comes the first node with one, or the end. */
  lemma FirstNode(a: seq<TValue>, sz: nat, ns: seq<Node>, i: nat, m: nat)
    requires sz <= |a| && i <= sz && m <= |ns| && Places(OrderOf(a, sz, ns).keys)
    requires (forall k | i <= k < sz :: a[k] == Nil) && forall k | 0 <= k < m :: ns[k].val == Nil
    ensures m < |ns| && ns[m].val != Nil ==>
              Following(OrderOf(a, sz, ns), IndexKey(i)) == Entry(ns[m].key, ns[m].val)
    ensures m == |ns| ==> Following(OrderOf(a, sz, ns), IndexKey(i)) == End
  {
    FollowingIndex(a, sz, ns, i);
    AfterIs(OrderOf(a, sz, ns), i, sz + m);
  }

  /** After a node comes the next one with a value, or the end. */
  lemma NextNode(a: seq<TValue>, sz: nat, ns: seq<Node>, l: nat, m: nat)
    requires sz <= |a| && l < m <= |ns| && ns[l].key != Nil && Places(OrderOf(a, sz, ns).keys)
    requires forall k | l < k < m :: ns[k].val == Nil
    ensures m < |ns| && ns[m].val != Nil ==>
              Following(OrderOf(a, sz, ns), ns[l].key) == Entry(ns[m].key, ns[m].val)
    ensures m == |ns| ==> Following(OrderOf(a, sz, ns), ns[l].key) == End
  {
    var e := OrderOf(a, sz, ns);
    assert e.keys[sz + l] == ns[l].key;
    AfterIs(e, sz + l + 1, sz + m);
  }
}
