/** What a table holds, array part and hash part together, and which keys a rehash counts. */
module LuaTableContents {
  import opened Arithmetic
  import opened LuaTableNodes
  import opened LuaTablePlacement
  import opened LuaTableSizes

  /** The key lives in the array part. */
  predicate InArray(sz: nat, k: TValue) {
    k.Num? && 1 <= k.n <= sz
  }

  lemma InArrayNext(i: nat)
    ensures forall k :: InArray(i + 1, k) <==> InArray(i, k) || k == Num(i + 1)
  {
  }

  /** The value of `k` in a table with array part a[..sz] and hash part `ns`. */
  ghost function AtSeq(a: seq<TValue>, sz: nat, ns: seq<Node>, k: TValue): TValue
    requires sz <= |a|
  {
    if InArray(sz, k) then a[k.n - 1] else ValueAt(ns, k)
  }

  /** No key of the array part is shadowed by the hash part. */
  ghost predicate NoShadow(sz: nat, ns: seq<Node>) {
    forall i | 0 <= i < |ns| :: !InArray(sz, ns[i].key)
  }

  /** newkey, as far as the table as a whole is concerned. */
  lemma PlaceKeepsTable(h: Hash, ns: seq<Node>, rank: seq<nat>, lastfree: int, dummy: bool, key: TValue, sz: nat)
    requires Inv(h, ns, rank) && lastfree <= |ns| && (dummy ==> lastfree <= 0)
    requires key != Nil && !HasKey(ns, key) && TakenAbove(ns, lastfree) && NoShadow(sz, ns) && !InArray(sz, key)
    requires Place(h, ns, rank, lastfree, dummy, key).Placed?
    ensures var ns' := Place(h, ns, rank, lastfree, dummy, key).ns;
      && NoShadow(sz, ns')
      && (forall k :: ValueAt(ns', k) == ValueAt(ns, k))
      && (forall k | k != Nil && HasKey(ns', k) :: k == key || HasKey(ns, k))
  {
    var ns' := Place(h, ns, rank, lastfree, dummy, key).ns;
    forall k ensures ValueAt(ns', k) == ValueAt(ns, k) && (k != Nil && HasKey(ns', k) ==> k == key || HasKey(ns, k)) {
      PlaceContents(h, ns, rank, lastfree, dummy, key, k);
    }
    forall i | 0 <= i < |ns'| ensures !InArray(sz, ns'[i].key) {
      if ns'[i].key.Num? { assert HasKey(ns', ns'[i].key); }
    }
  }

  function ArrayKeys(a: seq<TValue>, n: nat): set<TValue>
    requires n <= |a|
  {
    set i | 0 <= i < n && a[i] != Nil :: Num(i + 1)
  }

  function NodeKeys(ns: seq<Node>): set<TValue> {
    set i | 0 <= i < |ns| && ns[i].val != Nil :: ns[i].key
  }

  /** The keys with a value. */
  function LiveKeys(a: seq<TValue>, sz: nat, ns: seq<Node>): set<TValue>
    requires sz <= |a|
  {
    ArrayKeys(a, sz) + NodeKeys(ns)
  }

  lemma LiveKeysAt(a: seq<TValue>, sz: nat, ns: seq<Node>, k: TValue)
    requires sz <= |a| && DistinctKeys(ns) && FreeNodes(ns) && NoShadow(sz, ns)
    ensures k in LiveKeys(a, sz, ns) <==> AtSeq(a, sz, ns, k) != Nil
  {
    if k in NodeKeys(ns) {
      var i :| 0 <= i < |ns| && ns[i].val != Nil && ns[i].key == k;
      ValueAtNode(ns, i);
    }
    if InArray(sz, k) {
      if k in NodeKeys(ns) { assert false; }
      assert a[k.n - 1] != Nil ==> Num(k.n - 1 + 1) in ArrayKeys(a, sz);
    } else if k != Nil && HasKey(ns, k) {
      var i :| 0 <= i < |ns| && ns[i].key == k;
      ValueAtNode(ns, i);
    }
  }

  /** The candidate array indices among `keys`. */
  function Ints(keys: set<TValue>): set<int> {
    set k: int | 1 <= k <= MAXASIZE && Num(k) in keys
  }

  predicate Candidate(k: TValue) {
    k.Num? && 0 < k.n <= MAXASIZE
  }

  /** Counting one more key: countint adds it to the one slice it lies in, or to none. */
  lemma CountOneMore(keys: set<TValue>, key: TValue, b: nat)
    requires key !in keys
    ensures Slice(Ints(keys + {key}), b) == Slice(Ints(keys), b) + if Candidate(key)
            && CeilLog2(key.n) == b then 1 else 0
    ensures |Ints(keys + {key})| == |Ints(keys)| + if Candidate(key) then 1 else 0
  {
    var was, now := Ints(keys), Ints(keys + {key});
    if Candidate(key) {
      assert now == was + {key.n};
      if CeilLog2(key.n) == b {
        assert Between(now, Pow2(b) / 2, Pow2(b)) == Between(was, Pow2(b) / 2, Pow2(b)) + {key.n};
      } else {
        assert !(Pow2(b) / 2 < key.n <= Pow2(b)) by {
          if Pow2(b) / 2 < key.n <= Pow2(b) { SliceUnique(key.n, b, CeilLog2(key.n)); }
        }
        assert Between(now, Pow2(b) / 2, Pow2(b)) == Between(was, Pow2(b) / 2, Pow2(b));
      }
    } else {
      assert now == was;
    }
  }

  /** The keys that a table with an array part of `n` slots keeps in its hash part. */
  function Pending(keys: set<TValue>, n: nat): set<TValue> {
    set k | k in keys && !InArray(n, k)
  }

  lemma {:induction false} PendingSize(keys: set<TValue>, n: nat)
    requires n <= MAXASIZE
    ensures |Pending(keys, n)| == |keys| - Count(Ints(keys), n)
  {
    var inside := set k | k in keys && InArray(n, k);
    assert keys == inside + Pending(keys, n) && inside !! Pending(keys, n);
    NumImage(Between(Ints(keys), 0, n), inside);
  }

  lemma {:induction false} NumImage(ks: set<int>, keys: set<TValue>)
    requires forall k :: k in ks <==> Num(k) in keys
    requires forall key | key in keys :: key.Num?
    ensures |ks| == |keys|
    decreases ks
  {
    assert forall key | key in keys :: key.n in ks;
    if ks != {} {
      var k := Some(ks);
      NumImage(ks - {k}, keys - {Num(k)});
    }
  }

  lemma Some<T>(s: set<T>) returns (x: T)
    requires s != {}
    ensures x in s
  {
    x :| x in s;
  }

  /** From `was` to `now`, slice `lg` gained `n` candidates and the others none. */
  ghost predicate SliceGains(was: set<int>, now: set<int>, lg: nat, n: nat) {
    && |now| == |was| + n
    && forall b: nat :: Slice(now, b) == Slice(was, b) + if b == lg then n else 0
  }

  /** The counters of a rehash say how many of `keys` lie in each slice. */
  ghost predicate Counted(nums: seq<nat>, keys: set<TValue>) {
    |nums| == MAXBITS + 1 && forall b | 0 <= b <= MAXBITS :: nums[b] == Slice(Ints(keys), b)
  }

  lemma CountedGains(nums: seq<nat>, was: set<TValue>, now: set<TValue>, lg: nat, n: nat)
    requires Counted(nums, was) && lg <= MAXBITS && SliceGains(Ints(was), Ints(now), lg, n)
    ensures Counted(nums[lg := nums[lg] + n], now)
  {
  }

  lemma CountedNone(nums: seq<nat>)
    requires |nums| == MAXBITS + 1 && forall b | 0 <= b <= MAXBITS :: nums[b] == 0
    ensures Counted(nums, {})
  {
    assert Ints({}) == {};
    assert forall lo, hi :: Between({}, lo, hi) == {};
  }

  /** One step of the loop over the array part, in slice `lg`. */
  lemma NextArrayKey(a: seq<TValue>, i: nat, lg: nat)
    requires 1 <= i <= |a| && i <= MAXASIZE && Pow2(lg) / 2 < i <= Pow2(lg)
    ensures var was, now := ArrayKeys(a, i - 1), ArrayKeys(a, i);
      var one := if a[i - 1] != Nil then 1 else 0;
      |now| == |was| + one && SliceGains(Ints(was), Ints(now), lg, one)
  {
    var was, now := ArrayKeys(a, i - 1), ArrayKeys(a, i);
    if a[i - 1] != Nil {
      assert now == was + {Num(i)};
      CountOneMore(was, Num(i), lg);
      forall b: nat ensures Slice(Ints(now), b) == Slice(Ints(was), b) + if b == lg then 1 else 0 {
        CountOneMore(was, Num(i), b);
        SliceUnique(i, lg, CeilLog2(i));
      }
    } else {
      assert now == was;
    }
  }

  /** One step of the loop over the nodes, from the last to the first. */
  lemma NextNodeKey(a: seq<TValue>, sz: nat, ns: seq<Node>, i: nat)
    requires sz <= |a| && i < |ns| && DistinctKeys(ns) && FreeNodes(ns) && NoShadow(sz, ns)
    ensures var was, now := ArrayKeys(a, sz) + NodeKeys(ns[i + 1..]), ArrayKeys(a, sz) + NodeKeys(ns[i..]);
      if ns[i].val != Nil then ns[i].key !in was && now == was + {ns[i].key} else now == was
  {
    var after, from := ns[i + 1..], ns[i..];
    assert from == [ns[i]] + after;
    assert forall j | 0 <= j < |after| :: after[j] == ns[i + 1 + j] && from[j + 1] == after[j];
    if ns[i].val != Nil {
      assert from[0] == ns[i];
      assert NodeKeys(from) == NodeKeys(after) + {ns[i].key};
    } else {
      assert NodeKeys(from) == NodeKeys(after);
    }
  }

  /** When every key of `ns` is among `keys` but `key` is not there yet, some node is free. */
  lemma KeysLeaveRoom(ns: seq<Node>, keys: set<TValue>, key: TValue)
    requires DistinctKeys(ns) && |keys| <= |ns| && key in keys && key != Nil && !HasKey(ns, key)
    requires forall k | k != Nil && HasKey(ns, k) :: k in keys
    ensures HasFree(ns)
  {
    if !HasFree(ns) {
      FullKeySet(ns);
      assert KeySet(ns) <= keys - {key} by {
        forall k | k in KeySet(ns) ensures k in keys - {key} {
          assert HasKey(ns, k);
        }
      }
      SubsetSize(KeySet(ns), keys - {key});
    }
  }

  lemma KeyFrom(ns: seq<Node>, i: nat)
    requires i < |ns|
    ensures forall k :: HasKey(ns[i..], k) <==> k == ns[i].key || HasKey(ns[i + 1..], k)
    ensures DistinctKeys(ns) && ns[i].key != Nil ==> !HasKey(ns[i + 1..], ns[i].key)
  {
    var from, after := ns[i..], ns[i + 1..];
    assert from == [ns[i]] + after;
    forall k ensures HasKey(from, k) <==> k == ns[i].key || HasKey(after, k) {
      if j :| 0 <= j < |after| && after[j].key == k { assert from[j + 1].key == k; }
      if j :| 0 <= j < |from| && from[j].key == k { assert j > 0 ==> after[j - 1].key == k; }
      assert from[0].key == ns[i].key;
    }
    assert forall j | 0 <= j < |after| :: after[j] == ns[i + 1 + j];
  }

  lemma PendingGrows(live: set<TValue>, ek: TValue, n: nat)
    ensures Pending(live, n) <= Pending(live + {ek}, n)
    ensures |Pending(live, n)| <= |Pending(live + {ek}, n)| <= |live| + 1
  {
    SubsetSize(Pending(live, n), Pending(live + {ek}, n));
    SubsetSize(Pending(live + {ek}, n), live + {ek});
  }
}
