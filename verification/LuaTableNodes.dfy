/** The hash part of a Lua table: a chained scatter table with Brent's variation, threaded
    through one array of nodes (lua/ltable.c). Links are indices into that array. */
module LuaTableNodes {
  /** A Lua value: nil, a number with an exact integer value, or anything else, by identity. */
  datatype TValue = Nil | Num(n: int) | Other(id: nat)

  /** `next` is the index of the next node of the chain, or -1. */
  datatype Node = Node(key: TValue, val: TValue, next: int)

  /** The hash of a key in a node array of a given size; strings, numbers and pointers differ. */
  type Hash = (TValue, nat) -> nat

  function MainPosition(h: Hash, size: nat, key: TValue): (p: nat)
    requires size > 0
    ensures p < size
  {
    h(key, size) % size
  }

  // ---------------------------------------------------------------- chains

  /** Every link stays in the array and lowers the rank, so chains end. */
  ghost predicate Links(ns: seq<Node>, rank: seq<nat>) {
    && |rank| == |ns|
    && forall i | 0 <= i < |ns| :: -1 <= ns[i].next < |ns| && (ns[i].next >= 0 ==> rank[ns[i].next] < rank[i])
  }

  ghost predicate Reaches(ns: seq<Node>, rank: seq<nat>, i: nat, j: nat)
    requires Links(ns, rank) && i < |ns|
    decreases rank[i]
  {
    i == j || (ns[i].next >= 0 && Reaches(ns, rank, ns[i].next, j))
  }

  ghost predicate InDegreeOne(ns: seq<Node>) {
    forall i, j | 0 <= i < |ns| && 0 <= j < |ns| && i != j && ns[i].next == ns[j].next :: ns[i].next < 0
  }

  ghost predicate DistinctKeys(ns: seq<Node>) {
    forall i, j | 0 <= i < |ns| && 0 <= j < |ns| && i != j && ns[i].key == ns[j].key :: ns[i].key == Nil
  }

  /** A node is free when its key is nil; free nodes are in no chain. */
  ghost predicate FreeNodes(ns: seq<Node>) {
    && (forall i | 0 <= i < |ns| && ns[i].key == Nil :: ns[i].val == Nil && ns[i].next == -1)
    && (forall i | 0 <= i < |ns| && 0 <= ns[i].next < |ns| :: ns[ns[i].next].key != Nil)
  }

  /** The key of node `i` can be found from its main position; if it lies elsewhere, the node
      at its main position holds a key of its own. */
  ghost predicate Findable(h: Hash, ns: seq<Node>, rank: seq<nat>, i: nat)
    requires Links(ns, rank) && i < |ns|
  {
    var main := MainPosition(h, |ns|, ns[i].key);
    && Reaches(ns, rank, main, i)
    && (main != i ==> ns[main].key != Nil && MainPosition(h, |ns|, ns[main].key) == main)
  }

  ghost predicate Inv(h: Hash, ns: seq<Node>, rank: seq<nat>) {
    && |ns| > 0
    && Links(ns, rank) && InDegreeOne(ns) && DistinctKeys(ns) && FreeNodes(ns)
    && forall i | 0 <= i < |ns| && ns[i].key != Nil :: Findable(h, ns, rank, i)
  }

  // ---------------------------------------------------------------- lookup

  /** The loop of the luaH_get family: walks the chain from `i`. */
  function Find(ns: seq<Node>, ghost rank: seq<nat>, i: nat, key: TValue): (r: int)
    requires Links(ns, rank) && i < |ns|
    ensures -1 <= r < |ns| && (r >= 0 ==> ns[r].key == key)
    decreases rank[i]
  {
    if ns[i].key == key then i else if ns[i].next < 0 then -1 else Find(ns, rank, ns[i].next, key)
  }

  lemma {:induction false} FindReachable(ns: seq<Node>, rank: seq<nat>, i: nat, j: nat)
    requires Links(ns, rank) && DistinctKeys(ns) && i < |ns|
    requires Reaches(ns, rank, i, j) && j < |ns| && ns[j].key != Nil
    ensures Find(ns, rank, i, ns[j].key) == j
    decreases rank[i]
  {
    if i != j { FindReachable(ns, rank, ns[i].next, j); }
  }

  /** Looking a key up from its main position finds it wherever it is, and finds nothing else. */
  lemma FindComplete(h: Hash, ns: seq<Node>, rank: seq<nat>, key: TValue)
    requires Inv(h, ns, rank) && key != Nil
    ensures var r := Find(ns, rank, MainPosition(h, |ns|, key), key);
      if r >= 0 then ns[r].key == key else forall i | 0 <= i < |ns| :: ns[i].key != key
  {
    if i :| 0 <= i < |ns| && ns[i].key == key {
      assert Findable(h, ns, rank, i);
      FindReachable(ns, rank, MainPosition(h, |ns|, key), i);
    }
  }

  // ---------------------------------------------------------------- contents

  ghost predicate HasKey(ns: seq<Node>, key: TValue) {
    exists i :: 0 <= i < |ns| && ns[i].key == key
  }

  /** The value stored under `key`. */
  ghost function ValueAt(ns: seq<Node>, key: TValue): TValue {
    if key != Nil && HasKey(ns, key) then
      var i :| 0 <= i < |ns| && ns[i].key == key; ns[i].val
    else Nil
  }

  lemma ValueAtNode(ns: seq<Node>, i: nat)
    requires DistinctKeys(ns) && i < |ns| && ns[i].key != Nil
    ensures ValueAt(ns, ns[i].key) == ns[i].val
  {
  }

  // ---------------------------------------------------------------- newkey

  /** getfreepos: the new `lastfree` and a free node below it, or -1. */
  function FreePos(ns: seq<Node>, lastfree: int): (r: (int, int))
    requires lastfree <= |ns|
    ensures -1 <= r.1 < |ns| && r.0 <= lastfree
    ensures r.1 >= 0 ==> r.0 == r.1 && ns[r.1].key == Nil && forall i | r.1 < i < lastfree :: ns[i].key != Nil
    ensures r.1 < 0 ==> forall i | 0 <= i < lastfree :: ns[i].key != Nil
    decreases lastfree
  {
    if lastfree <= 0 then (lastfree - 1, -1)
    else if ns[lastfree - 1].key == Nil then (lastfree - 1, lastfree - 1)
    else FreePos(ns, lastfree - 1)
  }

  /** The node before `mp` in the chain from `i`. */
  function FindPrev(ns: seq<Node>, ghost rank: seq<nat>, i: nat, mp: nat): (r: nat)
    requires Links(ns, rank) && i < |ns| && i != mp && Reaches(ns, rank, i, mp)
    ensures r < |ns| && ns[r].next == mp
    decreases rank[i]
  {
    if ns[i].next == mp then i else FindPrev(ns, rank, ns[i].next, mp)
  }

  /** `slot` is the node whose value cell newkey returns. */
  datatype Placement = NoRoom | Placed(ns: seq<Node>, lastfree: int, slot: nat)

  /** newkey when it does not rehash. `dummy` says that the node array is the shared empty node. */
  function Place(h: Hash, ns: seq<Node>, ghost rank: seq<nat>, lastfree: int, dummy: bool, key: TValue): Placement
    requires Inv(h, ns, rank) && lastfree <= |ns| && (dummy ==> lastfree <= 0)
  {
    var mp := MainPosition(h, |ns|, key);
    if ns[mp].val == Nil && !dummy then Placed(ns[mp := ns[mp].(key := key)], lastfree, mp)
    else
      var (last, n) := FreePos(ns, lastfree);
      if n < 0 then NoRoom
      else
        var othern := MainPosition(h, |ns|, ns[mp].key);
        if othern != mp then
          assert ns[mp].key != Nil && Findable(h, ns, rank, mp);
          var prev := FindPrev(ns, rank, othern, mp);
          Placed(MoveAway(ns, prev, mp, n, key), last, mp)
        else
          Placed(ChainBehind(ns, mp, n, key), last, n)
  }

  /** The colliding node moves from `mp` to the free node `n`; `key` gets `mp`. */
  function MoveAway(ns: seq<Node>, prev: nat, mp: nat, n: nat, key: TValue): (ns': seq<Node>)
    requires prev < |ns| && mp < |ns| && n < |ns|
    ensures |ns'| == |ns|
  {
    ns[prev := ns[prev].(next := n)][n := ns[mp]][mp := Node(key, Nil, -1)]
  }

  /** `key` gets the free node `n`, linked right behind `mp`. */
  function ChainBehind(ns: seq<Node>, mp: nat, n: nat, key: TValue): (ns': seq<Node>)
    requires mp < |ns| && n < |ns|
    ensures |ns'| == |ns|
  {
    ns[n := Node(key, ns[n].val, ns[mp].next)][mp := ns[mp].(next := n)]
  }
}
