/** Saurus maps: map_get, map_insert and map_remove refine a finite map (src/vm/seq.c). */
module HashMapRefinement {
  import opened Options
  import opened HashTrie
  import opened HashTrieMap

  /** map_t; `hash` travels beside the key, as in the original. */
  datatype Map = Map(cnt: int, root: Node)

  ghost predicate ValidRoot(n: Node) {
    n.Empty? || Valid(n, [])
  }

  // ---------------------------------------------------------------- contents

  /** The entries of a trie. */
  ghost function Entries(n: Node): map<(int, Value), Value>
    decreases n
  {
    match n
    case Empty => map[]
    case Leaf(h, k, v) => map[(h, k) := v]
    case Collision(_, leaves) => EntriesOf(leaves)
    case Index(_, _, _, nodes) => EntriesOf(nodes)
    case Full(_, _, nodes) => EntriesOf(nodes)
  }

  ghost function EntriesOf(nodes: seq<Node>): map<(int, Value), Value>
    decreases nodes
  {
    if nodes == [] then map[] else Entries(nodes[0]) + EntriesOf(nodes[1..])
  }

  function Lookup(m: map<(int, Value), Value>, hash: int, key: Value): Option<Value> {
    if (hash, key) in m then Some(m[(hash, key)]) else None
  }

  /** An entry of the whole comes from one of the nodes. */
  lemma {:induction false} EntryFrom(nodes: seq<Node>, e: (int, Value)) returns (i: nat)
    requires e in EntriesOf(nodes)
    ensures i < |nodes| && e in Entries(nodes[i])
    decreases nodes
  {
    if e in Entries(nodes[0]) {
      i := 0;
    } else {
      i := EntryFrom(nodes[1..], e);
      i := i + 1;
    }
  }

  /** A node whose entry no other node has contributes it to the whole. */
  lemma {:induction false} EntryOf(nodes: seq<Node>, i: nat, e: (int, Value))
    requires i < |nodes| && e in Entries(nodes[i])
    requires forall j | 0 <= j < |nodes| && j != i :: e !in Entries(nodes[j])
    ensures e in EntriesOf(nodes) && EntriesOf(nodes)[e] == Entries(nodes[i])[e]
    decreases nodes
  {
    if i > 0 {
      assert nodes[1..][i - 1] == nodes[i];
      forall j | 0 <= j < |nodes[1..]| && j != i - 1 ensures e !in Entries(nodes[1..][j]) {
        assert nodes[1..][j] == nodes[j + 1];
      }
      EntryOf(nodes[1..], i - 1, e);
      assert e !in Entries(nodes[0]);
    } else {
      forall j | 0 <= j < |nodes[1..]| ensures e !in Entries(nodes[1..][j]) {
        assert nodes[1..][j] == nodes[j + 1];
      }
      NoEntry(nodes[1..], e);
    }
  }

  lemma {:induction false} NoEntry(nodes: seq<Node>, e: (int, Value))
    requires forall j | 0 <= j < |nodes| :: e !in Entries(nodes[j])
    ensures e !in EntriesOf(nodes)
    decreases nodes
  {
    if nodes != [] {
      NoEntry(nodes[1..], e);
    }
  }

  /** A trie's own lookup agrees with its entries, and its entries lie under its slices. */
  ghost predicate Agrees(n: Node, h: int, key: Value) {
    Find(n, h, key) == Lookup(Entries(n), h, key)
  }

  lemma CollisionAgrees(n: Node, prefix: seq<nat>, h: int, key: Value)
    requires n.Collision? && Valid(n, prefix)
    ensures Agrees(n, h, key) && ((h, key) in Entries(n) ==> Matches(h, prefix))
  {
    var leaves := n.leaves;
    if (h, key) in EntriesOf(leaves) {
      var i := EntryFrom(leaves, (h, key));
      assert LeafAt(leaves[i], n.hash);
    }
    var i := FindIndex(leaves, 0, h, key);
    if i != -1 {
      forall j | 0 <= j < |leaves| && j != i ensures (h, key) !in Entries(leaves[j]) {
        assert LeafAt(leaves[j], n.hash);
        assert leaves[if i < j then i else j].key != leaves[if i < j then j else i].key;
      }
      EntryOf(leaves, i, (h, key));
    }
  }

  lemma {:induction false} FindEntries(n: Node, prefix: seq<nat>, h: int, key: Value)
    requires Valid(n, prefix)
    ensures Agrees(n, h, key) && ((h, key) in Entries(n) ==> Matches(h, prefix))
    decreases n
  {
    if n.Collision? {
      CollisionAgrees(n, prefix, h, key);
    } else if n.Index? || n.Full? {
      Disassemble(n, prefix);
      var bitmap := ChildBits(n);
      forall k | k in bitmap
        ensures Child(bitmap, n.nodes, prefix, k) && ChildAgrees(bitmap, n.nodes, prefix, k, h, key)
      {
        assert Child(bitmap, n.nodes, prefix, k);
        FindEntries(n.nodes[IndexOf(bitmap, k)], prefix + [k], h, key);
        MatchesExtend(h, prefix, k);
      }
      BranchAgrees(n, prefix, h, key);
    }
  }

  ghost predicate ChildAgrees(bitmap: set<nat>, nodes: seq<Node>, prefix: seq<nat>, k: nat, h: int, key: Value) {
    && IndexOf(bitmap, k) < |nodes|
    && Agrees(nodes[IndexOf(bitmap, k)], h, key)
    && ((h, key) in Entries(nodes[IndexOf(bitmap, k)]) ==> Matches(h, prefix) && Mask(h, |prefix|) == k)
  }

  lemma BranchAgrees(n: Node, prefix: seq<nat>, h: int, key: Value)
    requires Valid(n, prefix) && (n.Index? || n.Full?) && Children(ChildBits(n), n.nodes, prefix)
    requires n == Assemble(ChildBits(n), n.nodes, |prefix|)
    requires forall k | k in ChildBits(n) :: ChildAgrees(ChildBits(n), n.nodes, prefix, k, h, key)
    ensures Agrees(n, h, key) && ((h, key) in Entries(n) ==> Matches(h, prefix))
  {
    var bitmap, nodes, e := ChildBits(n), n.nodes, (h, key);
    var slice := Mask(h, |prefix|);
    AssembleFind(bitmap, nodes, |prefix|, h, key);
    forall i: nat | i < |nodes| && e in Entries(nodes[i])
      ensures slice in bitmap && IndexOf(bitmap, slice) == i && Matches(h, prefix)
    {
      var k := BitAt(bitmap, i, 32);
      assert ChildAgrees(bitmap, nodes, prefix, k, h, key);
    }
    if e in EntriesOf(nodes) {
      var i := EntryFrom(nodes, e);
      assert ChildAgrees(bitmap, nodes, prefix, slice, h, key);
      EntryOf(nodes, i, e);
    } else if slice in bitmap {
      var i := IndexOf(bitmap, slice);
      assert ChildAgrees(bitmap, nodes, prefix, slice, h, key);
      if e in Entries(nodes[i]) {
        EntryOf(nodes, i, e);
      }
    }
  }

  // ---------------------------------------------------------------- the map operations

  ghost predicate ValidMap(m: Map) {
    ValidRoot(m.root) && m.cnt == |Entries(m.root)|
  }

  ghost function Contents(m: Map): map<(int, Value), Value> {
    Entries(m.root)
  }

  function CreateEmpty(): Map {
    Map(0, Empty)
  }

  function Get(m: Map, key: Value, hash: int): Option<Value> {
    Find(m.root, hash, key)
  }

  /** The set function of the root. */
  function SetRoot(m: Map, key: Value, hash: int, val: Value): SetResult
    requires ValidRoot(m.root) && Int32(hash)
  {
    if m.root.Empty? then SetResult(Leaf(hash, key, val), true, true) else SetNode(m.root, [], 0, hash, key, val)
  }

  function Insert(m: Map, key: Value, hash: int, val: Value): Map
    requires ValidRoot(m.root) && Int32(hash)
  {
    var r := SetRoot(m, key, hash, val);
    if !r.renewed then m else Map(if r.added then m.cnt + 1 else m.cnt, r.node)
  }

  function Remove(m: Map, key: Value, hash: int): Map
    requires ValidRoot(m.root)
  {
    var r := if m.root.Empty? then Some(m.root) else Without(m.root, [], hash, key);
    if r == Some(m.root) then m else if r.None? then CreateEmpty() else Map(m.cnt - 1, r.value)
  }

  function Length(m: Map): int {
    m.cnt
  }

  lemma RootAgrees(n: Node, h: int, key: Value)
    requires ValidRoot(n)
    ensures Find(n, h, key) == Lookup(Entries(n), h, key)
  {
    if !n.Empty? { FindEntries(n, [], h, key); }
  }

  /** Reading a map reads its contents. */
  lemma GetIsLookup(m: Map, key: Value, hash: int)
    requires ValidMap(m)
    ensures Get(m, key, hash) == Lookup(Contents(m), hash, key)
  {
    RootAgrees(m.root, hash, key);
  }

  lemma CardUpdate<K, V>(m: map<K, V>, k: K, v: V)
    ensures |m[k := v]| == |m| + if k in m then 0 else 1
  {
    assert m[k := v].Keys == m.Keys + {k};
  }

  lemma CardRemove<K, V>(m: map<K, V>, k: K)
    requires k in m
    ensures |m - {k}| == |m| - 1
  {
    assert (m - {k}).Keys == m.Keys - {k};
  }

  /** map_insert puts the entry in, leaves every other as it was, and counts distinct keys. */
  lemma InsertUpdates(m: Map, key: Value, hash: int, val: Value)
    requires ValidMap(m) && Int32(hash)
    ensures ValidMap(Insert(m, key, hash, val))
    ensures Contents(Insert(m, key, hash, val)) == Contents(m)[(hash, key) := val]
  {
    var e, after := (hash, key), Insert(m, key, hash, val);
    RootAgrees(m.root, hash, key);
    if !m.root.Empty? {
      SetNodeOk(m.root, [], hash, key, val);
      var r := SetNode(m.root, [], 0, hash, key, val);
      assert after.root == r.node;
      var target := Contents(m)[e := val];
      forall h: int, k: Value ensures Lookup(Contents(after), h, k) == Lookup(target, h, k) {
        assert Sets(m.root, hash, key, val, r, h, k);
        RootAgrees(m.root, h, k);
        RootAgrees(r.node, h, k);
      }
      SameLookups(Contents(after), target);
    }
    CardUpdate(Contents(m), e, val);
  }

  /** map_insert gives back the very same map if and only if the entry is there already and not in a collision
      node; an entry in a collision node is copied, with everything above it. */
  lemma InsertSameIff(m: Map, key: Value, hash: int, val: Value)
    requires ValidMap(m) && Int32(hash)
    ensures !SetRoot(m, key, hash, val).renewed
       <==> Lookup(Contents(m), hash, key) == Some(val) && !InCollision(m.root, hash)
  {
    RootAgrees(m.root, hash, key);
    if !m.root.Empty? { SetSameIff(m.root, [], hash, key, val); }
  }

  /** Two keys of one hash: putting either in again makes a new map, with the same contents. */
  lemma CollisionCopies(a: Value, b: Value, hash: int, val: Value)
    requires a != b && Int32(hash)
    ensures var m := Insert(Insert(CreateEmpty(), a, hash, val), b, hash, val);
      ValidMap(m) && SetRoot(m, a, hash, val).renewed && Contents(Insert(m, a, hash, val)) == Contents(m)
  {
    var m1 := Insert(CreateEmpty(), a, hash, val);
    InsertUpdates(CreateEmpty(), a, hash, val);
    InsertUpdates(m1, b, hash, val);
    var m := Insert(m1, b, hash, val);
    InsertUpdates(m, a, hash, val);
    assert Contents(m)[(hash, a) := val] == Contents(m);
    assert m.root == Collision(hash, [Leaf(hash, a, val), Leaf(hash, b, val)]);
  }

  lemma SameLookups(a: map<(int, Value), Value>, b: map<(int, Value), Value>)
    requires forall h: int, k: Value :: Lookup(a, h, k) == Lookup(b, h, k)
    ensures a == b
  {
    forall e ensures (e in a <==> e in b) && (e in a ==> a[e] == b[e]) {
      assert e == (e.0, e.1);
      assert Lookup(a, e.0, e.1) == Lookup(b, e.0, e.1);
    }
  }

  /** map_remove takes the entry out and nothing else; a map without the key is given back as it is. */
  lemma RemoveUpdates(m: Map, key: Value, hash: int)
    requires ValidMap(m)
    ensures ValidMap(Remove(m, key, hash))
    ensures Contents(Remove(m, key, hash)) == Contents(m) - {(hash, key)}
    ensures (hash, key) !in Contents(m) ==> Remove(m, key, hash) == m
  {
    var e, after := (hash, key), Remove(m, key, hash);
    RootAgrees(m.root, hash, key);
    if m.root.Empty? {
      assert Contents(m) - {e} == Contents(m);
    } else {
      WithoutNodeOk(m.root, [], hash, key);
      var r := Without(m.root, [], hash, key);
      assert Removes(m.root, hash, key, r, hash, key);
      var target := Contents(m) - {e};
      forall h: int, k: Value ensures Lookup(Contents(after), h, k) == Lookup(target, h, k) {
        assert Removes(m.root, hash, key, r, h, k);
        RootAgrees(m.root, h, k);
        RootAgrees(after.root, h, k);
      }
      SameLookups(Contents(after), target);
      if e in Contents(m) { CardRemove(Contents(m), e); }
    }
  }

  // ---------------------------------------------------------------- whole runs

  datatype Op = DoInsert(key: Value, hash: int, val: Value) | DoRemove(key: Value, hash: int)

  function Run(ops: seq<Op>): (m: Map)
    requires forall i | 0 <= i < |ops| :: Int32(ops[i].hash)
    ensures ValidMap(m)
  {
    if ops == [] then CreateEmpty()
    else
      var m, op := Run(ops[..|ops| - 1]), ops[|ops| - 1];
      match op
      case DoInsert(key, hash, val) => InsertUpdates(m, key, hash, val); Insert(m, key, hash, val)
      case DoRemove(key, hash) => RemoveUpdates(m, key, hash); Remove(m, key, hash)
  }

  function Meaning(ops: seq<Op>): map<(int, Value), Value> {
    if ops == [] then map[]
    else
      var m, op := Meaning(ops[..|ops| - 1]), ops[|ops| - 1];
      match op
      case DoInsert(key, hash, val) => m[(hash, key) := val]
      case DoRemove(key, hash) => m - {(hash, key)}
  }

  /** Any run of insertions and removals from the empty map reads, and counts, as the finite map it
      stands for. */
  lemma {:induction false} RunRefines(ops: seq<Op>, key: Value, hash: int)
    requires forall i | 0 <= i < |ops| :: Int32(ops[i].hash)
    ensures Contents(Run(ops)) == Meaning(ops)
    ensures Get(Run(ops), key, hash) == Lookup(Meaning(ops), hash, key)
    ensures Length(Run(ops)) == |Meaning(ops)|
  {
    if ops != [] {
      var before, op := ops[..|ops| - 1], ops[|ops| - 1];
      RunRefines(before, key, hash);
      match op
      case DoInsert(k, h, v) => InsertUpdates(Run(before), k, h, v);
      case DoRemove(k, h) => RemoveUpdates(Run(before), k, h);
    }
    GetIsLookup(Run(ops), key, hash);
  }

  // ---------------------------------------------------------------- keys with hashes of their own

  /** Every operation comes with the hash of its key, as in the machine. */
  ghost predicate Hashed(ops: seq<Op>, hashOf: Value -> int) {
    forall i | 0 <= i < |ops| :: ops[i].hash == hashOf(ops[i].key) && Int32(ops[i].hash)
  }

  /** What a run stands for when keys have their own hashes: a finite map from keys. */
  function KeyMeaning(ops: seq<Op>): map<Value, Value> {
    if ops == [] then map[]
    else
      var m, op := KeyMeaning(ops[..|ops| - 1]), ops[|ops| - 1];
      match op
      case DoInsert(key, _, val) => m[key := val]
      case DoRemove(key, _) => m - {key}
  }

  function LookupKey(m: map<Value, Value>, key: Value): Option<Value> {
    if key in m then Some(m[key]) else None
  }

  ghost predicate PairAt(m: map<(int, Value), Value>, keys: map<Value, Value>, hashOf: Value -> int, h: int, k: Value) {
    Lookup(m, h, k) == if h == hashOf(k) then LookupKey(keys, k) else None
  }

  /** The pairs are the keys with their hashes. */
  ghost predicate Paired(m: map<(int, Value), Value>, keys: map<Value, Value>, hashOf: Value -> int) {
    |m| == |keys| && forall h: int, k: Value :: PairAt(m, keys, hashOf, h, k)
  }

  lemma PairedInsert(m: map<(int, Value), Value>, keys: map<Value, Value>, hashOf: Value -> int, hash: int, key: Value,
                     val: Value)
    requires Paired(m, keys, hashOf) && hash == hashOf(key)
    ensures Paired(m[(hash, key) := val], keys[key := val], hashOf)
  {
    assert PairAt(m, keys, hashOf, hash, key);
    CardUpdate(m, (hash, key), val);
    CardUpdate(keys, key, val);
    var m', keys' := m[(hash, key) := val], keys[key := val];
    forall h: int, k: Value ensures PairAt(m', keys', hashOf, h, k) {
      assert PairAt(m, keys, hashOf, h, k);
    }
  }

  lemma PairLeft(m: map<(int, Value), Value>, keys: map<Value, Value>, hashOf: Value -> int, hash: int, key: Value,
                 h: int, k: Value, m': map<(int, Value), Value>, keys': map<Value, Value>)
    requires PairAt(m, keys, hashOf, h, k) && hash == hashOf(key)
    requires m' == m - {(hash, key)} && keys' == keys - {key}
    ensures PairAt(m', keys', hashOf, h, k)
  {
    assert (h, k) in m' <==> (h, k) in m && (h, k) != (hash, key);
    assert k in keys' <==> k in keys && k != key;
  }

  lemma PairedRemove(m: map<(int, Value), Value>, keys: map<Value, Value>, hashOf: Value -> int, hash: int, key: Value)
    requires Paired(m, keys, hashOf) && hash == hashOf(key)
    ensures Paired(m - {(hash, key)}, keys - {key}, hashOf)
  {
    assert PairAt(m, keys, hashOf, hash, key);
    var m', keys' := m - {(hash, key)}, keys - {key};
    CardLeft(m, (hash, key));
    CardLeft(keys, key);
    forall h: int, k: Value ensures PairAt(m', keys', hashOf, h, k) {
      assert PairAt(m, keys, hashOf, h, k);
      PairLeft(m, keys, hashOf, hash, key, h, k, m', keys');
    }
  }

  lemma CardLeft<K, V>(m: map<K, V>, k: K)
    ensures |m - {k}| == |m| - if k in m then 1 else 0
  {
    if k in m { CardRemove(m, k); } else { assert m - {k} == m; }
  }

  lemma {:induction false} KeysAlone(ops: seq<Op>, hashOf: Value -> int)
    requires Hashed(ops, hashOf)
    ensures Paired(Meaning(ops), KeyMeaning(ops), hashOf)
  {
    if ops != [] {
      var before, op := ops[..|ops| - 1], ops[|ops| - 1];
      KeysAlone(before, hashOf);
      match op
      case DoInsert(key, hash, val) => PairedInsert(Meaning(before), KeyMeaning(before), hashOf, hash, key, val);
      case DoRemove(key, hash) => PairedRemove(Meaning(before), KeyMeaning(before), hashOf, hash, key);
    }
  }

  /** With a hash function of the key, whatever keys it lets collide, a run reads as a finite map from keys, and
      counts the keys. */
  lemma RunRefinesKeys(ops: seq<Op>, hashOf: Value -> int, key: Value)
    requires Hashed(ops, hashOf)
    ensures Get(Run(ops), key, hashOf(key)) == LookupKey(KeyMeaning(ops), key)
    ensures Length(Run(ops)) == |KeyMeaning(ops)|
  {
    RunRefines(ops, key, hashOf(key));
    KeysAlone(ops, hashOf);
    assert PairAt(Meaning(ops), KeyMeaning(ops), hashOf, hashOf(key), key);
  }
}
