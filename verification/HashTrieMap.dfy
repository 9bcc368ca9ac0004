/** The hash trie refines a finite map from (hash, key) pairs (src/vm/seq.c). */
module HashTrieMap {
  import opened Options
  import opened HashTrie

  // ---------------------------------------------------------------- children by bitmap

  /** Every bit of the bitmap is the bit of exactly one child. */
  lemma {:induction false} BitAt(bitmap: set<nat>, i: nat, bound: nat) returns (k: nat)
    requires (forall j | j in bitmap :: j < bound) && i < |bitmap|
    ensures k in bitmap && IndexOf(bitmap, k) == i
    decreases bound
  {
    var top := bound - 1;
    var rest := bitmap - {top};
    if top !in bitmap {
      k := BitAt(bitmap, i, top);
    } else if i == |rest| {
      k := top;
      assert Below(bitmap, top) == rest;
    } else {
      k := BitAt(rest, i, top);
      assert Below(rest, k) == Below(bitmap, k);
    }
  }

  ghost predicate Child(bitmap: set<nat>, nodes: seq<Node>, prefix: seq<nat>, k: nat) {
    IndexOf(bitmap, k) < |nodes| && Valid(nodes[IndexOf(bitmap, k)], prefix + [k])
  }

  ghost predicate Children(bitmap: set<nat>, nodes: seq<Node>, prefix: seq<nat>) {
    && bitmap <= ALLBITS && |nodes| == |bitmap| && bitmap != {} && |prefix| <= 6
    && (forall k | k in bitmap :: Child(bitmap, nodes, prefix, k))
  }

  ghost function Assemble(bitmap: set<nat>, nodes: seq<Node>, level: nat): Node
    requires nodes != []
  {
    if bitmap == ALLBITS then CreateFull(nodes, 5 * level) else CreateIndex(bitmap, nodes, 5 * level)
  }

  lemma HeadHash(bitmap: set<nat>, nodes: seq<Node>, prefix: seq<nat>)
    requires Children(bitmap, nodes, prefix)
    ensures nodes != [] && Int32(GetHash(nodes[0])) && Matches(GetHash(nodes[0]), prefix)
  {
    var k := BitAt(bitmap, 0, 32);
    assert Child(bitmap, nodes, prefix, k);
    ValidHash(nodes[0], prefix + [k]);
    MatchesExtend(GetHash(nodes[0]), prefix, k);
  }

  /** create_idx_node2: all bits set makes a full node. */
  lemma AssembleValid(bitmap: set<nat>, nodes: seq<Node>, prefix: seq<nat>)
    requires Children(bitmap, nodes, prefix)
    ensures nodes != [] && Valid(Assemble(bitmap, nodes, |prefix|), prefix)
  {
    HeadHash(bitmap, nodes, prefix);
    if bitmap == ALLBITS {
      AllBitsCard();
      forall k: nat | k < 32 ensures Valid(nodes[k], prefix + [k]) {
        IndexAll(k);
        assert Child(bitmap, nodes, prefix, k);
      }
    } else {
      forall k | k in bitmap
        ensures IndexOf(bitmap, k) < |nodes| && Valid(nodes[IndexOf(bitmap, k)], prefix + [k])
      {
        assert Child(bitmap, nodes, prefix, k);
      }
    }
  }

  /** Index and full nodes alike look a key up in the child of its bit. */
  lemma AssembleFind(bitmap: set<nat>, nodes: seq<Node>, level: nat, h: int, key: Value)
    requires |nodes| == |bitmap| && nodes != []
    ensures Find(Assemble(bitmap, nodes, level), h, key) == FindChild(bitmap, level, nodes, h, key)
  {
    if bitmap == ALLBITS {
      AllBitsCard();
      IndexAll(Mask(h, level));
    }
  }

  lemma Disassemble(n: Node, prefix: seq<nat>)
    requires Valid(n, prefix) && (n.Index? || n.Full?)
    ensures Children(ChildBits(n), n.nodes, prefix) && n.shift == 5 * |prefix|
    ensures n == Assemble(ChildBits(n), n.nodes, |prefix|)
  {
    var bitmap := ChildBits(n);
    if n.Full? {
      AllBitsCard();
      assert 0 in ALLBITS;
    }
    forall k | k in bitmap ensures Child(bitmap, n.nodes, prefix, k) {
      if n.Full? { IndexAll(k); }
    }
  }

  lemma OtherIndex(bitmap: set<nat>, j: nat, k: nat)
    requires j in bitmap && k in bitmap && j != k
    ensures IndexOf(bitmap, j) != IndexOf(bitmap, k)
  {
    if j < k { IndexOrder(bitmap, j, k); } else { IndexOrder(bitmap, k, j); }
  }

  lemma ReplaceChild(bitmap: set<nat>, nodes: seq<Node>, prefix: seq<nat>, k: nat, child: Node)
    requires Children(bitmap, nodes, prefix) && k in bitmap && Valid(child, prefix + [k])
    ensures IndexOf(bitmap, k) < |nodes|
    ensures Children(bitmap, nodes[IndexOf(bitmap, k) := child], prefix)
  {
    assert Child(bitmap, nodes, prefix, k);
    var more := nodes[IndexOf(bitmap, k) := child];
    forall j | j in bitmap ensures Child(bitmap, more, prefix, j) {
      assert Child(bitmap, nodes, prefix, j);
      if j != k { OtherIndex(bitmap, j, k); }
    }
  }

  lemma ReplaceFind(bitmap: set<nat>, nodes: seq<Node>, level: nat, k: nat, child: Node, h: int, key: Value)
    requires k in bitmap && IndexOf(bitmap, k) < |nodes|
    ensures FindChild(bitmap, level, nodes[IndexOf(bitmap, k) := child], h, key)
         == if Mask(h, level) == k then Find(child, h, key) else FindChild(bitmap, level, nodes, h, key)
  {
    var j := Mask(h, level);
    if j != k && j in bitmap { OtherIndex(bitmap, j, k); }
  }

  function InsertAt(nodes: seq<Node>, i: nat, n: Node): seq<Node>
    requires i <= |nodes|
  {
    nodes[..i] + [n] + nodes[i..]
  }

  /** Setting bit `k` moves exactly the children above it. */
  lemma InsertIndex(bitmap: set<nat>, nodes: seq<Node>, k: nat, child: Node, j: nat)
    requires |nodes| == |bitmap| && k !in bitmap && j in bitmap + {k}
    ensures IndexOf(bitmap, k) <= |nodes| && IndexOf(bitmap, j) <= |nodes|
    ensures IndexOf(bitmap + {k}, j) < |nodes| + 1
    ensures j != k ==> IndexOf(bitmap, j) < |nodes|
    ensures InsertAt(nodes, IndexOf(bitmap, k), child)[IndexOf(bitmap + {k}, j)]
         == if j == k then child else nodes[IndexOf(bitmap, j)]
  {
    IndexBound(bitmap, k);
    IndexBound(bitmap, j);
    IndexAdd(bitmap, k, j);
    if j < k {
      IndexOrder(bitmap, j, k);
    } else if k < j {
      IndexOrder(bitmap + {k}, k, j);
      IndexAdd(bitmap, k, k);
    }
  }

  lemma InsertChild(bitmap: set<nat>, nodes: seq<Node>, prefix: seq<nat>, k: nat, child: Node)
    requires Children(bitmap, nodes, prefix) && k in ALLBITS && k !in bitmap && Valid(child, prefix + [k])
    ensures IndexOf(bitmap, k) <= |nodes|
    ensures Children(bitmap + {k}, InsertAt(nodes, IndexOf(bitmap, k), child), prefix)
  {
    IndexBound(bitmap, k);
    var more := InsertAt(nodes, IndexOf(bitmap, k), child);
    forall j | j in bitmap + {k} ensures Child(bitmap + {k}, more, prefix, j) {
      InsertIndex(bitmap, nodes, k, child, j);
      if j != k { assert Child(bitmap, nodes, prefix, j); }
    }
  }

  lemma InsertFind(bitmap: set<nat>, nodes: seq<Node>, level: nat, k: nat, child: Node, h: int, key: Value)
    requires |nodes| == |bitmap| && k !in bitmap
    ensures IndexOf(bitmap, k) <= |nodes|
    ensures FindChild(bitmap + {k}, level, InsertAt(nodes, IndexOf(bitmap, k), child), h, key)
         == if Mask(h, level) == k then Find(child, h, key) else FindChild(bitmap, level, nodes, h, key)
  {
    IndexBound(bitmap, k);
    var j := Mask(h, level);
    if j in bitmap + {k} { InsertIndex(bitmap, nodes, k, child, j); }
  }

  lemma RemoveIndex(bitmap: set<nat>, nodes: seq<Node>, k: nat, j: nat)
    requires |nodes| == |bitmap| && k in bitmap && j in bitmap && j != k
    ensures IndexOf(bitmap, k) < |nodes| && IndexOf(bitmap, j) < |nodes| && IndexOf(bitmap - {k}, j) < |nodes| - 1
    ensures RemoveAt(nodes, IndexOf(bitmap, k))[IndexOf(bitmap - {k}, j)] == nodes[IndexOf(bitmap, j)]
  {
    IndexBound(bitmap, k);
    IndexBound(bitmap, j);
    IndexRemove(bitmap, k, j);
    if j < k { IndexOrder(bitmap, j, k); } else { IndexOrder(bitmap, k, j); }
  }

  lemma RemoveChild(bitmap: set<nat>, nodes: seq<Node>, prefix: seq<nat>, k: nat)
    requires Children(bitmap, nodes, prefix) && k in bitmap && bitmap != {k}
    ensures IndexOf(bitmap, k) < |nodes|
    ensures Children(bitmap - {k}, RemoveAt(nodes, IndexOf(bitmap, k)), prefix)
  {
    IndexBound(bitmap, k);
    var fewer := RemoveAt(nodes, IndexOf(bitmap, k));
    assert bitmap - {k} != {} by { CardOne(bitmap, k); }
    forall j | j in bitmap - {k} ensures Child(bitmap - {k}, fewer, prefix, j) {
      RemoveIndex(bitmap, nodes, k, j);
      assert Child(bitmap, nodes, prefix, j);
    }
  }

  lemma RemoveFind(bitmap: set<nat>, nodes: seq<Node>, level: nat, k: nat, h: int, key: Value)
    requires |nodes| == |bitmap| && k in bitmap
    ensures IndexOf(bitmap, k) < |nodes|
    ensures FindChild(bitmap - {k}, level, RemoveAt(nodes, IndexOf(bitmap, k)), h, key)
         == if Mask(h, level) == k then None else FindChild(bitmap, level, nodes, h, key)
  {
    IndexBound(bitmap, k);
    var j := Mask(h, level);
    if j in bitmap && j != k { RemoveIndex(bitmap, nodes, k, j); }
  }

  // ---------------------------------------------------------------- set

  /** What setting a key must do to the lookup of (h, k). */
  ghost predicate Sets(n: Node, hash: int, key: Value, val: Value, r: SetResult, h: int, k: Value) {
    Find(r.node, h, k) == if h == hash && k == key then Some(val) else Find(n, h, k)
  }

  ghost predicate SetOk(n: Node, prefix: seq<nat>, hash: int, key: Value, val: Value, r: SetResult) {
    && Valid(r.node, prefix)
    && (r.added <==> Find(n, hash, key).None?)
    && (forall h: int, k: Value :: Sets(n, hash, key, val, r, h, k))
  }

  lemma LeafSet(n: Node, prefix: seq<nat>, hash: int, key: Value, val: Value)
    requires n.Leaf? && Valid(n, prefix) && n.hash == hash && Int32(hash) && Matches(hash, prefix)
    ensures SetOk(n, prefix, hash, key, val, SetNode(n, prefix, 5 * |prefix|, hash, key, val))
  {
    var r := SetNode(n, prefix, 5 * |prefix|, hash, key, val);
    forall h: int, k: Value ensures Sets(n, hash, key, val, r, h, k) {
      if r.node.Collision? {
        var i := FindIndex(r.node.leaves, 0, h, k);
        assert r.node.leaves[0] == n && r.node.leaves[1] == Leaf(hash, key, val);
      }
    }
  }

  lemma CollisionSet(n: Node, prefix: seq<nat>, hash: int, key: Value, val: Value)
    requires n.Collision? && Valid(n, prefix) && n.hash == hash
    ensures SetOk(n, prefix, hash, key, val, SetNode(n, prefix, 5 * |prefix|, hash, key, val))
  {
    var r := SetNode(n, prefix, 5 * |prefix|, hash, key, val);
    var at := FindIndex(n.leaves, 0, hash, key);
    assert r.node.Collision?;
    assert Valid(r.node, prefix);
    forall h: int, k: Value ensures Sets(n, hash, key, val, r, h, k) {
      var i := FindIndex(n.leaves, 0, h, k);
      if h == hash && k == key {
        assert r.node.leaves[if at != -1 then at else |n.leaves|] == Leaf(hash, key, val);
      } else if i != -1 {
        assert r.node.leaves[i] == n.leaves[i];
      }
    }
  }

  lemma {:induction false} IndexSetOk(n: Node, prefix: seq<nat>, hash: int, key: Value, val: Value)
    requires n.Index? && Valid(n, prefix) && Int32(hash) && Matches(hash, prefix)
    ensures SetOk(n, prefix, hash, key, val, IndexSet(n, prefix, 5 * |prefix|, hash, key, val))
    decreases 7 - |prefix|, 0, 1
  {
    var k := Mask(hash, |prefix|);
    if k in n.bitmap { BranchSetOk(n, prefix, k, hash, key, val); } else { IndexSetNew(n, prefix, hash, key, val); }
  }

  lemma {:induction false} BranchSetOk(n: Node, prefix: seq<nat>, k: nat, hash: int, key: Value, val: Value)
    requires (n.Index? || n.Full?) && Valid(n, prefix) && Int32(hash) && Matches(hash, prefix)
    requires k == Mask(hash, |prefix|) && k in ChildBits(n)
    ensures SetOk(n, prefix, hash, key, val, SetNode(n, prefix, 5 * |prefix|, hash, key, val))
    decreases 7 - |prefix|, 0, 0
  {
    Disassemble(n, prefix);
    assert Child(ChildBits(n), n.nodes, prefix, k);
    MatchesExtend(hash, prefix, k);
    var child := n.nodes[IndexOf(ChildBits(n), k)];
    SetNodeOk(child, prefix + [k], hash, key, val);
    ReplacedChild(n, prefix, k, hash, key, val, SetNode(child, prefix + [k], 5 * |prefix| + 5, hash, key, val));
    SetChildShape(n, prefix, k, hash, key, val);
  }

  lemma IndexSetNew(n: Node, prefix: seq<nat>, hash: int, key: Value, val: Value)
    requires n.Index? && Valid(n, prefix) && Int32(hash) && Matches(hash, prefix)
    requires Mask(hash, |prefix|) !in n.bitmap
    ensures SetOk(n, prefix, hash, key, val, IndexSet(n, prefix, 5 * |prefix|, hash, key, val))
  {
    var k := Mask(hash, |prefix|);
    InsertedChild(n, prefix, k, hash, key, val);
    SetNewShape(n, prefix, k, hash, key, val);
  }

  lemma SetNewShape(n: Node, prefix: seq<nat>, k: nat, hash: int, key: Value, val: Value)
    requires n.Index? && Valid(n, prefix) && k !in n.bitmap && k == Mask(hash, |prefix|)
    requires Int32(hash) && Matches(hash, prefix)
    ensures IndexOf(n.bitmap, k) <= |n.nodes|
    ensures IndexSet(n, prefix, 5 * |prefix|, hash, key, val)
         == SetResult(Assemble(n.bitmap + {k}, InsertAt(n.nodes, IndexOf(n.bitmap, k), Leaf(hash, key, val)),
             |prefix|), true, true)
  {
    IndexBound(n.bitmap, k);
    assert 5 * |prefix| / 5 == |prefix|;
  }

  /** A new leaf in the place of its bit. */
  lemma InsertedChild(n: Node, prefix: seq<nat>, k: nat, hash: int, key: Value, val: Value)
    requires n.Index? && Valid(n, prefix) && k !in n.bitmap && k == Mask(hash, |prefix|)
    requires Int32(hash) && Matches(hash, prefix)
    ensures IndexOf(n.bitmap, k) <= |n.nodes|
    ensures SetOk(n, prefix, hash, key, val,
                  SetResult(Assemble(n.bitmap + {k}, InsertAt(n.nodes, IndexOf(n.bitmap, k), Leaf(hash, key, val)),
                      |prefix|), true, true))
  {
    var leaf := Leaf(hash, key, val);
    var bitmap := n.bitmap;
    Disassemble(n, prefix);
    MatchesExtend(hash, prefix, k);
    InsertChild(bitmap, n.nodes, prefix, k, leaf);
    var more := InsertAt(n.nodes, IndexOf(bitmap, k), leaf);
    AssembleValid(bitmap + {k}, more, prefix);
    var r := SetResult(Assemble(bitmap + {k}, more, |prefix|), true, true);
    assert Find(n, hash, key).None? by { AssembleFind(bitmap, n.nodes, |prefix|, hash, key); }
    forall h: int, x: Value ensures Sets(n, hash, key, val, r, h, x) {
      AssembleFind(bitmap, n.nodes, |prefix|, h, x);
      AssembleFind(bitmap + {k}, more, |prefix|, h, x);
      InsertFind(bitmap, n.nodes, |prefix|, k, leaf, h, x);
    }
  }

  /** Replacing the child of the key's own slice by its updated version updates the whole node. */
  lemma ReplacedChild(n: Node, prefix: seq<nat>, k: nat, hash: int, key: Value, val: Value, r: SetResult)
    requires Valid(n, prefix) && (n.Index? || n.Full?) && k in ChildBits(n) && k == Mask(hash, |prefix|)
    requires IndexOf(ChildBits(n), k) < |n.nodes|
    requires SetOk(n.nodes[IndexOf(ChildBits(n), k)], prefix + [k], hash, key, val, r)
    ensures SetOk(n, prefix, hash, key, val,
                  SetResult(Assemble(ChildBits(n), n.nodes[IndexOf(ChildBits(n), k) := r.node], |prefix|), r.added,
                            r.renewed))
  {
    var bitmap := ChildBits(n);
    var i := IndexOf(bitmap, k);
    var more := n.nodes[i := r.node];
    Disassemble(n, prefix);
    ReplaceChild(bitmap, n.nodes, prefix, k, r.node);
    AssembleValid(bitmap, more, prefix);
    var whole := SetResult(Assemble(bitmap, more, |prefix|), r.added, r.renewed);
    AssembleFind(bitmap, n.nodes, |prefix|, hash, key);
    forall h: int, x: Value ensures Sets(n, hash, key, val, whole, h, x) {
      AssembleFind(bitmap, n.nodes, |prefix|, h, x);
      AssembleFind(bitmap, more, |prefix|, h, x);
      ReplaceFind(bitmap, n.nodes, |prefix|, k, r.node, h, x);
      assert Sets(n.nodes[i], hash, key, val, r, h, x);
    }
  }

  /** A child that comes back unchanged leaves the node as it was, so every set below a present child
      rebuilds the node around the new child. */
  lemma SetChildShape(n: Node, prefix: seq<nat>, k: nat, hash: int, key: Value, val: Value)
    requires Valid(n, prefix) && (n.Index? || n.Full?) && k in ChildBits(n) && k == Mask(hash, |prefix|)
    requires Int32(hash) && Matches(hash, prefix) && Matches(hash, prefix + [k])
    requires Children(ChildBits(n), n.nodes, prefix)
    ensures IndexOf(ChildBits(n), k) < |n.nodes| && Valid(n.nodes[IndexOf(ChildBits(n), k)], prefix + [k])
    ensures var i := IndexOf(ChildBits(n), k);
      var r := SetNode(n.nodes[i], prefix + [k], 5 * |prefix| + 5, hash, key, val);
      SetNode(n, prefix, 5 * |prefix|, hash, key, val)
        == SetResult(Assemble(ChildBits(n), n.nodes[i := r.node], |prefix|), r.added, r.renewed)
  {
    var i := IndexOf(ChildBits(n), k);
    assert Child(ChildBits(n), n.nodes, prefix, k);
    Disassemble(n, prefix);
    if n.Full? { IndexAll(k); }
    var r := SetNode(n.nodes[i], prefix + [k], 5 * |prefix| + 5, hash, key, val);
    assert n.nodes[i := n.nodes[i]] == n.nodes;
  }

  lemma {:induction false} SplitOk(n: Node, prefix: seq<nat>, hash: int, key: Value, val: Value)
    requires (n.Leaf? || n.Collision?) && Valid(n, prefix) && n.hash != hash && Int32(hash) && Matches(hash, prefix)
    ensures SetOk(n, prefix, hash, key, val, Split(n, prefix, 5 * |prefix|, hash, key, val))
    decreases 7 - |prefix|, 1
  {
    SplitValid(n, prefix, hash);
    var k := Mask(n.hash, |prefix|);
    var single := CreateIndex({k}, [n], 5 * |prefix|);
    IndexSetOk(single, prefix, hash, key, val);
    var r := Split(n, prefix, 5 * |prefix|, hash, key, val);
    assert Below({k}, k) == {};
    assert Find(single, hash, key) == Find(n, hash, key);
    forall h: int, x: Value ensures Sets(n, hash, key, val, r, h, x) {
      assert Sets(single, hash, key, val, IndexSet(single, prefix, 5 * |prefix|, hash, key, val), h, x);
      assert h == n.hash || Find(n, h, x) == None;
      assert Find(single, h, x) == Find(n, h, x);
    }
  }

  /** Setting a key changes the lookup of that key and of no other, whatever the shape of the trie,
      and reports an added leaf exactly when the key was absent. */
  lemma {:induction false} SetNodeOk(n: Node, prefix: seq<nat>, hash: int, key: Value, val: Value)
    requires Valid(n, prefix) && Int32(hash) && Matches(hash, prefix)
    ensures SetOk(n, prefix, hash, key, val, SetNode(n, prefix, 5 * |prefix|, hash, key, val))
    decreases 7 - |prefix|, 2
  {
    match n
    case Leaf(h, _,
        _) => if h == hash { LeafSet(n, prefix, hash, key, val); } else { SplitOk(n, prefix, hash, key, val); }
    case Collision(h,
        _) => if h == hash { CollisionSet(n, prefix, hash, key, val); } else { SplitOk(n, prefix, hash, key, val); }
    case Index(_, _, _, _) => IndexSetOk(n, prefix, hash, key, val);
    case Full(_, _, _) => BranchSetOk(n, prefix, Mask(hash, |prefix|), hash, key, val);
  }

  // ---------------------------------------------------------------- when a set makes nothing new

  /** The hash leads to a collision node. */
  predicate InCollision(n: Node, hash: int)
    decreases n
  {
    match n
    case Empty => false
    case Leaf(_, _, _) => false
    case Collision(h, _) => h == hash
    case Index(bitmap, shift, _, nodes) =>
      var k := Mask(hash, shift / 5);
      k in bitmap && IndexOf(bitmap, k) < |nodes| && InCollision(nodes[IndexOf(bitmap, k)], hash)
    case Full(shift, _, nodes) =>
      var k := Mask(hash, shift / 5);
      k < |nodes| && InCollision(nodes[k], hash)
  }

  /** Setting a key gives back the very same node if and only if the key had that value, in a leaf of its own:
      in a collision node the new value is compared with the leaf and not with its value. */
  lemma {:induction false} SetSameIff(n: Node, prefix: seq<nat>, hash: int, key: Value, val: Value)
    requires Valid(n, prefix) && Int32(hash) && Matches(hash, prefix)
    ensures !SetNode(n, prefix, 5 * |prefix|, hash, key, val).renewed
       <==> Find(n, hash, key) == Some(val) && !InCollision(n, hash)
    decreases n
  {
    if n.Index? || n.Full? {
      var k := Mask(hash, |prefix|);
      Disassemble(n, prefix);
      if k in ChildBits(n) {
        assert Child(ChildBits(n), n.nodes, prefix, k);
        MatchesExtend(hash, prefix, k);
        var i, deeper := IndexOf(ChildBits(n), k), prefix + [k];
        SetSameIff(n.nodes[i], deeper, hash, key, val);
        assert 5 * |deeper| == 5 * |prefix| + 5;
        var r := SetNode(n.nodes[i], deeper, 5 * |deeper|, hash, key, val);
        PresentSame(n, prefix, k, n.nodes[i], r, hash, key, val);
      } else {
        AbsentSame(n, prefix, k, hash, key, val);
      }
    } else {
      LeafSame(n, prefix, hash, key, val);
    }
  }

  lemma LeafSame(n: Node, prefix: seq<nat>, hash: int, key: Value, val: Value)
    requires (n.Leaf? || n.Collision?) && Valid(n, prefix) && Int32(hash) && Matches(hash, prefix)
    ensures !SetNode(n, prefix, 5 * |prefix|, hash, key, val).renewed
       <==> Find(n, hash, key) == Some(val) && !InCollision(n, hash)
  {
  }

  lemma AbsentSame(n: Node, prefix: seq<nat>, k: nat, hash: int, key: Value, val: Value)
    requires Valid(n, prefix) && (n.Index? || n.Full?) && k !in ChildBits(n) && k == Mask(hash, |prefix|)
    requires Int32(hash) && Matches(hash, prefix)
    ensures SetNode(n, prefix, 5 * |prefix|, hash, key, val).renewed
    ensures Find(n, hash, key).None? && !InCollision(n, hash)
  {
    BranchPlace(n, prefix, k, hash, key);
    SetNewShape(n, prefix, k, hash, key, val);
  }

  lemma PresentSame(n: Node, prefix: seq<nat>, k: nat, child: Node, r: SetResult, hash: int, key: Value, val: Value)
    requires Valid(n, prefix) && (n.Index? || n.Full?) && k in ChildBits(n) && k == Mask(hash, |prefix|)
    requires Int32(hash) && Matches(hash, prefix) && Matches(hash, prefix + [k])
    requires Children(ChildBits(n), n.nodes, prefix) && IndexOf(ChildBits(n), k) < |n.nodes|
    requires child == n.nodes[IndexOf(ChildBits(n), k)] && Valid(child, prefix + [k])
    requires r == SetNode(child, prefix + [k], 5 * |prefix| + 5, hash, key, val)
    requires !r.renewed <==> Find(child, hash, key) == Some(val) && !InCollision(child, hash)
    ensures !SetNode(n, prefix, 5 * |prefix|, hash, key, val).renewed
       <==> Find(n, hash, key) == Some(val) && !InCollision(n, hash)
  {
    SetChildShape(n, prefix, k, hash, key, val);
    BranchPlace(n, prefix, k, hash, key);
  }

  /** Where a branch looks for a key. */
  lemma BranchPlace(n: Node, prefix: seq<nat>, k: nat, hash: int, key: Value)
    requires Valid(n, prefix) && (n.Index? || n.Full?) && k == Mask(hash, |prefix|)
    ensures k !in ChildBits(n) ==> n.Index? && Find(n, hash, key).None? && !InCollision(n, hash)
    ensures k in ChildBits(n) ==> IndexOf(ChildBits(n), k) < |n.nodes|
    ensures k in ChildBits(n) ==>
      && Find(n, hash, key) == Find(n.nodes[IndexOf(ChildBits(n), k)], hash, key)
      && InCollision(n, hash) == InCollision(n.nodes[IndexOf(ChildBits(n), k)], hash)
  {
    assert 5 * |prefix| / 5 == |prefix|;
    if n.Full? { IndexAll(k); }
    if k in ChildBits(n) { IndexBound(ChildBits(n), k); }
  }

  // ---------------------------------------------------------------- without

  function FindIn(r: Option<Node>, h: int, k: Value): Option<Value> {
    if r.None? then None else Find(r.value, h, k)
  }

  /** What removing a key must do to the lookup of (h, k). */
  ghost predicate Removes(n: Node, hash: int, key: Value, r: Option<Node>, h: int, k: Value) {
    FindIn(r, h, k) == if h == hash && k == key then None else Find(n, h, k)
  }

  ghost predicate WithoutOk(n: Node, prefix: seq<nat>, hash: int, key: Value, r: Option<Node>) {
    && (r.Some? ==> Valid(r.value, prefix))
    && (Find(n, hash, key).None? ==> r == Some(n))
    && (forall h: int, k: Value :: Removes(n, hash, key, r, h, k))
  }

  lemma LeafWithout(n: Node, prefix: seq<nat>, hash: int, key: Value)
    requires n.Leaf? && Valid(n, prefix)
    ensures WithoutOk(n, prefix, hash, key, Without(n, prefix, hash, key))
  {
  }

  lemma AbsentChild(n: Node, prefix: seq<nat>, k: nat, hash: int, key: Value)
    requires n.Index? && Valid(n, prefix) && k !in n.bitmap && k == Mask(hash, |prefix|)
    ensures WithoutOk(n, prefix, hash, key, Without(n, prefix, hash, key))
  {
    assert Without(n, prefix, hash, key) == Some(n) && Find(n, hash, key) == None;
    NothingRemoved(n, prefix, hash, key);
  }

  /** Removing what is not there. */
  lemma NothingRemoved(n: Node, prefix: seq<nat>, hash: int, key: Value)
    requires Valid(n, prefix) && Find(n, hash, key) == None
    ensures WithoutOk(n, prefix, hash, key, Some(n))
  {
    forall h: int, k: Value ensures Removes(n, hash, key, Some(n), h, k) {
    }
  }

  lemma CollisionWithout(n: Node, prefix: seq<nat>, hash: int, key: Value)
    requires n.Collision? && Valid(n, prefix)
    ensures WithoutOk(n, prefix, hash, key, Without(n, prefix, hash, key))
  {
    var r := Without(n, prefix, hash, key);
    var at := FindIndex(n.leaves, 0, hash, key);
    if at != -1 {
      assert Valid(r.value, prefix);
      forall h: int, k: Value ensures Removes(n, hash, key, r, h, k) {
        CollisionRemoves(n, prefix, hash, key, h, k);
      }
    }
  }

  lemma CollisionRemoves(n: Node, prefix: seq<nat>, hash: int, key: Value, h: int, k: Value)
    requires n.Collision? && Valid(n, prefix) && FindIndex(n.leaves, 0, hash, key) != -1
    ensures Removes(n, hash, key, Without(n, prefix, hash, key), h, k)
  {
    var at := FindIndex(n.leaves, 0, hash, key);
    var i := FindIndex(n.leaves, 0, h, k);
    assert i == at <==> h == hash && k == key;
    if |n.leaves| > 2 {
      var fewer := RemoveAt(n.leaves, at);
      var j := FindIndex(fewer, 0, h, k);
      if i != -1 && i != at {
        assert fewer[if i < at then i else i - 1] == n.leaves[i];
      }
      if j != -1 {
        assert fewer[j] == n.leaves[if j < at then j else j + 1];
      }
    }
  }

  /** A child that lost the key takes its place again. */
  lemma ReducedChild(n: Node, prefix: seq<nat>, k: nat, hash: int, key: Value, r: Node)
    requires Valid(n, prefix) && (n.Index? || n.Full?) && k in ChildBits(n) && k == Mask(hash, |prefix|)
    requires IndexOf(ChildBits(n), k) < |n.nodes|
    requires WithoutOk(n.nodes[IndexOf(ChildBits(n), k)], prefix + [k], hash, key, Some(r))
    ensures WithoutOk(n, prefix, hash, key,
                      Some(Assemble(ChildBits(n), n.nodes[IndexOf(ChildBits(n), k) := r], |prefix|)))
  {
    var bitmap := ChildBits(n);
    var i := IndexOf(bitmap, k);
    var more := n.nodes[i := r];
    Disassemble(n, prefix);
    ReplaceChild(bitmap, n.nodes, prefix, k, r);
    AssembleValid(bitmap, more, prefix);
    var whole := Some(Assemble(bitmap, more, |prefix|));
    AssembleFind(bitmap, n.nodes, |prefix|, hash, key);
    assert n.nodes[i := n.nodes[i]] == n.nodes;
    forall h: int, x: Value ensures Removes(n, hash, key, whole, h, x) {
      AssembleFind(bitmap, n.nodes, |prefix|, h, x);
      AssembleFind(bitmap, more, |prefix|, h, x);
      ReplaceFind(bitmap, n.nodes, |prefix|, k, r, h, x);
      assert Removes(n.nodes[i], hash, key, Some(r), h, x);
    }
  }

  /** A child that became empty goes, and its bit with it. */
  lemma DroppedChild(n: Node, prefix: seq<nat>, k: nat, hash: int, key: Value)
    requires Valid(n, prefix) && (n.Index? || n.Full?) && k in ChildBits(n) && k == Mask(hash, |prefix|)
    requires IndexOf(ChildBits(n), k) < |n.nodes| && ChildBits(n) != {k}
    requires WithoutOk(n.nodes[IndexOf(ChildBits(n), k)], prefix + [k], hash, key, None)
    ensures |n.nodes| > 1
    ensures WithoutOk(n, prefix, hash, key,
                      Some(CreateIndex(ChildBits(n) - {k}, RemoveAt(n.nodes, IndexOf(ChildBits(n), k)), 5 * |prefix|)))
  {
    var bitmap := ChildBits(n);
    var i := IndexOf(bitmap, k);
    Disassemble(n, prefix);
    CardOne(bitmap, k);
    RemoveChild(bitmap, n.nodes, prefix, k);
    var fewer := RemoveAt(n.nodes, i);
    assert k in ALLBITS && k !in bitmap - {k};
    AssembleValid(bitmap - {k}, fewer, prefix);
    var whole := Some(Assemble(bitmap - {k}, fewer, |prefix|));
    AssembleFind(bitmap, n.nodes, |prefix|, hash, key);
    forall h: int, x: Value ensures Removes(n, hash, key, whole, h, x) {
      AssembleFind(bitmap, n.nodes, |prefix|, h, x);
      AssembleFind(bitmap - {k}, fewer, |prefix|, h, x);
      RemoveFind(bitmap, n.nodes, |prefix|, k, h, x);
      assert Removes(n.nodes[i], hash, key, None, h, x);
    }
  }

  /** The last child goes and leaves nothing. */
  lemma LastChild(n: Node, prefix: seq<nat>, k: nat, hash: int, key: Value)
    requires Valid(n, prefix) && n.Index? && n.bitmap == {k} && k == Mask(hash, |prefix|)
    requires IndexOf(n.bitmap, k) < |n.nodes|
    requires WithoutOk(n.nodes[IndexOf(n.bitmap, k)], prefix + [k], hash, key, None)
    ensures WithoutOk(n, prefix, hash, key, None)
  {
    var i := IndexOf(n.bitmap, k);
    Disassemble(n, prefix);
    AssembleFind(n.bitmap, n.nodes, |prefix|, hash, key);
    assert Removes(n.nodes[i], hash, key, None, hash, key);
    forall h: int, x: Value ensures Removes(n, hash, key, None, h, x) {
      AssembleFind(n.bitmap, n.nodes, |prefix|, h, x);
      assert Removes(n.nodes[i], hash, key, None, h, x);
    }
  }

  /** Removing a key changes the lookup of that key and of no other, gives back the very same node
      when the key is absent, and nothing at all when it was the last one. */
  lemma {:induction false} WithoutNodeOk(n: Node, prefix: seq<nat>, hash: int, key: Value)
    requires Valid(n, prefix)
    ensures WithoutOk(n, prefix, hash, key, Without(n, prefix, hash, key))
    decreases n
  {
    match n
    case Leaf(_, _, _) => LeafWithout(n, prefix, hash, key);
    case Collision(_, _) => CollisionWithout(n, prefix, hash, key);
    case Index(bitmap, _, _, nodes) =>
      var k := Mask(hash, |prefix|);
      if k !in bitmap {
        AbsentChild(n, prefix, k, hash, key);
      } else {
        WithoutNodeOk(nodes[IndexOf(bitmap, k)], prefix + [k], hash, key);
        BranchWithout(n, prefix, k, hash, key);
      }
    case Full(_, _, nodes) =>
      var k := Mask(hash, |prefix|);
      IndexAll(k);
      WithoutNodeOk(nodes[k], prefix + [k], hash, key);
      BranchWithout(n, prefix, k, hash, key);
  }

  lemma BranchWithout(n: Node, prefix: seq<nat>, k: nat, hash: int, key: Value)
    requires Valid(n, prefix) && (n.Index? || n.Full?) && k in ChildBits(n) && k == Mask(hash, |prefix|)
    requires IndexOf(ChildBits(n), k) < |n.nodes| && Valid(n.nodes[IndexOf(ChildBits(n), k)], prefix + [k])
    requires var child := n.nodes[IndexOf(ChildBits(n), k)];
      WithoutOk(child, prefix + [k], hash, key, Without(child, prefix + [k], hash, key))
    ensures WithoutOk(n, prefix, hash, key, Without(n, prefix, hash, key))
  {
    var i := IndexOf(ChildBits(n), k);
    var r := Without(n.nodes[i], prefix + [k], hash, key);
    WithoutShape(n, prefix, k, hash, key);
    if r.Some? {
      ReducedChild(n, prefix, k, hash, key, r.value);
    } else if ChildBits(n) == {k} {
      assert n.Index? by { assert (if k == 0 then 1 else 0) in ALLBITS && ALLBITS != {k}; }
      LastChild(n, prefix, k, hash, key);
    } else {
      DroppedChild(n, prefix, k, hash, key);
    }
  }

  /** The node around the child, by what became of the child. */
  ghost function Around(n: Node, level: nat, i: nat, k: nat, r: Option<Node>): Option<Node>
    requires (n.Index? || n.Full?) && i < |n.nodes| && (ChildBits(n) != {k} ==> |n.nodes| > 1)
  {
    if r.Some? then Some(Assemble(ChildBits(n), n.nodes[i := r.value], level))
    else if ChildBits(n) == {k} then None
    else Some(CreateIndex(ChildBits(n) - {k}, RemoveAt(n.nodes, i), 5 * level))
  }

  lemma WithoutShape(n: Node, prefix: seq<nat>, k: nat, hash: int, key: Value)
    requires Valid(n, prefix) && (n.Index? || n.Full?) && k in ChildBits(n) && k == Mask(hash, |prefix|)
    requires IndexOf(ChildBits(n), k) < |n.nodes| && Valid(n.nodes[IndexOf(ChildBits(n), k)], prefix + [k])
    ensures ChildBits(n) != {k} ==> |n.nodes| > 1
    ensures var i := IndexOf(ChildBits(n), k);
      Without(n, prefix, hash, key) == Around(n, |prefix|, i, k, Without(n.nodes[i], prefix + [k], hash, key))
  {
    if n.Full? { FullWithoutShape(n, prefix, k, hash, key); } else { IndexWithoutShape(n, prefix, k, hash, key); }
  }

  lemma IndexWithoutShape(n: Node, prefix: seq<nat>, k: nat, hash: int, key: Value)
    requires Valid(n, prefix) && n.Index? && k in n.bitmap && k == Mask(hash, |prefix|)
    requires IndexOf(n.bitmap, k) < |n.nodes| && Valid(n.nodes[IndexOf(n.bitmap, k)], prefix + [k])
    ensures n.bitmap != {k} ==> |n.nodes| > 1
    ensures var i := IndexOf(n.bitmap, k);
      Without(n, prefix, hash, key) == Around(n, |prefix|, i, k, Without(n.nodes[i], prefix + [k], hash, key))
  {
    if n.bitmap != {k} { CardOne(n.bitmap, k); }
    var i := IndexOf(n.bitmap, k);
    assert n.nodes[i := n.nodes[i]] == n.nodes;
    assert 5 * |prefix| / 5 == |prefix|;
  }

  lemma FullWithoutShape(n: Node, prefix: seq<nat>, k: nat, hash: int, key: Value)
    requires Valid(n, prefix) && n.Full? && k < 32 && k == Mask(hash, |prefix|)
    ensures IndexOf(ALLBITS, k) == k
    ensures Without(n, prefix, hash, key) == Around(n, |prefix|, k, k, Without(n.nodes[k], prefix + [k], hash, key))
  {
    IndexAll(k);
    assert n.nodes[k := n.nodes[k]] == n.nodes;
    assert (if k == 0 then 1 else 0) in ALLBITS && ALLBITS != {k};
    assert 5 * |prefix| / 5 == |prefix|;
  }
}
