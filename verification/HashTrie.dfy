/** The persistent hash map of Saurus: a bitmap trie over 32-bit hashes (src/vm/seq.c). */
module HashTrie {
  import opened Options

  /** A value up to value_eq: its type and its payload. */
  datatype Value = Value(tag: nat, payload: int)

  /** The nodes; a bitmap is given by the positions of its set bits. */
  datatype Node =
    | Empty
    | Leaf(hash: int, key: Value, val: Value)
    | Collision(hash: int, leaves: seq<Node>)
    | Index(bitmap: set<nat>, shift: nat, hash: int, nodes: seq<Node>)
    | Full(shift: nat, hash: int, nodes: seq<Node>)

  // ---------------------------------------------------------------- hashes

  predicate Int32(h: int) {
    -0x8000_0000 <= h < 0x8000_0000
  }

  /** h >> 5 * level, the arithmetic shift of a signed hash. */
  function ShiftRight(h: int, level: nat): int {
    if level == 0 then h else ShiftRight(h, level - 1) / 32
  }

  /** MASK(h, 5 * level) */
  function Mask(h: int, level: nat): (r: nat)
    ensures r < 32
  {
    ShiftRight(h, level) % 32
  }

  /** The hash has these 5-bit slices, from the lowest up. */
  ghost predicate Matches(h: int, prefix: seq<nat>) {
    forall i: nat | i < |prefix| :: Mask(h, i) == prefix[i]
  }

  lemma {:induction false} SlicesAbove(a: int, b: int, prefix: seq<nat>, level: nat)
    requires Matches(a, prefix) && Matches(b, prefix) && level <= |prefix|
    requires ShiftRight(a, level) == ShiftRight(b, level)
    ensures a == b
  {
    if level > 0 {
      assert Mask(a, level - 1) == prefix[level - 1] == Mask(b, level - 1);
      SlicesAbove(a, b, prefix, level - 1);
    }
  }

  lemma TopSlice(h: int)
    requires Int32(h)
    ensures -2 <= ShiftRight(h, 6) <= 1
  {
    assert -0x400_0000 <= ShiftRight(h, 1) < 0x400_0000;
    assert -0x20_0000 <= ShiftRight(h, 2) < 0x20_0000;
    assert -0x1_0000 <= ShiftRight(h, 3) < 0x1_0000;
    assert -0x800 <= ShiftRight(h, 4) < 0x800;
    assert -0x40 <= ShiftRight(h, 5) < 0x40;
  }

  /** Two different 32-bit hashes differ in one of the slices at shifts 0, 5, ..., 30, so no trie
      is deeper than that. */
  lemma SlicesDetermine(a: int, b: int, prefix: seq<nat>)
    requires Int32(a) && Int32(b) && a != b && Matches(a, prefix) && Matches(b, prefix)
    ensures |prefix| <= 6
  {
    if |prefix| > 6 {
      TopSlice(a);
      TopSlice(b);
      assert Mask(a, 6) == prefix[6] == Mask(b, 6);
      assert ShiftRight(a, 6) == ShiftRight(b, 6);
      SlicesAbove(a, b, prefix, 6);
    }
  }

  // ---------------------------------------------------------------- bitmaps

  const ALLBITS: set<nat> := set k: nat | k < 32

  function Below(bitmap: set<nat>, k: nat): set<nat> {
    set j | j in bitmap && j < k
  }

  /** bit_count(bitmap & (bit - 1)) */
  function IndexOf(bitmap: set<nat>, k: nat): nat {
    |Below(bitmap, k)|
  }

  lemma {:induction false} SubsetCard<T>(a: set<T>, b: set<T>)
    requires a <= b
    ensures |a| <= |b| && (a < b ==> |a| < |b|)
    decreases a
  {
    if a != {} {
      var x :| x in a;
      SubsetCard(a - {x}, b - {x});
      assert a < b ==> a - {x} < b - {x};
    }
  }

  /** Children keep the order of their bits. */
  lemma IndexOrder(bitmap: set<nat>, j: nat, k: nat)
    requires j in bitmap && j < k
    ensures IndexOf(bitmap, j) < IndexOf(bitmap, k) <= |bitmap|
  {
    assert j in Below(bitmap, k) && j !in Below(bitmap, j);
    SubsetCard(Below(bitmap, j), Below(bitmap, k));
    SubsetCard(Below(bitmap, k), bitmap);
  }

  lemma IndexBound(bitmap: set<nat>, k: nat)
    ensures IndexOf(bitmap, k) <= |bitmap|
    ensures k in bitmap ==> IndexOf(bitmap, k) < |bitmap|
  {
    SubsetCard(Below(bitmap, k), bitmap);
  }

  /** Setting a bit shifts the children above it by one. */
  lemma IndexAdd(bitmap: set<nat>, k: nat, j: nat)
    requires k !in bitmap
    ensures IndexOf(bitmap + {k}, j) == IndexOf(bitmap, j) + if k < j then 1 else 0
  {
    if k < j {
      assert Below(bitmap + {k}, j) == Below(bitmap, j) + {k};
    } else {
      assert Below(bitmap + {k}, j) == Below(bitmap, j);
    }
  }

  lemma IndexRemove(bitmap: set<nat>, k: nat, j: nat)
    requires k in bitmap
    ensures IndexOf(bitmap - {k}, j) == IndexOf(bitmap, j) - if k < j then 1 else 0
  {
    IndexAdd(bitmap - {k}, k, j);
    assert bitmap - {k} + {k} == bitmap;
  }

  lemma {:induction false} IndexAll(k: nat)
    requires k <= 32
    ensures IndexOf(ALLBITS, k) == k
  {
    if k == 0 {
      assert Below(ALLBITS, 0) == {};
    } else {
      IndexAll(k - 1);
      assert Below(ALLBITS, k) == Below(ALLBITS, k - 1) + {k - 1};
    }
  }

  lemma AllBitsCard()
    ensures |ALLBITS| == 32
  {
    IndexAll(32);
    assert Below(ALLBITS, 32) == ALLBITS;
  }

  // ---------------------------------------------------------------- well-formed tries

  function GetHash(n: Node): int {
    match n
    case Empty => 0
    case _ => n.hash
  }

  function ChildBits(n: Node): set<nat>
    requires n.Index? || n.Full?
  {
    if n.Index? then n.bitmap else ALLBITS
  }

  ghost predicate LeafAt(n: Node, hash: int) {
    n.Leaf? && n.hash == hash
  }

  /** A subtrie in which every hash starts with the slices `prefix`. */
  ghost predicate Valid(n: Node, prefix: seq<nat>)
    decreases n
  {
    match n
    case Empty => false
    case Leaf(hash, _, _) => Int32(hash) && Matches(hash, prefix)
    case Collision(hash, leaves) =>
      && Int32(hash) && Matches(hash, prefix) && |leaves| >= 2
      && (forall i | 0 <= i < |leaves| :: LeafAt(leaves[i], hash))
      && (forall i, j | 0 <= i < j < |leaves| :: leaves[i].key != leaves[j].key)
    case Index(bitmap, shift, hash, nodes) =>
      && bitmap != {} && bitmap < ALLBITS && |nodes| == |bitmap| && shift == 5 * |prefix| && |prefix| <= 6
      && hash == GetHash(nodes[0]) && Int32(hash) && Matches(hash, prefix)
      && (forall k | k in bitmap :: IndexOf(bitmap, k) < |nodes| && Valid(nodes[IndexOf(bitmap, k)], prefix + [k]))
    case Full(shift, hash, nodes) =>
      && |nodes| == 32 && shift == 5 * |prefix| && |prefix| <= 6
      && hash == GetHash(nodes[0]) && Int32(hash) && Matches(hash, prefix)
      && (forall k | 0 <= k < 32 :: Valid(nodes[k], prefix + [k]))
  }

  lemma {:induction false} ValidHash(n: Node, prefix: seq<nat>)
    requires Valid(n, prefix)
    ensures Int32(GetHash(n)) && Matches(GetHash(n), prefix)
  {
  }

  lemma MatchesExtend(h: int, prefix: seq<nat>, k: nat)
    ensures Matches(h, prefix + [k]) <==> Matches(h, prefix) && Mask(h, |prefix|) == k
  {
    var longer := prefix + [k];
    if Matches(h, longer) {
      forall i: nat | i < |prefix| ensures Mask(h, i) == prefix[i] { assert longer[i] == prefix[i]; }
      assert longer[|prefix|] == k;
    }
  }

  // ---------------------------------------------------------------- find

  /** collision_node_find_index over leaves from `i` on */
  function FindIndex(leaves: seq<Node>, i: nat, hash: int, key: Value): (r: int)
    ensures r == -1 || (i <= r < |leaves| && leaves[r].Leaf? && leaves[r].hash == hash && leaves[r].key == key)
    ensures r == -1 ==> forall j | i <= j < |leaves|
            && leaves[j].Leaf? :: leaves[j].hash != hash || leaves[j].key != key
    decreases |leaves| - i
  {
    if i >= |leaves| then -1
    else if leaves[i].Leaf? && leaves[i].hash == hash && leaves[i].key == key then i
    else FindIndex(leaves, i + 1, hash, key)
  }

  /** The search loop of collision_node_find_index. */
  method CollisionFindIndex(leaves: seq<Node>, hash: int, key: Value) returns (r: int)
    ensures r == FindIndex(leaves, 0, hash, key)
  {
    var i := 0;
    while i < |leaves|
      invariant 0 <= i <= |leaves|
      invariant FindIndex(leaves, 0, hash, key) == FindIndex(leaves, i, hash, key)
    {
      if leaves[i].Leaf? && leaves[i].hash == hash && leaves[i].key == key {
        return i;
      }
      i := i + 1;
    }
    return -1;
  }

  /** The find functions of the five kinds of nodes; a node that is not well formed finds nothing. */
  function Find(n: Node, hash: int, key: Value): Option<Value>
    decreases n
  {
    match n
    case Empty => None
    case Leaf(h, k, v) => if hash == h && key == k then Some(v) else None
    case Collision(h, leaves) =>
      var i := FindIndex(leaves, 0, hash, key);
      if i != -1 then Some(leaves[i].val) else None
    case Index(bitmap, shift, _, nodes) => FindChild(bitmap, shift / 5, nodes, hash, key)
    case Full(shift, _, nodes) =>
      var k := Mask(hash, shift / 5);
      if k < |nodes| then Find(nodes[k], hash, key) else None
  }

  function FindChild(bitmap: set<nat>, level: nat, nodes: seq<Node>, hash: int, key: Value): Option<Value>
    decreases nodes
  {
    var k := Mask(hash, level);
    if k in bitmap && IndexOf(bitmap, k) < |nodes| then Find(nodes[IndexOf(bitmap, k)], hash, key) else None
  }

  // ---------------------------------------------------------------- set

  /** The node, whether a leaf was added, and whether the node is a new one: only then is its address another. */
  datatype SetResult = SetResult(node: Node, added: bool, renewed: bool)

  function SetNode(n: Node, ghost prefix: seq<nat>, shift: nat, hash: int, key: Value, val: Value): (r: SetResult)
    requires Valid(n, prefix) && shift == 5 * |prefix| && Int32(hash) && Matches(hash, prefix)
    ensures !r.renewed ==> r.node == n
    decreases 7 - |prefix|, 2
  {
    match n
    case Leaf(h, k, v) =>
      if hash == h then
        if key == k then if val == v then SetResult(n, false, false) else SetResult(Leaf(hash, key, val), false, true)
        else SetResult(Collision(hash, [n, Leaf(hash, key, val)]), true, true)
      else Split(n, prefix, shift, hash, key, val)
    case Collision(h, leaves) =>
      if hash == h then
        var i := FindIndex(leaves, 0, hash, key);
        if i != -1 then
          // value_eq here compares val with the leaf node itself, so it never holds
          SetResult(Collision(hash, leaves[i := Leaf(hash, key, val)]), false, true)
        else SetResult(Collision(hash, leaves + [Leaf(hash, key, val)]), true, true)
      else Split(n, prefix, shift, hash, key, val)
    case Index(_, _, _, _) => IndexSet(n, prefix, shift, hash, key, val)
    case Full(_, _, nodes) =>
      var k := Mask(hash, shift / 5);
      MatchesExtend(hash, prefix, k);
      var r := SetNode(nodes[k], prefix + [k], shift + 5, hash, key, val);
      if !r.renewed then SetResult(n, r.added, false)
      else SetResult(CreateFull(nodes[k := r.node], shift), r.added, true)
  }

  function CreateIndex(bitmap: set<nat>, nodes: seq<Node>, shift: nat): Node
    requires nodes != []
  {
    Index(bitmap, shift, GetHash(nodes[0]), nodes)
  }

  function CreateFull(nodes: seq<Node>, shift: nat): Node
    requires nodes != []
  {
    Full(shift, GetHash(nodes[0]), nodes)
  }

  /** idx_node_set */
  function IndexSet(n: Node, ghost prefix: seq<nat>, shift: nat, hash: int, key: Value, val: Value): (r: SetResult)
    requires n.Index? && Valid(n, prefix) && shift == 5 * |prefix| && Int32(hash) && Matches(hash, prefix)
    ensures !r.renewed ==> r.node == n
    decreases 7 - |prefix|, 0
  {
    var k := Mask(hash, shift / 5);
    var i := IndexOf(n.bitmap, k);
    if k in n.bitmap then
      MatchesExtend(hash, prefix, k);
      var r := SetNode(n.nodes[i], prefix + [k], shift + 5, hash, key, val);
      if !r.renewed then SetResult(n, r.added, false)
      else SetResult(CreateIndex(n.bitmap, n.nodes[i := r.node], shift), r.added, true)
    else
      IndexBound(n.bitmap, k);
      var nodes := n.nodes[..i] + [Leaf(hash, key, val)] + n.nodes[i..];
      // create_idx_node2: an index node with all bits set is a full node
      var all := n.bitmap + {k};
      SetResult(if all == ALLBITS then CreateFull(nodes, shift) else CreateIndex(all, nodes, shift), true, true)
  }

  /** create_idx_node3: a leaf or collision meets a different hash. */
  function Split(branch: Node, ghost prefix: seq<nat>, shift: nat, hash: int, key: Value, val: Value): (r: SetResult)
    requires (branch.Leaf? || branch.Collision?) && Valid(branch, prefix) && branch.hash != hash
    requires shift == 5 * |prefix| && Int32(hash) && Matches(hash, prefix)
    ensures r.renewed
    decreases 7 - |prefix|, 1
  {
    SplitValid(branch, prefix, hash);
    // the node around the branch is new in any case
    var single := CreateIndex({Mask(branch.hash, shift / 5)}, [branch], shift);
    IndexSet(single, prefix, shift, hash, key, val).(renewed := true)
  }

  lemma SplitValid(branch: Node, prefix: seq<nat>, hash: int)
    requires (branch.Leaf? || branch.Collision?) && Valid(branch, prefix) && branch.hash != hash
    requires Int32(hash) && Matches(hash, prefix)
    ensures |prefix| <= 6
    ensures Valid(CreateIndex({Mask(branch.hash, |prefix|)}, [branch], 5 * |prefix|), prefix)
  {
    SlicesDetermine(branch.hash, hash, prefix);
    var k := Mask(branch.hash, |prefix|);
    MatchesExtend(branch.hash, prefix, k);
    assert Below({k}, k) == {};
    assert {k} < ALLBITS by {
      assert {k} <= ALLBITS;
      var other := if k == 0 then 1 else 0;
      assert other in ALLBITS && other !in {k};
    }
    assert Valid(branch, prefix + [k]);
  }

  // ---------------------------------------------------------------- without

  function RemoveAt(nodes: seq<Node>, i: nat): seq<Node>
    requires i < |nodes|
  {
    nodes[..i] + nodes[i + 1..]
  }

  /** The without functions; None stands for NULL, a subtrie that became empty. */
  function Without(n: Node, ghost prefix: seq<nat>, hash: int, key: Value): (r: Option<Node>)
    requires Valid(n, prefix)
    decreases n
  {
    match n
    case Leaf(h, k, _) => if hash == h && key == k then None else Some(n)
    case Collision(_, leaves) =>
      var i := FindIndex(leaves, 0, hash, key);
      if i == -1 then Some(n)
      else if |leaves| == 2 then Some(if i == 0 then leaves[1] else leaves[0])
      else Some(Collision(hash, RemoveAt(leaves, i)))
    case Index(bitmap, shift, _, nodes) =>
      var k := Mask(hash, shift / 5);
      if k !in bitmap then Some(n)
      else
        var i := IndexOf(bitmap, k);
        var r := Without(nodes[i], prefix + [k], hash, key);
        if r == Some(nodes[i]) then Some(n)
        else if r.None? then
          if bitmap == {k} then None else
            CardOne(bitmap, k);
            Some(CreateIndex(bitmap - {k}, RemoveAt(nodes, i), shift))
        else Some(CreateIndex(bitmap, nodes[i := r.value], shift))
    case Full(shift, _, nodes) =>
      var k := Mask(hash, shift / 5);
      var r := Without(nodes[k], prefix + [k], hash, key);
      if r == Some(nodes[k]) then Some(n)
      else if r.None? then Some(CreateIndex(ALLBITS - {k}, RemoveAt(nodes, k), shift))
      else Some(CreateFull(nodes[k := r.value], shift))
  }

  lemma CardOne(bitmap: set<nat>, k: nat)
    requires k in bitmap && bitmap != {k}
    ensures |bitmap| >= 2
  {
    assert {k} < bitmap;
    SubsetCard({k}, bitmap);
  }
}
