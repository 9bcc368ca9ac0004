/** The persistent vector of Saurus: a 32-way path-copying trie with a tail (src/vm/seq.c). */
module PersistentVector {
  import opened Options
  import opened Arithmetic

  datatype Result<T> = Ok(value: T) | OutOfBounds(index: int) | PopEmpty

  /** vector_node_t: the cells of a node hold either elements or further nodes. */
  datatype Node<T> = Leaf(data: seq<T>) | Inner(kids: seq<Node<T>>)

  /** vector_t; its shift is 5 * height. */
  datatype Vector<T> = Vector(cnt: int, height: nat, root: Node<T>, tail: seq<T>)

  function Pow32(h: nat): (r: nat)
    ensures r > 0
  {
    if h == 0 then 1 else 32 * Pow32(h - 1)
  }

  /** (i >> level) & 0x1f, for the level 5 * h */
  function Slot(i: nat, h: nat): (r: nat)
    ensures r < 32
  {
    i / Pow32(h) % 32
  }

  // ---------------------------------------------------------------- what a trie holds

  ghost function Elems<T>(n: Node<T>): seq<T>
    decreases n
  {
    match n
    case Leaf(data) => data
    case Inner(kids) => Flat(kids)
  }

  ghost function Flat<T>(kids: seq<Node<T>>): seq<T>
    decreases kids
  {
    if kids == [] then [] else Flat(kids[..|kids| - 1]) + Elems(kids[|kids| - 1])
  }

  /** Every node below has all its 32 cells. */
  ghost predicate Full<T>(n: Node<T>, h: nat)
    decreases h, 0
  {
    if h == 0 then n.Leaf? && |n.data| == 32
    else n.Inner? && |n.kids| == 32 && AllFull(n.kids, h - 1)
  }

  ghost predicate AllFull<T>(kids: seq<Node<T>>, h: nat)
    decreases h, 1
  {
    forall k | 0 <= k < |kids| :: Full(kids[k], h)
  }

  /** Full leaves, full left siblings; only the last child may have room. */
  ghost predicate Dense<T>(n: Node<T>, h: nat)
    decreases h
  {
    if h == 0 then Full(n, h)
    else
      && n.Inner? && 1 <= |n.kids| <= 32
      && AllFull(n.kids[..|n.kids| - 1], h - 1)
      && Dense(n.kids[|n.kids| - 1], h - 1)
  }

  ghost predicate EmptyRoot<T>(n: Node<T>) {
    n.Inner? && n.kids == []
  }

  ghost predicate Valid<T>(v: Vector<T>) {
    && v.height >= 1
    && (if EmptyRoot(v.root) then v.height == 1 else Dense(v.root, v.height))
    && (v.height > 1 ==> v.root.Inner? && |v.root.kids| >= 2)
    && |v.tail| <= 32 && (v.tail == [] ==> EmptyRoot(v.root))
    && v.cnt == |Contents(v)|
  }

  ghost function Contents<T>(v: Vector<T>): seq<T> {
    Elems(v.root) + v.tail
  }

  // ---------------------------------------------------------------- sizes

  lemma {:induction false} FullIsDense<T>(n: Node<T>, h: nat)
    requires Full(n, h)
    ensures Dense(n, h)
    decreases h
  {
    if h > 0 { FullIsDense(n.kids[|n.kids| - 1], h - 1); }
  }

  lemma {:induction false} FullSize<T>(n: Node<T>, h: nat)
    requires Full(n, h)
    ensures |Elems(n)| == Pow32(h + 1)
    decreases h, 1, 0
  {
    if h == 0 {
    } else {
      AllFullSize(n.kids, h - 1);
    }
  }

  lemma {:induction false} AllFullSize<T>(kids: seq<Node<T>>, h: nat)
    requires AllFull(kids, h)
    ensures |Flat(kids)| == |kids| * Pow32(h + 1)
    decreases h, 2, |kids|
  {
    if kids != [] {
      var most := kids[..|kids| - 1];
      AllFullSize(most, h);
      FullSize(kids[|kids| - 1], h);
      assert |kids| * Pow32(h + 1) == |most| * Pow32(h + 1) + Pow32(h + 1);
    }
  }

  /** The left siblings and the last child of a dense node. */
  lemma DenseParts<T>(n: Node<T>, h: nat)
    requires Dense(n, h) && h > 0
    ensures var last := |n.kids| - 1;
      |Elems(n)| == last * Pow32(h) + |Elems(n.kids[last])| && Pow32(h) == 32 * Pow32(h - 1)
  {
    AllFullSize(n.kids[..|n.kids| - 1], h - 1);
  }

  /** A dense node holds more than its left siblings and no more than if it were full. */
  lemma {:induction false} DenseSize<T>(n: Node<T>, h: nat)
    requires Dense(n, h)
    ensures 0 < |Elems(n)| <= Pow32(h + 1)
    ensures h > 0 ==> (|n.kids| - 1) * Pow32(h) < |Elems(n)| <= |n.kids| * Pow32(h)
    decreases h
  {
    if h == 0 {
      FullSize(n, 0);
    } else {
      var last, p := |n.kids| - 1, Pow32(h);
      DenseParts(n, h);
      DenseSize(n.kids[last], h - 1);
      MulGrows(0, last, p);
      MulGrows(last + 1, 32, p);
      MulDistributes(last, 1, p);
    }
  }

  lemma Whole(m: nat, c: nat, rest: nat)
    requires rest % 32 == 0
    ensures (m * (32 * c) + rest) % 32 == 0
  {
    assert m * (32 * c) == 32 * (m * c);
  }

  lemma {:induction false} DenseWhole<T>(n: Node<T>, h: nat)
    requires Dense(n, h)
    ensures |Elems(n)| % 32 == 0
    decreases h
  {
    if h > 0 {
      var last, c := |n.kids| - 1, Pow32(h - 1);
      DenseParts(n, h);
      DenseWhole(n.kids[last], h - 1);
      Whole(last, c, |Elems(n.kids[last])|);
    }
  }

  // ---------------------------------------------------------------- locating an element

  lemma {:induction false} FlatPrefix<T>(kids: seq<Node<T>>, s: nat)
    requires s <= |kids|
    ensures |Flat(kids[..s])| <= |Flat(kids)| && Flat(kids)[..|Flat(kids[..s])|] == Flat(kids[..s])
    decreases |kids|
  {
    if s < |kids| {
      var most := kids[..|kids| - 1];
      FlatPrefix(most, s);
      assert most[..s] == kids[..s];
    } else {
      assert kids[..s] == kids;
    }
  }

  lemma {:induction false} FlatAt<T>(kids: seq<Node<T>>, s: nat, j: nat)
    requires s < |kids| && j < |Elems(kids[s])|
    ensures |Flat(kids[..s])| + j < |Flat(kids)|
    ensures Flat(kids)[|Flat(kids[..s])| + j] == Elems(kids[s])[j]
  {
    var upto := kids[..s + 1];
    assert upto[..s] == kids[..s] && upto[s] == kids[s];
    assert Flat(upto) == Flat(kids[..s]) + Elems(kids[s]);
    FlatPrefix(kids, s + 1);
    assert Flat(kids)[..|Flat(upto)|][|Flat(kids[..s])| + j] == Flat(upto)[|Flat(kids[..s])| + j];
  }

  /** The slot of an index at a h leads to the child that holds the element. */
  lemma SlotLeads<T>(n: Node<T>, h: nat, i: nat)
    requires Dense(n, h) && h > 0
    requires i % Pow32(h + 1) < |Elems(n)|
    ensures Slot(i, h) < |n.kids|
    ensures Dense(n.kids[Slot(i, h)], h - 1)
    ensures i % Pow32(h) < |Elems(n.kids[Slot(i, h)])|
    ensures Elems(n)[i % Pow32(h + 1)] == Elems(n.kids[Slot(i, h)])[i % Pow32(h)]
    ensures |Flat(n.kids[..Slot(i, h)])| == Slot(i, h) * Pow32(h)
    ensures i % Pow32(h + 1) == Slot(i, h) * Pow32(h) + i % Pow32(h)
  {
    var p, s := Pow32(h), Slot(i, h);
    var most := |n.kids| - 1;
    ModTimes32(i, p);
    DenseSize(n, h);
    assert s < |n.kids| by {
      if s >= |n.kids| { MulGrows(|n.kids|, s, p); }
    }
    var before := n.kids[..s];
    forall k | 0 <= k < |before| ensures Full(before[k], h - 1) {
      assert before[k] == n.kids[..most][k];
    }
    AllFullSize(before, h - 1);
    if s < most {
      assert n.kids[..most][s] == n.kids[s];
      FullSize(n.kids[s], h - 1);
      FullIsDense(n.kids[s], h - 1);
    } else {
      assert Elems(n) == Flat(n.kids[..most]) + Elems(n.kids[most]);
    }
    FlatAt(n.kids, s, i % p);
  }

  // ---------------------------------------------------------------- vector_index

  lemma RootDense<T>(v: Vector<T>)
    requires Valid(v)
    ensures v.cnt > |v.tail| ==> Dense(v.root, v.height)
  {
    if EmptyRoot(v.root) { assert Elems(v.root) == []; }
  }

  ghost function TailOff<T>(v: Vector<T>): int {
    v.cnt - |v.tail|
  }

  /** The tail starts at a multiple of 32, so the low five bits of an index are its place there. */
  lemma TailPlace<T>(v: Vector<T>, i: nat)
    requires Valid(v) && TailOff(v) <= i < v.cnt
    ensures i % 32 < |v.tail| && Contents(v)[i] == v.tail[i % 32]
    ensures i % 32 == i - TailOff(v)
  {
    if !EmptyRoot(v.root) { DenseWhole(v.root, v.height); }
    assert TailOff(v) == |Elems(v.root)|;
    assert |Elems(v.root)| % 32 == 0;
  }

  /** An index below the tail is an index into the whole trie. */
  lemma RootPlace<T>(v: Vector<T>, i: nat)
    requires Valid(v) && i < TailOff(v)
    ensures Dense(v.root, v.height) && i % Pow32(v.height + 1) == i < |Elems(v.root)|
    ensures Contents(v)[i] == Elems(v.root)[i]
  {
    assert TailOff(v) == |Elems(v.root)|;
    DenseSize(v.root, v.height);
    DivUnique(i, Pow32(v.height + 1), 0, i);
  }

  /** vector_index: walks from the root to the element, or reports the index. */
  method Index<T>(v: Vector<T>, i: int) returns (r: Result<T>)
    requires Valid(v)
    ensures r == if 0 <= i < |Contents(v)| then Ok(Contents(v)[i]) else OutOfBounds(i)
  {
    if 0 <= i < v.cnt {
      if i >= v.cnt - |v.tail| {
        TailPlace(v, i);
        return Ok(v.tail[i % 32]);
      }
      RootPlace(v, i);
      var arr, h := v.root, v.height;
      while h > 0
        invariant Dense(arr, h)
        invariant i % Pow32(h + 1) < |Elems(arr)|
        invariant Elems(arr)[i % Pow32(h + 1)] == Contents(v)[i]
      {
        SlotLeads(arr, h, i);
        arr := arr.kids[Slot(i, h)];
        h := h - 1;
      }
      return Ok(arr.data[i % 32]);
    }
    return OutOfBounds(i);
  }

  // ---------------------------------------------------------------- vector_push

  function CreateEmpty<T>(): Vector<T> {
    Vector(0, 1, Inner([]), [])
  }

  /** push_tail: the new node, and the expansion that found no room below it. */
  function PushTail<T>(h: nat, arr: Node<T>, tail: Node<T>): (Node<T>, Option<Node<T>>)
    requires (Dense(arr, h + 1) || (h == 0 && EmptyRoot(arr)))
    decreases h
  {
    var kids := arr.kids;
    if h == 0 then Expand(arr, tail)
    else
      var (child, expansion) := PushTail(h - 1, kids[|kids| - 1], tail);
      if expansion.None? then (Inner(kids[|kids| - 1 := child]), None) else Expand(arr, expansion.value)
  }

  function Expand<T>(arr: Node<T>, child: Node<T>): (Node<T>, Option<Node<T>>)
    requires arr.Inner?
  {
    if |arr.kids| == 32 then (arr, Some(Inner([child]))) else (Inner(arr.kids + [child]), None)
  }

  function Push<T>(v: Vector<T>, x: T): Vector<T>
    requires Valid(v)
  {
    if |v.tail| < 32 then Vector(v.cnt + 1, v.height, v.root, v.tail + [x])
    else
      var (root, expansion) := PushTail(v.height - 1, v.root, Leaf(v.tail));
      if expansion.Some? then Vector(v.cnt + 1, v.height + 1, Inner([root, expansion.value]), [x])
      else Vector(v.cnt + 1, v.height, root, [x])
  }

  lemma FlatSnoc<T>(kids: seq<Node<T>>, n: Node<T>)
    ensures Flat(kids + [n]) == Flat(kids) + Elems(n)
  {
    assert (kids + [n])[..|kids|] == kids;
  }

  lemma FlatOne<T>(n: Node<T>)
    ensures Flat([n]) == Elems(n)
  {
    assert [n] == [] + [n];
    FlatSnoc([], n);
  }

  /** What pushing a full tail below a node of this h does. */
  ghost predicate PushOk<T>(h: nat, arr: Node<T>, tail: Node<T>, r: (Node<T>, Option<Node<T>>)) {
    match r.1
    case None => Dense(r.0, h + 1) && Elems(r.0) == Elems(arr) + Elems(tail)
                 && arr.Inner? && |r.0.kids| >= |arr.kids|
    case Some(e) => r.0 == arr && Full(arr, h + 1) && Dense(e, h + 1) && Elems(e) == Elems(tail)
  }

  lemma ExpandOk<T>(h: nat, arr: Node<T>, child: Node<T>, tail: Node<T>)
    requires Dense(child, h) && Elems(child) == Elems(tail)
    requires EmptyRoot(arr) || (arr.Inner? && |arr.kids| <= 32 && AllFull(arr.kids, h))
    ensures PushOk(h, arr, tail, Expand(arr, child))
  {
    FlatOne(child);
    FlatSnoc(arr.kids, child);
    var r := Expand(arr, child);
    if r.1.Some? {
      assert [child][..0] == [];
    } else {
      assert (arr.kids + [child])[..|arr.kids|] == arr.kids;
    }
  }

  lemma PushBelow<T>(h: nat, arr: Node<T>, tail: Node<T>)
    requires h > 0 && Dense(arr, h + 1)
    requires var last := arr.kids[|arr.kids| - 1]; PushOk(h - 1, last, tail, PushTail(h - 1, last, tail))
    ensures PushOk(h, arr, tail, PushTail(h, arr, tail))
  {
    var kids := arr.kids;
    var last := |kids| - 1;
    var (child, expansion) := PushTail(h - 1, kids[last], tail);
    if expansion.None? {
      var more := kids[last := child];
      assert more[..last] == kids[..last];
      assert Flat(more) == Flat(kids[..last]) + Elems(child);
    } else {
      assert kids == kids[..last] + [kids[last]];
      ExpandOk(h, arr, expansion.value, tail);
    }
  }

  lemma {:induction false} PushTailOk<T>(h: nat, arr: Node<T>, tail: Node<T>)
    requires (Dense(arr, h + 1) || (h == 0 && EmptyRoot(arr))) && Full(tail, 0)
    ensures PushOk(h, arr, tail, PushTail(h, arr, tail))
    decreases h
  {
    var kids := arr.kids;
    if EmptyRoot(arr) {
      ExpandOk(h, arr, tail, tail);
    } else {
      var last := |kids| - 1;
      if h == 0 {
        assert kids == kids[..last] + [kids[last]];
        ExpandOk(h, arr, tail, tail);
      } else {
        PushTailOk(h - 1, kids[last], tail);
        PushBelow(h, arr, tail);
      }
    }
  }

  /** vector_push appends one element and keeps the trie dense. */
  lemma PushAppends<T>(v: Vector<T>, x: T)
    requires Valid(v)
    ensures Valid(Push(v, x)) && Contents(Push(v, x)) == Contents(v) + [x]
  {
    var w := Push(v, x);
    if |v.tail| == 32 {
      var tail := Leaf(v.tail);
      PushTailOk(v.height - 1, v.root, tail);
      var (root, expansion) := PushTail(v.height - 1, v.root, tail);
      if expansion.Some? {
        FlatOne(root);
        FlatSnoc([root], expansion.value);
        assert [root, expansion.value] == [root] + [expansion.value];
        assert w.root.kids[..1] == [root];
      }
    }
  }

  // ---------------------------------------------------------------- vector_set

  /** insert: copies the path from the root to the element. */
  function InsertElem<T>(h: nat, arr: Node<T>, i: nat, x: T): Node<T>
    requires Dense(arr, h) && i % Pow32(h + 1) < |Elems(arr)|
    decreases h
  {
    if h == 0 then Leaf(arr.data[i % 32 := x])
    else
      SlotLeads(arr, h, i);
      var s := Slot(i, h);
      Inner(arr.kids[s := InsertElem(h - 1, arr.kids[s], i, x)])
  }

  function Set<T>(v: Vector<T>, i: int, x: T): Result<Vector<T>>
    requires Valid(v)
  {
    if 0 <= i < v.cnt then
      if i >= v.cnt - |v.tail| then
        TailPlace(v, i);
        Ok(Vector(v.cnt, v.height, v.root, v.tail[i % 32 := x]))
      else
        RootPlace(v, i);
        Ok(Vector(v.cnt, v.height, InsertElem(v.height, v.root, i, x), v.tail))
    else OutOfBounds(i)
  }

  lemma {:induction false} FlatUpdate<T>(kids: seq<Node<T>>, s: nat, n: Node<T>, j: nat, x: T)
    requires s < |kids| && j < |Elems(kids[s])| && Elems(n) == Elems(kids[s])[j := x]
    ensures |Flat(kids[..s])| + j < |Flat(kids)|
    ensures Flat(kids[s := n]) == Flat(kids)[|Flat(kids[..s])| + j := x]
    decreases |kids|
  {
    var last := |kids| - 1;
    var most := kids[..last];
    if s == last {
      assert kids[s := n][..last] == most;
    } else {
      FlatUpdate(most, s, n, j, x);
      assert kids[s := n][..last] == most[s := n];
      assert most[..s] == kids[..s];
    }
  }

  lemma {:induction false} InsertFull<T>(h: nat, arr: Node<T>, i: nat, x: T)
    requires Full(arr, h) && Dense(arr, h) && i % Pow32(h + 1) < |Elems(arr)|
    ensures Full(InsertElem(h, arr, i, x), h)
    decreases h
  {
    if h > 0 {
      SlotLeads(arr, h, i);
      InsertFull(h - 1, arr.kids[Slot(i, h)], i, x);
    }
  }

  lemma {:induction false} InsertElemOk<T>(h: nat, arr: Node<T>, i: nat, x: T)
    requires Dense(arr, h) && i % Pow32(h + 1) < |Elems(arr)|
    ensures Dense(InsertElem(h, arr, i, x), h)
    ensures Elems(InsertElem(h, arr, i, x)) == Elems(arr)[i % Pow32(h + 1) := x]
    ensures h > 0 ==> |InsertElem(h, arr, i, x).kids| == |arr.kids|
    decreases h
  {
    if h == 0 {
    } else {
      SlotLeads(arr, h, i);
      var s, last := Slot(i, h), |arr.kids| - 1;
      var child := InsertElem(h - 1, arr.kids[s], i, x);
      InsertElemOk(h - 1, arr.kids[s], i, x);
      FlatUpdate(arr.kids, s, child, i % Pow32(h), x);
      var more := arr.kids[s := child];
      if s < last {
        assert arr.kids[..last][s] == arr.kids[s];
        InsertFull(h - 1, arr.kids[s], i, x);
        assert more[..last] == arr.kids[..last][s := child];
      } else {
        assert more[..last] == arr.kids[..last];
      }
    }
  }

  /** vector_set replaces one element and nothing else, or reports the index. */
  lemma SetUpdates<T>(v: Vector<T>, i: int, x: T)
    requires Valid(v)
    ensures 0 <= i < |Contents(v)| ==>
      Set(v, i, x).Ok? && Valid(Set(v, i, x).value) && Contents(Set(v, i, x).value) == Contents(v)[i := x]
    ensures !(0 <= i < |Contents(v)|) ==> Set(v, i, x) == OutOfBounds(i)
  {
    if 0 <= i < v.cnt {
      var w := Set(v, i, x).value;
      if i >= v.cnt - |v.tail| {
        TailPlace(v, i);
      } else {
        RootPlace(v, i);
        InsertElemOk(v.height, v.root, i, x);
      }
      assert Contents(w) == Contents(v)[i := x];
    }
  }

  // ---------------------------------------------------------------- vector_pop

  /** pop_tail: what is left, None for NULL, and the leaf that becomes the tail. */
  function PopTail<T>(h: nat, arr: Node<T>): (Option<Node<T>>, Node<T>)
    requires Dense(arr, h + 1)
    decreases h
  {
    var kids := arr.kids;
    var last := kids[|kids| - 1];
    if h == 0 then (Contract(arr), last)
    else
      var (child, tail) := PopTail(h - 1, last);
      if child.Some? then (Some(Inner(kids[|kids| - 1 := child.value])), tail) else (Contract(arr), tail)
  }

  function Contract<T>(arr: Node<T>): Option<Node<T>>
    requires arr.Inner? && arr.kids != []
  {
    if |arr.kids| == 1 then None else Some(Inner(arr.kids[..|arr.kids| - 1]))
  }

  /** What taking the last leaf from a node of this h does. */
  ghost predicate PopOk<T>(h: nat, arr: Node<T>, r: (Option<Node<T>>, Node<T>)) {
    && Full(r.1, 0) && arr.Inner?
    && match r.0
       case None => Elems(arr) == Elems(r.1) && |arr.kids| == 1
       case Some(n) =>
         && Dense(n, h + 1) && Elems(arr) == Elems(n) + Elems(r.1)
         && (|n.kids| == |arr.kids| || (|n.kids| == |arr.kids| - 1 && AllFull(n.kids, h)))
  }

  lemma {:induction false} PopTailOk<T>(h: nat, arr: Node<T>)
    requires Dense(arr, h + 1)
    ensures PopOk(h, arr, PopTail(h, arr))
    decreases h
  {
    var kids := arr.kids;
    var last := |kids| - 1;
    if h > 0 { PopTailOk(h - 1, kids[last]); }
    var r := PopTail(h, arr);
    if h > 0 && PopTail(h - 1, kids[last]).0.Some? {
      assert r.0.value.kids[..last] == kids[..last];
    } else if last == 0 {
      FlatOne(kids[0]);
      assert kids == [kids[0]];
    } else {
      FullIsDense(kids[..last][last - 1], h);
      assert kids[..last][..last - 1] == kids[..last - 1];
    }
  }

  function Pop<T>(v: Vector<T>): Result<Vector<T>>
    requires Valid(v)
  {
    RootDense(v);
    if v.cnt == 0 then PopEmpty
    else if v.cnt == 1 then Ok(CreateEmpty())
    else if |v.tail| > 1 then Ok(Vector(v.cnt - 1, v.height, v.root, v.tail[..|v.tail| - 1]))
    else
      var (rest, tail) := PopTail(v.height - 1, v.root);
      PopTailOk(v.height - 1, v.root);
      var root := if rest.None? then Inner([]) else rest.value;
      if v.height > 1 && |root.kids| == 1 then Ok(Vector(v.cnt - 1, v.height - 1, root.kids[0], tail.data))
      else Ok(Vector(v.cnt - 1, v.height, root, tail.data))
  }

  /** vector_pop drops the last element and keeps the trie dense, or reports the empty vector. */
  lemma PopDrops<T>(v: Vector<T>)
    requires Valid(v)
    ensures Contents(v) == [] <==> Pop(v) == PopEmpty
    ensures Contents(v) != [] ==>
      Pop(v).Ok? && Valid(Pop(v).value) && Contents(Pop(v).value) == Contents(v)[..|Contents(v)| - 1]
  {
    RootDense(v);
    if v.cnt > 1 && |v.tail| == 1 {
      PopLeaf(v);
    }
  }

  /** The case where the tail runs out and the last leaf of the trie takes its place. */
  lemma PopLeaf<T>(v: Vector<T>)
    requires Valid(v) && |v.tail| == 1 && v.cnt > 1 && Dense(v.root, v.height)
    ensures Pop(v).Ok? && Valid(Pop(v).value) && Contents(Pop(v).value) == Contents(v)[..|Contents(v)| - 1]
  {
    PopTailOk(v.height - 1, v.root);
    var (rest, tail) := PopTail(v.height - 1, v.root);
    var w := Pop(v).value;
    assert Elems(v.root) == Contents(v)[..|Contents(v)| - 1];
    if rest.Some? && v.height > 1 && |rest.value.kids| == 1 {
      FlatOne(rest.value.kids[0]);
      assert rest.value.kids == [rest.value.kids[0]];
      FullIsDense(rest.value.kids[0], v.height - 1);
    }
    assert Contents(w) == Elems(v.root);
  }

  // ---------------------------------------------------------------- canonical shape

  lemma SameChildCount(m: nat, k: nat, p: nat, size: nat)
    requires p > 0 && (m - 1) * p < size <= m * p && (k - 1) * p < size <= k * p
    ensures m == k
  {
    if m < k { MulGrows(m, k - 1, p); } else if k < m { MulGrows(k, m - 1, p); }
  }

  lemma {:induction false} KidsUnique<T>(a: seq<Node<T>>, b: seq<Node<T>>, h: nat)
    requires AllFull(a, h) && AllFull(b, h) && |a| == |b| && Flat(a) == Flat(b)
    ensures a == b
    decreases h, 1, |a|
  {
    if a != [] {
      var last := |a| - 1;
      FullSize(a[last], h);
      FullSize(b[last], h);
      assert Flat(a)[|Flat(a[..last])|..] == Elems(a[last]);
      assert Flat(b)[|Flat(b[..last])|..] == Elems(b[last]);
      assert Flat(a)[..|Flat(a[..last])|] == Flat(a[..last]);
      assert Flat(b)[..|Flat(b[..last])|] == Flat(b[..last]);
      KidsUnique(a[..last], b[..last], h);
      FullIsDense(a[last], h);
      FullIsDense(b[last], h);
      DenseUnique(a[last], b[last], h);
      assert a == a[..last] + [a[last]] && b == b[..last] + [b[last]];
    }
  }

  /** Equal contents at equal height: equal trees. */
  lemma {:induction false} DenseUnique<T>(a: Node<T>, b: Node<T>, h: nat)
    requires Dense(a, h) && Dense(b, h) && Elems(a) == Elems(b)
    ensures a == b
    decreases h, 0, 0
  {
    if h > 0 {
      DenseSize(a, h);
      DenseSize(b, h);
      SameChildCount(|a.kids|, |b.kids|, Pow32(h), |Elems(a)|);
      var last := |a.kids| - 1;
      var mostA, mostB := a.kids[..last], b.kids[..last];
      AllFullSize(mostA, h - 1);
      AllFullSize(mostB, h - 1);
      assert Elems(a)[..|Flat(mostA)|] == Flat(mostA);
      assert Elems(b)[..|Flat(mostB)|] == Flat(mostB);
      assert Elems(a)[|Flat(mostA)|..] == Elems(a.kids[last]);
      assert Elems(b)[|Flat(mostB)|..] == Elems(b.kids[last]);
      KidsUnique(mostA, mostB, h - 1);
      DenseUnique(a.kids[last], b.kids[last], h - 1);
      assert a.kids == mostA + [a.kids[last]] && b.kids == mostB + [b.kids[last]];
    }
  }

  lemma Pow32Mono(a: nat, b: nat)
    requires a <= b
    ensures Pow32(a) <= Pow32(b)
  {
    if a < b { Pow32Mono(a, b - 1); }
  }

  lemma RootSize<T>(v: Vector<T>)
    requires Valid(v)
    ensures |Elems(v.root)| <= Pow32(v.height + 1) && |Elems(v.root)| % 32 == 0
    ensures v.height > 1 ==> |Elems(v.root)| > Pow32(v.height)
    ensures |Elems(v.root)| == 0 <==> EmptyRoot(v.root)
  {
    if !EmptyRoot(v.root) {
      DenseSize(v.root, v.height);
      DenseWhole(v.root, v.height);
      if v.height > 1 { MulGrows(1, |v.root.kids| - 1, Pow32(v.height)); }
    }
  }

  lemma HeightNotLess<T>(v: Vector<T>, w: Vector<T>)
    requires Valid(v) && Valid(w) && |Elems(v.root)| == |Elems(w.root)|
    ensures v.height >= w.height
  {
    if v.height < w.height {
      RootSize(v);
      RootSize(w);
      Pow32Mono(v.height + 1, w.height);
    }
  }

  /** The shape of a vector is determined by its contents. */
  lemma ShapeCanonical<T>(v: Vector<T>, w: Vector<T>)
    requires Valid(v) && Valid(w) && Contents(v) == Contents(w)
    ensures v == w
  {
    RootSize(v);
    RootSize(w);
    assert |v.tail| == |w.tail|;
    assert Contents(v)[..|Elems(v.root)|] == Elems(v.root);
    assert Contents(w)[..|Elems(w.root)|] == Elems(w.root);
    assert Contents(v)[|Elems(v.root)|..] == v.tail;
    assert Contents(w)[|Elems(w.root)|..] == w.tail;
    HeightNotLess(v, w);
    HeightNotLess(w, v);
    if !EmptyRoot(v.root) { DenseUnique(v.root, w.root, v.height); }
  }

  /** Popping undoes pushing, down to the structure. */
  lemma PopUndoesPush<T>(v: Vector<T>, x: T)
    requires Valid(v)
    ensures Valid(Push(v, x)) && Pop(Push(v, x)) == Ok(v)
  {
    PushAppends(v, x);
    PopDrops(Push(v, x));
    ShapeCanonical(Pop(Push(v, x)).value, v);
  }

  // ---------------------------------------------------------------- whole runs

  /** Every operation names the version it works on; its result becomes a new version. */
  datatype Op<T> = DoPush(version: nat, x: T) | DoSet(version: nat, index: int, x: T) | DoPop(version: nat)

  function Step<T>(v: Vector<T>, op: Op<T>): Result<Vector<T>>
    requires Valid(v)
  {
    match op
    case DoPush(_, x) => Ok(Push(v, x))
    case DoSet(_, i, x) => Set(v, i, x)
    case DoPop(_) => Pop(v)
  }

  /** The versions of a run; an operation that raises an error makes none. */
  ghost function Versions<T>(ops: seq<Op<T>>): (vs: seq<Vector<T>>)
    ensures vs != [] && forall k | 0 <= k < |vs| :: Valid(vs[k])
  {
    if ops == [] then [CreateEmpty()]
    else
      var vs, op := Versions(ops[..|ops| - 1]), ops[|ops| - 1];
      if op.version >= |vs| then vs
      else
        StepRefines(vs[op.version], op);
        var r := Step(vs[op.version], op);
        if r.Ok? then vs + [r.value] else vs
  }

  function StepSeq<T>(s: seq<T>, op: Op<T>): Result<seq<T>> {
    match op
    case DoPush(_, x) => Ok(s + [x])
    case DoSet(_, i, x) => if 0 <= i < |s| then Ok(s[i := x]) else OutOfBounds(i)
    case DoPop(_) => if s == [] then PopEmpty else Ok(s[..|s| - 1])
  }

  ghost function Meaning<T>(ops: seq<Op<T>>): seq<seq<T>> {
    if ops == [] then [[]]
    else
      var ss, op := Meaning(ops[..|ops| - 1]), ops[|ops| - 1];
      if op.version >= |ss| then ss
      else
        var r := StepSeq(ss[op.version], op);
        if r.Ok? then ss + [r.value] else ss
  }

  lemma StepRefines<T>(v: Vector<T>, op: Op<T>)
    requires Valid(v)
    ensures Step(v, op).Ok? <==> StepSeq(Contents(v), op).Ok?
    ensures Step(v, op).Ok? ==>
      Valid(Step(v, op).value) && Contents(Step(v, op).value) == StepSeq(Contents(v), op).value
  {
    match op
    case DoPush(_, x) => PushAppends(v, x);
    case DoSet(_, i, x) => SetUpdates(v, i, x);
    case DoPop(_) => PopDrops(v);
  }

  /** In any mix of pushes, sets and pops on any versions, every version made so far holds exactly
      the sequence it was made to hold, whatever was done to it afterwards. */
  lemma {:induction false} RunRefines<T>(ops: seq<Op<T>>)
    ensures |Versions(ops)| == |Meaning(ops)|
    ensures forall k | 0 <= k < |Versions(ops)| :: Contents(Versions(ops)[k]) == Meaning(ops)[k]
  {
    if ops != [] {
      var before, op := ops[..|ops| - 1], ops[|ops| - 1];
      RunRefines(before);
      if op.version < |Versions(before)| {
        StepRefines(Versions(before)[op.version], op);
      }
    }
  }
}
