/** The table of ltable.c: array part and node array updated in place. */
module LuaTable {
  import opened Arithmetic
  import opened LuaTableNodes
  import opened LuaTablePlacement
  import opened LuaTableSizes
  import opened LuaTableContents
  import opened LuaTableTraversal

  /** What a `TValue *` into a table points at. */
  datatype Cell = ArrayCell(i: nat) | NodeCell(i: nat)

  /** luaH_set returns a cell, or raises "table index is nil" or "table overflow". */
  datatype SetResult = Found(cell: Cell) | IndexIsNil | TableOverflow

  class Table {
    const hash: Hash
    var arr: array<TValue>
    var sizearray: nat
    var node: array<Node>
    /** The node array is the shared `dummynode`. */
    var dummy: bool
    var lastfree: int
    ghost var rank: seq<nat>

    /** luaH_new */
    constructor (hash: Hash, narray: nat, nhash: nat)
      requires narray <= MAXASIZE && nhash <= MAXASIZE
      ensures Valid() && fresh(arr) && fresh(node) && sizearray == narray
      ensures forall k :: At(k) == Nil
    {
      this.hash := hash;
      arr := new TValue[narray](_ => Nil);
      sizearray := narray;
      node := new Node[1](_ => Node(Nil, Nil, -1));
      dummy, lastfree, rank := true, 0, [0];
      new;
      var ok := SetNodeVector(nhash);
      assert forall k :: k != Nil ==> !HasKey(node[..], k);
    }

    ghost predicate ValidNodes()
      reads this, node
    {
      && Inv(hash, node[..], rank)
      && lastfree <= node.Length
      && (if dummy then node.Length == 1 && node[0] == Node(Nil, Nil, -1) && lastfree <= 0
          else TakenAbove(node[..], lastfree) && exists b: nat :: b <= MAXBITS && node.Length == Pow2(b))
    }

    ghost predicate Valid()
      reads this, arr, node
    {
      && sizearray <= arr.Length && sizearray <= MAXASIZE
      && ValidNodes()
      && NoShadow(sizearray, node[..])
    }

    /** The table as a function from keys to values; nil stands for absence. */
    ghost function At(k: TValue): TValue
      requires sizearray <= arr.Length
      reads this, arr, node
    {
      AtSeq(arr[..], sizearray, node[..], k)
    }

    ghost function Live(): set<TValue>
      requires sizearray <= arr.Length
      reads this, arr, node
    {
      LiveKeys(arr[..], sizearray, node[..])
    }

    /** `cell` is where the value of `key` is stored. */
    ghost predicate Addresses(cell: Cell, key: TValue)
      reads this, arr, node
    {
      match cell
      case ArrayCell(i) => i < sizearray <= arr.Length && key == Num(i + 1)
      case NodeCell(i) => i < node.Length && node[i].key == key && key != Nil && !InArray(sizearray, key)
    }

    // -------------------------------------------------------------- reading

    /** The chain walk of luaH_getnum, luaH_getstr and luaH_get. */
    method FindNode(key: TValue) returns (i: int)
      requires ValidNodes() && key != Nil
      ensures i == Find(node[..], rank, MainPosition(hash, node.Length, key), key)
      ensures if i >= 0 then i < node.Length && node[i].key == key else !HasKey(node[..], key)
    {
      FindComplete(hash, node[..], rank, key);
      i := MainPosition(hash, node.Length, key);
      while true
        invariant 0 <= i < node.Length
        invariant Find(node[..], rank, i, key) == Find(node[..], rank, MainPosition(hash, node.Length, key), key)
        decreases rank[i]
      {
        if node[i].key == key { return; }
        if node[i].next < 0 { return -1; }
        i := node[i].next;
      }
    }

    /** luaH_get */
    method Get(key: TValue) returns (v: TValue)
      requires Valid()
      ensures v == At(key)
    {
      if key == Nil { return Nil; }
      if key.Num? && 1 <= key.n <= sizearray { return arr[key.n - 1]; }
      var i := FindNode(key);
      if i < 0 { return Nil; }
      ValueAtNode(node[..], i);
      return node[i].val;
    }

    /** The cell of a key that is already in the table. */
    method FindCell(key: TValue) returns (found: bool, cell: Cell)
      requires Valid() && key != Nil
      ensures found ==> Addresses(cell, key)
      ensures !found ==> !InArray(sizearray, key) && !HasKey(node[..], key)
    {
      cell := ArrayCell(0);
      if key.Num? && 1 <= key.n <= sizearray { return true, ArrayCell(key.n - 1); }
      var i := FindNode(key);
      if i < 0 { return false, cell; }
      return true, NodeCell(i);
    }

    // -------------------------------------------------------------- storing

    /** Stores through a cell. */
    method Store(cell: Cell, ghost key: TValue, v: TValue)
      requires Valid() && Addresses(cell, key)
      modifies arr, node
      ensures Valid() && Addresses(cell, key)
      ensures forall k :: At(k) == if k == key then v else old(At(k))
      ensures forall k :: HasKey(node[..], k) <==> old(HasKey(node[..], k))
      ensures cell.NodeCell? ==> arr[..] == old(arr[..])
      ensures forall i | 0 <= i < node.Length :: node[i].key == old(node[i].key)
    {
      match cell
      case ArrayCell(i) =>
        arr[i] := v;
      case NodeCell(i) =>
        ghost var was := node[..];
        node[i] := node[i].(val := v);
        assert node[..] == was[i := was[i].(val := v)];
        StoreInv(hash, was, rank, i, v);
        forall k | k != key ensures ValueAt(node[..], k) == ValueAt(was, k)
            && (HasKey(node[..], k) <==> HasKey(was, k)) {
          StoreOthers(was, i, v, k);
        }
    }

    // -------------------------------------------------------------- newkey

    method GetFreePos() returns (n: int)
      requires lastfree <= node.Length
      modifies this`lastfree
      ensures (lastfree, n) == FreePos(node[..], old(lastfree))
    {
      while lastfree > 0
        invariant lastfree <= node.Length
        invariant FreePos(node[..], lastfree) == FreePos(node[..], old(lastfree))
        decreases lastfree
      {
        lastfree := lastfree - 1;
        if node[lastfree].key == Nil { return lastfree; }
      }
      lastfree := lastfree - 1;
      return -1;
    }

    /** The search for the node before `mp` in its chain. */
    method FindPrevious(start: nat, mp: nat) returns (p: nat)
      requires Links(node[..], rank) && start < node.Length && start != mp && Reaches(node[..], rank, start, mp)
      ensures p == FindPrev(node[..], rank, start, mp)
    {
      p := start;
      while node[p].next != mp
        invariant p < node.Length && p != mp && Reaches(node[..], rank, p, mp)
        invariant FindPrev(node[..], rank, p, mp) == FindPrev(node[..], rank, start, mp)
        decreases rank[p]
      {
        p := node[p].next;
      }
    }

    /** The colliding node moves into the free position `n`; the new key gets its place. */
    method TakePlace(othern: nat, mp: nat, n: nat, key: TValue)
      requires othern < node.Length && mp < node.Length && n < node.Length
      requires othern != mp && n != mp && n != othern
      modifies node
      ensures node[..] == MoveAway(old(node[..]), othern, mp, n, key)
    {
      node[othern] := node[othern].(next := n);
      node[n] := node[mp];
      node[mp] := node[mp].(next := -1);
      node[mp] := node[mp].(val := Nil);
      node[mp] := node[mp].(key := key);
    }

    /** The new key goes into the free position `n`, chained behind `mp`. */
    method TakeFree(mp: nat, n: nat, key: TValue)
      requires mp < node.Length && n < node.Length && n != mp
      modifies node
      ensures node[..] == ChainBehind(old(node[..]), mp, n, key)
    {
      node[n] := node[n].(next := node[mp].next);
      node[mp] := node[mp].(next := n);
      node[n] := node[n].(key := key);
    }

    /** newkey up to the point where it would have to rehash, which it reports as -1. */
    method PutKey(key: TValue) returns (slot: int)
      requires ValidNodes()
      modifies this`lastfree, node
      ensures old(Place(hash, node[..], rank, lastfree, dummy, key)) ==
        if slot < 0 then NoRoom else Placed(node[..], lastfree, slot)
      ensures slot < 0 ==> node[..] == old(node[..]) && (lastfree, -1) == FreePos(node[..], old(lastfree))
    {
      var mp := MainPosition(hash, node.Length, key);
      if node[mp].val != Nil || dummy {
        var n := GetFreePos();
        if n < 0 { return -1; }
        assert node[n].key == Nil && node[n].val == Nil;
        var othern := MainPosition(hash, node.Length, node[mp].key);
        if othern != mp {
          assert Findable(hash, node[..], rank, mp);
          var prev := FindPrevious(othern, mp);
          TakePlace(prev, mp, n, key);
          return mp;
        } else {
          TakeFree(mp, n, key);
          return n;
        }
      }
      node[mp] := node[mp].(key := key);
      return mp;
    }

    // -------------------------------------------------------------- counting for a rehash

    /** countint: counts `key` if it is a candidate for the array part. */
    method CountInt(key: TValue, nums: array<nat>, ghost keys: set<TValue>) returns (c: nat)
      requires key !in keys && Counted(nums[..], keys)
      modifies nums
      ensures Counted(nums[..], keys + {key})
      ensures |Ints(keys + {key})| == |Ints(keys)| + c
    {
      forall b | 0 <= b <= MAXBITS
        ensures Slice(Ints(keys + {key}), b) == Slice(Ints(keys), b) + if Candidate(key)
                && CeilLog2(key.n) == b then 1 else 0
      {
        CountOneMore(keys, key, b);
      }
      CountOneMore(keys, key, 0);
      if key.Num? && 0 < key.n <= MAXASIZE {
        var b := CeilLog2(key.n);
        assert b <= MAXBITS by {
          MaxASize();
          if b > MAXBITS { Pow2Grows(MAXBITS + 1, b); }
        }
        nums[b] := nums[b] + 1;
        return 1;
      }
      return 0;
    }

    /** The inner loop of numusearray: the live keys start..lim, all of slice `lg`. */
    method CountSlice(lg: nat, start: nat, lim: nat) returns (lc: nat, i: nat)
      requires sizearray <= arr.Length && sizearray <= MAXASIZE && lim <= sizearray
      requires Pow2(lg) / 2 < start <= lim + 1 && lim <= Pow2(lg)
      ensures i == lim + 1
      ensures |ArrayKeys(arr[..], lim)| == |ArrayKeys(arr[..], start - 1)| + lc
      ensures SliceGains(Ints(ArrayKeys(arr[..], start - 1)), Ints(ArrayKeys(arr[..], lim)), lg, lc)
    {
      ghost var a := arr[..];
      i, lc := start, 0;
      while i <= lim
        invariant start <= i <= lim + 1
        invariant |ArrayKeys(a, i - 1)| == |ArrayKeys(a, start - 1)| + lc
        invariant SliceGains(Ints(ArrayKeys(a, start - 1)), Ints(ArrayKeys(a, i - 1)), lg, lc)
      {
        NextArrayKey(a, i, lg);
        if arr[i - 1] != Nil { lc := lc + 1; }
        i := i + 1;
      }
    }

    /** The keys 1..i have been counted, `ause` of them live. */
    ghost predicate CountedUpTo(nums: seq<nat>, i: nat, ause: nat)
      requires i <= sizearray <= arr.Length
      reads this, arr
    {
      var keys := ArrayKeys(arr[..], i);
      Counted(nums, keys) && ause == |keys| && ause == |Ints(keys)|
    }

    /** The body of numusearray's loop: slice `lg`, from `start` up to `lim`. */
    method CountOneSlice(nums: array<nat>, lg: nat, start: nat, lim: nat, ause: nat) returns (lc: nat, i: nat)
      requires 1 <= start <= lim <= sizearray <= arr.Length && sizearray <= MAXASIZE && lg <= MAXBITS
      requires Pow2(lg) / 2 < start && lim <= Pow2(lg) && CountedUpTo(nums[..], start - 1, ause)
      modifies nums
      ensures i == lim + 1 && CountedUpTo(nums[..], lim, ause + lc)
    {
      ghost var a, ns := arr[..], nums[..];
      lc, i := CountSlice(lg, start, lim);
      CountedGains(ns, ArrayKeys(a, start - 1), ArrayKeys(a, lim), lg, lc);
      nums[lg] := nums[lg] + lc;
      assert nums[..] == ns[lg := ns[lg] + lc];
    }

    /** numusearray */
    method NumUseArray(nums: array<nat>) returns (ause: nat)
      requires sizearray <= arr.Length && sizearray <= MAXASIZE && Counted(nums[..], {})
      modifies nums
      ensures CountedUpTo(nums[..], sizearray, ause)
    {
      MaxASize();
      var lg, ttlg, i := 0, 1, 1;
      ause := 0;
      assert ArrayKeys(arr[..], 0) == {} && Ints({}) == {};
      while lg <= MAXBITS
        invariant 0 <= lg <= MAXBITS + 1 && ttlg == Pow2(lg)
        invariant 1 <= i <= sizearray + 1 && (i - 1 == ttlg / 2 || (i - 1 == sizearray && sizearray < ttlg / 2))
        invariant CountedUpTo(nums[..], i - 1, ause)
        decreases MAXBITS + 1 - lg
      {
        var lim := ttlg;
        if lim > sizearray {
          lim := sizearray;
          if i > lim { break; }
        }
        var lc;
        lc, i := CountOneSlice(nums, lg, i, lim, ause);
        ause := ause + lc;
        lg, ttlg := lg + 1, ttlg * 2;
      }
    }

    /** numusehash: the number of live keys in the hash part, added to those of the array part. */
    method NumUseHash(nums: array<nat>, ause: nat) returns (totaluse: nat, nasize: nat)
      requires Valid() && CountedUpTo(nums[..], sizearray, ause)
      modifies nums
      ensures Counted(nums[..], Live())
      ensures totaluse == |Live()| && nasize == |Ints(Live())|
    {
      ghost var a, ns := arr[..], node[..];
      ghost var base := ArrayKeys(a, sizearray);
      var i := node.Length;
      totaluse, nasize := ause, ause;
      assert base + NodeKeys(ns[i..]) == base;
      while i > 0
        invariant 0 <= i <= node.Length && arr[..] == a && node[..] == ns
        invariant Counted(nums[..], base + NodeKeys(ns[i..]))
        invariant totaluse == |base + NodeKeys(ns[i..])| && nasize == |Ints(base + NodeKeys(ns[i..]))|
      {
        i := i - 1;
        ghost var seen := base + NodeKeys(ns[i + 1..]);
        NextNodeKey(a, sizearray, ns, i);
        if node[i].val != Nil {
          var c := CountInt(node[i].key, nums, seen);
          nasize := nasize + c;
          totaluse := totaluse + 1;
        }
      }
      assert ns[0..] == ns;
    }

    // -------------------------------------------------------------- resizing

    /** setarrayvector: reallocates the array part; new slots are nil. */
    method SetArrayVector(size: nat)
      requires sizearray <= arr.Length
      modifies this`arr, this`sizearray
      ensures fresh(arr) && arr.Length == sizearray == size
      ensures forall i | 0 <= i < size :: arr[i] == if i < old(sizearray) then old(arr[i]) else Nil
    {
      var a := new TValue[size](_ => Nil);
      var n, i := if size < sizearray then size else sizearray, 0;
      while i < n
        invariant 0 <= i <= n && arr == old(arr) && sizearray == old(sizearray)
        invariant forall j | 0 <= j < size :: a[j] == if j < i then arr[j] else Nil
      {
        a[i] := arr[i];
        i := i + 1;
      }
      arr, sizearray := a, size;
    }

    /** An array of `size` free nodes. */
    method NewNodes(size: nat) returns (a: array<Node>)
      ensures fresh(a) && a.Length == size && forall i | 0 <= i < size :: a[i] == Node(Nil, Nil, -1)
    {
      a := new Node[size](_ => Node(Nil, Nil, -1));
    }

    /** setnodevector: a new, empty hash part; fails with "table overflow". */
    method SetNodeVector(size: nat) returns (ok: bool)
      modifies this`node, this`dummy, this`lastfree, this`rank
      ensures ok <==> size <= MAXASIZE
      ensures if ok then fresh(node) && ValidNodes()
              && (forall i | 0 <= i < node.Length :: node[i] == Node(Nil, Nil, -1))
                         && (dummy <==> size == 0) && size <= node.Length
              else node == old(node)
    {
      MaxASize();
      if size == 0 {
        node := NewNodes(1);
        dummy, lastfree := true, 0;
      } else {
        var lsize := CeilLog2(size);
        CeilLog2Least(size, MAXBITS);
        if lsize > MAXBITS { return false; }
        node := NewNodes(Pow2(lsize));
        dummy, lastfree := false, Pow2(lsize);
      }
      rank := seq(node.Length, _ => 0);
      EmptyInv(hash, node[..], rank);
      return true;
    }

    /** `key` can be set without a rehash. */
    ghost predicate Room(key: TValue)
      reads this, node
    {
      InArray(sizearray, key) || HasKey(node[..], key) || (!dummy && HasFree(node[..]))
    }

    ghost function Work(key: TValue): nat
      reads this, node
    {
      if Room(key) then 0 else 1
    }

    /** luaH_set: the cell of `key`, which is added if it is not there. */
    method Set(key: TValue) returns (r: SetResult)
      requires Valid()
      modifies this, arr, node
      ensures r.IndexIsNil? <==> key == Nil
      ensures r.Found? ==> Valid() && Addresses(r.cell, key) && forall k :: At(k) == old(At(k))
      ensures r.IndexIsNil? ==> Valid() && forall k :: At(k) == old(At(k))
      ensures r.TableOverflow? ==> old(|Live()|) >= MAXASIZE
      ensures key != Nil && old(Room(key)) ==>
        (r.Found? && arr == old(arr) && node == old(node) && sizearray == old(sizearray) && dummy == old(dummy))
      ensures key != Nil && old(Room(key)) ==>
        (arr[..] == old(arr[..]) && forall k | k != Nil && HasKey(node[..], k) :: k == key || old(HasKey(node[..], k)))
      ensures (fresh(arr) || arr == old(arr)) && (fresh(node) || node == old(node))
      decreases Work(key), 4
    {
      if key == Nil { return IndexIsNil; }
      var found, cell := FindCell(key);
      if found { return Found(cell); }
      r := NewKey(key);
    }

    /** newkey */
    method NewKey(key: TValue) returns (r: SetResult)
      requires Valid() && key != Nil && !InArray(sizearray, key) && !HasKey(node[..], key)
      modifies this, arr, node
      ensures !r.IndexIsNil?
      ensures r.Found? ==> Valid() && Addresses(r.cell, key) && forall k :: At(k) == old(At(k))
      ensures r.TableOverflow? ==> old(|Live()|) >= MAXASIZE
      ensures old(Room(key)) ==>
        (r.Found? && arr == old(arr) && node == old(node) && sizearray == old(sizearray) && dummy == old(dummy))
      ensures old(Room(key)) ==>
        (arr[..] == old(arr[..]) && forall k | k != Nil && HasKey(node[..], k) :: k == key || old(HasKey(node[..], k)))
      ensures (fresh(arr) || arr == old(arr)) && (fresh(node) || node == old(node))
      decreases Work(key), 3
    {
      var slot := PlaceNew(key);
      if slot >= 0 { return Found(NodeCell(slot)); }
      var ok := Rehash(key);
      if !ok { return TableOverflow; }
      r := Set(key);
    }

    /** newkey as far as the hash part has room for the key. */
    method PlaceNew(key: TValue) returns (slot: int)
      requires Valid() && key != Nil && !InArray(sizearray, key) && !HasKey(node[..], key)
      modifies this`lastfree, this`rank, node
      ensures slot < 0 ==> Valid() && node[..] == old(node[..]) && !old(Room(key))
      ensures slot >= 0 ==> Valid() && Addresses(NodeCell(slot), key)
      ensures forall k :: At(k) == old(At(k))
      ensures forall k | k != Nil && HasKey(node[..], k) :: k == key || old(HasKey(node[..], k))
    {
      ghost var ns, rank0, last0 := node[..], rank, lastfree;
      slot := PutKey(key);
      if slot < 0 {
        assert !Room(key) by {
          if !dummy && HasFree(ns) { FreePosFound(ns, last0); }
        }
      } else {
        rank := PlaceRank(hash, ns, rank0, last0, dummy, key);
        PlaceInv(hash, ns, rank0, last0, dummy, key);
        PlaceKeepsTable(hash, ns, rank0, last0, dummy, key, sizearray);
      }
    }

    /** The pair `setobj(luaH_set(t, key), v)` that resize is made of. */
    method Reinsert(key: TValue, v: TValue)
      requires Valid() && key != Nil && Room(key)
      modifies this, arr, node
      ensures Valid() && arr == old(arr) && node == old(node) && sizearray == old(sizearray) && dummy == old(dummy)
      ensures !InArray(sizearray, key) ==> arr[..] == old(arr[..])
      ensures forall k :: At(k) == if k == key then v else old(At(k))
      ensures forall k | k != Nil
              && HasKey(node[..], k) :: (k == key && !InArray(sizearray, k)) || old(HasKey(node[..], k))
      decreases Work(key), 5
    {
      var r := Set(key);
      Store(r.cell, key, v);
    }

    /** resize: moves every live entry to where the new sizes put it. */
    method Resize(nasize: nat, nhsize: nat) returns (ok: bool)
      requires Valid() && nasize <= MAXASIZE && |Pending(Live(), nasize)| <= nhsize
      modifies this, arr, node
      ensures ok <==> nhsize <= MAXASIZE
      ensures ok ==> Valid() && sizearray == nasize && forall k :: At(k) == old(At(k))
      ensures ok ==> (dummy <==> nhsize == 0) && nhsize <= node.Length
      ensures ok ==> KeySet(node[..]) <= Pending(old(Live()), nasize)
      ensures (fresh(arr) || arr == old(arr)) && (fresh(node) || node == old(node))
      decreases 1, 1
    {
      ghost var a, sz, ns := arr[..], sizearray, node[..];
      var nold, oldasize := node, sizearray;
      ok := ResizeVectors(nasize, nhsize);
      if !ok { return; }
      if nasize < oldasize { ShrinkArray(nasize, a, ns, nhsize); }
      ReinsertNodes(nold, a, sz, ns, nhsize);
      FillingKeys(a, sz, ns, nhsize);
    }

    /** The array part shrinks: its vanishing slice goes into the hash part, still empty. */
    method ShrinkArray(nasize: nat, ghost a: seq<TValue>, ghost ns: seq<Node>, ghost nhsize: nat)
      requires nasize < sizearray <= arr.Length && sizearray <= MAXASIZE && arr[..] == a
      requires ValidNodes() && forall i | 0 <= i < node.Length :: node[i].key == Nil
      requires DistinctKeys(ns) && FreeNodes(ns) && NoShadow(sizearray, ns)
      requires |Pending(LiveKeys(a, sizearray, ns), nasize)| <= nhsize <= node.Length && (dummy <==> nhsize == 0)
      modifies this, arr, node
      ensures sizearray == nasize && node == old(node) && fresh(arr) && Filling(a, old(sizearray), ns, nhsize)
      ensures forall k :: At(k) == if InArray(old(sizearray), k) then AtSeq(a, old(sizearray), ns, k) else Nil
      ensures forall k | k != Nil && HasKey(node[..], k) :: InArray(old(sizearray), k)
      decreases 1, 1, 0
    {
      var oldasize := sizearray;
      sizearray := nasize;
      ReinsertSlice(oldasize, a, ns, nhsize);
      CutArray(oldasize, a, ns, nhsize);
    }

    /** Gives up the part of the array behind its new size. */
    method CutArray(ghost oldasize: nat, ghost a: seq<TValue>, ghost ns: seq<Node>, ghost nhsize: nat)
      requires sizearray <= arr.Length && oldasize <= |a| && Filling(a, oldasize, ns, nhsize)
      modifies this`arr, this`sizearray
      ensures fresh(arr) && sizearray == old(sizearray) && Filling(a, oldasize, ns, nhsize)
      ensures forall k :: At(k) == old(At(k))
    {
      ghost var was := arr[..sizearray];
      SetArrayVector(sizearray);
      assert arr[..] == was;
    }

    /** The first half of resize: the array part grown and an empty hash part. */
    method ResizeVectors(nasize: nat, nhsize: nat) returns (ok: bool)
      requires Valid() && nasize <= MAXASIZE
      modifies this
      ensures ok <==> nhsize <= MAXASIZE
      ensures ok ==> ValidNodes() && fresh(node) && (dummy <==> nhsize == 0) && nhsize <= node.Length
      ensures ok ==> forall i | 0 <= i < node.Length :: node[i].key == Nil
      ensures if nasize > old(sizearray)
        then fresh(arr) && sizearray == arr.Length == nasize
          && forall i | 0 <= i < nasize :: arr[i] == if i < old(sizearray) then old(arr[i]) else Nil
        else arr == old(arr) && sizearray == old(sizearray)
      ensures !ok ==> node == old(node)
    {
      if nasize > sizearray { SetArrayVector(nasize); }
      ok := SetNodeVector(nhsize);
    }

    /** What the re-insertions rely on while they fill an empty hash part. */
    ghost predicate Filling(a: seq<TValue>, sz: nat, ns: seq<Node>, nhsize: nat)
      requires sz <= |a|
      reads this, arr, node
    {
      && Valid() && DistinctKeys(ns) && FreeNodes(ns) && NoShadow(sz, ns)
      && |Pending(LiveKeys(a, sz, ns), sizearray)| <= nhsize <= node.Length && (dummy <==> nhsize == 0)
      && forall k | k != Nil && HasKey(node[..], k) :: k in Pending(LiveKeys(a, sz, ns), sizearray)
    }

    lemma FillingKeys(a: seq<TValue>, sz: nat, ns: seq<Node>, nhsize: nat)
      requires sz <= |a| && Filling(a, sz, ns, nhsize)
      ensures KeySet(node[..]) <= Pending(LiveKeys(a, sz, ns), sizearray)
    {
      forall k | k in KeySet(node[..]) ensures k in Pending(LiveKeys(a, sz, ns), sizearray) {
        assert HasKey(node[..], k);
      }
    }

    /** A key that is still to be inserted has room. */
    lemma FillingRoom(a: seq<TValue>, sz: nat, ns: seq<Node>, nhsize: nat, key: TValue)
      requires sz <= |a| && Filling(a, sz, ns, nhsize)
      requires key != Nil && AtSeq(a, sz, ns, key) != Nil && !HasKey(node[..], key)
      ensures Room(key)
    {
      if !InArray(sizearray, key) {
        LiveKeysAt(a, sz, ns, key);
        var pending := Pending(LiveKeys(a, sz, ns), sizearray);
        assert key in pending;
        KeysLeaveRoom(node[..], pending, key);
      }
    }

    /** Re-inserts an old entry that is not there yet. */
    method ReinsertNew(key: TValue, v: TValue, ghost a: seq<TValue>, ghost sz: nat, ghost ns: seq<Node>,
                       ghost nhsize: nat)
      requires sz <= |a| && Filling(a, sz, ns, nhsize)
      requires key != Nil && v != Nil && AtSeq(a, sz, ns, key) == v && !HasKey(node[..], key)
      modifies this, arr, node
      ensures arr == old(arr) && node == old(node) && sizearray == old(sizearray) && Filling(a, sz, ns, nhsize)
      ensures !InArray(sizearray, key) ==> arr[..] == old(arr[..])
      ensures forall k :: At(k) == if k == key then v else old(At(k))
      ensures forall k | k != Nil
              && HasKey(node[..], k) :: (k == key && !InArray(sizearray, k)) || old(HasKey(node[..], k))
      decreases 0, 6
    {
      FillingRoom(a, sz, ns, nhsize, key);
      LiveKeysAt(a, sz, ns, key);
      Reinsert(key, v);
    }

    /** The re-insertion of the vanishing slice of the array part. */
    method ReinsertSlice(oldasize: nat, ghost a: seq<TValue>, ghost ns: seq<Node>, ghost nhsize: nat)
      requires sizearray <= oldasize <= arr.Length && arr[..] == a && Filling(a, oldasize, ns, nhsize)
      requires forall k :: At(k) == if InArray(sizearray, k) then AtSeq(a, oldasize, ns, k) else Nil
      requires forall k | k != Nil :: !HasKey(node[..], k)
      modifies this, arr, node
      ensures arr == old(arr) && node == old(node) && sizearray == old(sizearray) && Filling(a, oldasize, ns, nhsize)
      ensures forall k :: At(k) == if InArray(oldasize, k) then AtSeq(a, oldasize, ns, k) else Nil
      ensures forall k | k != Nil && HasKey(node[..], k) :: InArray(oldasize, k)
      decreases 1, 0
    {
      var i := sizearray;
      while i < oldasize
        invariant sizearray <= i <= oldasize && arr == old(arr) && node == old(node) && sizearray == old(sizearray)
        invariant arr[..] == a && Filling(a, oldasize, ns, nhsize)
        invariant forall k :: At(k) == if InArray(i, k) then AtSeq(a, oldasize, ns, k) else Nil
        invariant forall k | k != Nil && HasKey(node[..], k) :: InArray(i, k)
      {
        if arr[i] != Nil {
          var key := Num(i + 1);
          assert AtSeq(a, oldasize, ns, key) == a[i];
          ReinsertNew(key, arr[i], a, oldasize, ns, nhsize);
        }
        InArrayNext(i);
        i := i + 1;
      }
    }

    /** The re-insertion of the old nodes, from the last to the first. */
    method ReinsertNodes(nold: array<Node>, ghost a: seq<TValue>, ghost sz: nat, ghost ns: seq<Node>, ghost nhsize: nat)
      requires sz <= |a| && nold != node && nold[..] == ns && Filling(a, sz, ns, nhsize)
      requires forall k :: At(k) == if InArray(sz, k) then AtSeq(a, sz, ns, k) else Nil
      requires forall k | k != Nil && HasKey(node[..], k) :: InArray(sz, k)
      modifies this, arr, node
      ensures arr == old(arr) && node == old(node) && sizearray == old(sizearray) && Filling(a, sz, ns, nhsize)
      ensures forall k :: At(k) == AtSeq(a, sz, ns, k)
      decreases 1, 0
    {
      var i := nold.Length;
      while i > 0
        invariant 0 <= i <= nold.Length && arr == old(arr) && node == old(node) && sizearray == old(sizearray)
        invariant nold[..] == ns && Filling(a, sz, ns, nhsize)
        invariant forall k :: At(k) == if InArray(sz, k) || HasKey(ns[i..], k) then AtSeq(a, sz, ns, k) else Nil
        invariant forall k | k != Nil && HasKey(node[..], k) :: InArray(sz, k) || HasKey(ns[i..], k)
      {
        i := i - 1;
        KeyFrom(ns, i);
        if nold[i].key != Nil { ValueAtNode(ns, i); }
        if nold[i].val != Nil { ReinsertNew(nold[i].key, nold[i].val, a, sz, ns, nhsize); }
      }
      assert ns[0..] == ns;
    }

    /** The counting half of rehash: the optimal array size and how many keys, `ek` included, it
        leaves for the hash part. */
    method RehashSizes(ek: TValue) returns (n: nat, nhsize: nat)
      requires Valid() && ek != Nil && ek !in Live()
      ensures n <= MAXASIZE && Optimal(Ints(Live() + {ek}), n)
      ensures nhsize == |Pending(Live() + {ek}, n)|
    {
      var nums := new nat[MAXBITS + 1](_ => 0);
      ghost var live := Live();
      CountedNone(nums[..]);
      var ause := NumUseArray(nums);
      var totaluse, nasize := NumUseHash(nums, ause);
      assert Live() == live;
      var c := CountInt(ek, nums, live);
      var na;
      n, na := ComputeSizes(nums, nasize + c, Ints(live + {ek}));
      PendingSize(live + {ek}, n);
      assert |live + {ek}| == |live| + 1;
      nhsize := totaluse + 1 - na;
    }

    /** rehash: counts the keys, `ek` included, computes the new sizes and resizes to them.
        Afterwards `ek` has room, so setting it cannot rehash again. */
    method Rehash(ek: TValue) returns (ok: bool)
      requires Valid() && ek != Nil && !InArray(sizearray, ek) && !HasKey(node[..], ek)
      modifies this, arr, node
      ensures ok ==> Valid() && Room(ek) && forall k :: At(k) == old(At(k))
      ensures !ok ==> old(|Live()|) >= MAXASIZE
      ensures (fresh(arr) || arr == old(arr)) && (fresh(node) || node == old(node))
      decreases 1, 2
    {
      ghost var live := Live();
      LiveKeysAt(arr[..], sizearray, node[..], ek);
      var n, nhsize := RehashSizes(ek);
      PendingGrows(live, ek, n);
      ok := Resize(n, nhsize);
      if ok && !InArray(n, ek) && !HasKey(node[..], ek) {
        assert forall k | k != Nil && HasKey(node[..], k) :: k in KeySet(node[..]);
        KeysLeaveRoom(node[..], Pending(live + {ek}, n), ek);
      }
    }

    /** t[key] = v: the table as a map is updated at `key` and nowhere else. */
    method RawSet(key: TValue, v: TValue) returns (r: SetResult)
      requires Valid()
      modifies this, arr, node
      ensures r.IndexIsNil? <==> key == Nil
      ensures r.Found? ==> Valid() && forall k :: At(k) == if k == key then v else old(At(k))
      ensures r.TableOverflow? ==> old(|Live()|) >= MAXASIZE
    {
      r := Set(key);
      if r.Found? { Store(r.cell, key, v); }
    }

    // -------------------------------------------------------------- traversal

    /** What a traversal sees, the array part before the hash part. */
    ghost function Entries(): Order
      requires sizearray <= arr.Length
      reads this, arr, node
    {
      OrderOf(arr[..], sizearray, node[..])
    }

    /** findindex: the position of a key in the traversal order, or -2 for an invalid key. */
    method FindIndex(key: TValue) returns (i: int)
      requires Valid()
      ensures key == Nil ==> i == -1
      ensures key != Nil && i != -2 ==> 0 <= i < |Entries().keys| && Entries().keys[i] == key
      ensures i == -2 <==> key != Nil && key !in Entries().keys
      ensures -2 <= i
    {
      if key == Nil { return -1; }
      OrderKeys(arr[..], sizearray, node[..], key);
      if key.Num? && 0 < key.n <= sizearray { return key.n - 1; }
      var n := FindNode(key);
      if n < 0 { return -2; }
      return n + sizearray;
    }

    /** luaH_next: the entry after `key`, which may itself be nil by now. */
    method Next(key: TValue) returns (r: NextResult)
      requires Valid()
      ensures r == Following(Entries(), key)
    {
      var i := FindIndex(key);
      FollowingAt(arr[..], sizearray, node[..], key, i);
      if i == -2 { return InvalidKey; }
      r := NextFrom(i + 1);
    }

    /** The scanning loops of luaH_next. */
    method NextFrom(start: nat) returns (r: NextResult)
      requires sizearray <= arr.Length && start <= sizearray + node.Length
      ensures r == After(Entries(), start)
    {
      ghost var e := Entries();
      var i := start;
      while i < sizearray
        invariant start <= i && (start <= sizearray ==> i <= sizearray) && (start > sizearray ==> i == start)
        invariant After(e, i) == After(e, start)
      {
        assert e.keys[i] == Num(i + 1) && e.vals[i] == arr[i];
        if arr[i] != Nil { return Entry(Num(i + 1), arr[i]); }
        i := i + 1;
      }
      i := i - sizearray;
      while i < node.Length
        invariant 0 <= i <= node.Length && After(e, i + sizearray) == After(e, start)
      {
        assert e.keys[i + sizearray] == node[i].key && e.vals[i + sizearray] == node[i].val;
        if node[i].val != Nil { return Entry(node[i].key, node[i].val); }
        i := i + 1;
      }
      return End;
    }

    // -------------------------------------------------------------- the length operator

    /** A border of the table: t[n] is present, or n is 0, and t[n + 1] is absent. */
    ghost predicate Boundary(n: nat)
      requires sizearray <= arr.Length
      reads this, arr, node
    {
      (n > 0 ==> At(Num(n)) != Nil) && At(Num(n + 1)) == Nil
    }

    /** The binary search between a present and an absent index. */
    method Bisect(lo: nat, hi: nat) returns (n: nat)
      requires Valid() && lo < hi && (lo > 0 ==> At(Num(lo)) != Nil) && At(Num(hi)) == Nil
      ensures Boundary(n) && lo <= n < hi
    {
      var i, j := lo, hi;
      while j - i > 1
        invariant lo <= i < j <= hi && (i > 0 ==> At(Num(i)) != Nil) && At(Num(j)) == Nil
      {
        var m := (i + j) / 2;
        var v := Get(Num(m));
        if v == Nil { j := m; } else { i := m; }
      }
      return i;
    }

    ghost function LiveFrom(i: int): set<TValue>
      requires sizearray <= arr.Length
      reads this, arr, node
    {
      set k | k in Live() && k.Num? && k.n >= i
    }

    /** unbound_search, `start` being present or 0 */
    method UnboundSearch(start: nat) returns (n: nat)
      requires Valid() && (start > 0 ==> At(Num(start)) != Nil)
      ensures Boundary(n)
    {
      var i, j := start, start + 1;
      var v := Get(Num(j));
      while v != Nil
        invariant 0 <= i < j && (i > 0 ==> At(Num(i)) != Nil) && v == At(Num(j))
        invariant j <= MAXINT || j == start + 1
        decreases 2 * MAXINT + start + 2 - j
      {
        i := j;
        j := j * 2;
        if j > MAXINT { n := LinearSearch(); return; }
        v := Get(Num(j));
      }
      n := Bisect(i, j);
    }

    /** The fallback of unbound_search; it ends because a table has finitely many keys. */
    method LinearSearch() returns (n: nat)
      requires Valid()
      ensures Boundary(n)
    {
      var i := 1;
      var v := Get(Num(1));
      while v != Nil
        invariant i >= 1 && v == At(Num(i)) && (i > 1 ==> At(Num(i - 1)) != Nil)
        decreases LiveFrom(i)
      {
        LiveKeysAt(arr[..], sizearray, node[..], Num(i));
        assert Num(i) in LiveFrom(i) && Num(i) !in LiveFrom(i + 1);
        i := i + 1;
        v := Get(Num(i));
      }
      return i - 1;
    }

    /** luaH_getn always returns a border. */
    method GetN() returns (n: nat)
      requires Valid()
      ensures Boundary(n)
    {
      var j := sizearray;
      if j > 0 && arr[j - 1] == Nil {
        var i := 0;
        while j - i > 1
          invariant 0 <= i < j <= sizearray && (i > 0 ==> arr[i - 1] != Nil) && arr[j - 1] == Nil
        {
          var m := (i + j) / 2;
          if arr[m - 1] == Nil { j := m; } else { i := m; }
        }
        return i;
      }
      if dummy {
        assert forall k :: k != Nil ==> !HasKey(node[..], k);
        return j;
      }
      n := UnboundSearch(j);
    }
  }

  const MAXINT: nat := 0x7fff_ffff
}
