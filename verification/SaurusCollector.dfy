/** The mark and sweep collector of the Saurus machine (src/vm/gc.c). */
module SaurusCollector {
  /** Trans is the flag of an object made since the last collection. */
  datatype Flag = Trans | White | Gray | Black

  /** The objects an object refers to. Object 0 is NULL. */
  type Edges = map<nat, seq<nat>>

  // ---------------------------------------------------------------- what should survive

  /** A path from a root along references, all of whose objects satisfy `all`. */
  ghost predicate Path(path: seq<nat>, roots: seq<nat>, edges: Edges, through: set<nat>) {
    && path != [] && path[0] in roots
    && (forall k | 0 <= k < |path| :: path[k] in through)
    && (forall k | 0 <= k < |path| - 1 :: Refers(edges, path[k], path[k + 1]))
  }

  ghost predicate Refers(edges: Edges, x: nat, y: nat) {
    x in edges && y in edges[x]
  }

  ghost predicate ClosedKeys(edges: Edges, keys: set<nat>) {
    forall x, y | x in keys && Refers(edges, x, y) :: y in keys
  }

  lemma ChildInside(edges: Edges, keys: set<nat>, x: nat, i: nat)
    requires ClosedKeys(edges, keys) && x in keys && x in edges && i < |edges[x]|
    ensures Refers(edges, x, edges[x][i]) && edges[x][i] in keys
  {
  }

  ghost predicate Reaches(x: nat, roots: seq<nat>, edges: Edges, through: set<nat>) {
    exists path :: Path(path, roots, edges, through) && path[|path| - 1] == x
  }

  ghost function Whites(flags: map<nat, Flag>): set<nat> {
    set x | x in flags && flags[x] == White
  }

  lemma ReachesRoot(x: nat, roots: seq<nat>, edges: Edges, through: set<nat>)
    requires x in roots && x in through
    ensures Reaches(x, roots, edges, through)
  {
    assert Path([x], roots, edges, through);
  }

  lemma ReachesChild(x: nat, y: nat, roots: seq<nat>, edges: Edges, through: set<nat>)
    requires Reaches(x, roots, edges, through) && Refers(edges, x, y) && y in through
    ensures Reaches(y, roots, edges, through)
  {
    var path :| Path(path, roots, edges, through) && path[|path| - 1] == x;
    assert Path(path + [y], roots, edges, through);
  }

  /** A set that has the roots and is closed under references within `through` has all that is reached. */
  lemma {:induction false} ClosedHasPath(path: seq<nat>, roots: seq<nat>, edges: Edges, through: set<nat>,
                                         marked: set<nat>)
    requires Path(path, roots, edges, through)
    requires forall x | x in roots && x in through :: x in marked
    requires forall x, y | x in marked && Refers(edges, x, y) && y in through :: y in marked
    ensures path[|path| - 1] in marked
    decreases |path|
  {
    if |path| > 1 {
      var shorter := path[..|path| - 1];
      assert Path(shorter, roots, edges, through);
      ClosedHasPath(shorter, roots, edges, through, marked);
      assert Refers(edges, path[|path| - 2], path[|path| - 1]);
    }
  }

  // ---------------------------------------------------------------- the object list

  ghost function Head(list: seq<nat>): nat {
    if list == [] then 0 else list[0]
  }

  ghost function Last(list: seq<nat>): nat {
    if list == [] then 0 else list[|list| - 1]
  }

  ghost predicate LinkAt(next: map<nat, nat>, list: seq<nat>, k: nat)
    requires k < |list|
  {
    list[k] != 0 && list[k] in next && next[list[k]] == Head(list[k + 1..])
  }

  /** The objects of the list in order, linked by `next` and ended by 0. */
  ghost predicate Chain(first: nat, next: map<nat, nat>, list: seq<nat>) {
    first == Head(list) && forall k: nat | k < |list| :: LinkAt(next, list, k)
  }

  /** Unlinking one object from a chain. */
  lemma ChainRemove(first: nat, next: map<nat, nat>, kept: seq<nat>, obj: nat, rest: seq<nat>)
    requires Chain(first, next, kept + [obj] + rest) && Distinct(kept + [obj] + rest)
    ensures obj != 0 && obj in next && next[obj] == Head(rest) && obj !in kept && obj !in rest && Distinct(kept + rest)
    ensures (kept == [] ==> Chain(next[obj], next - {obj}, kept + rest))
    ensures (kept != [] ==> Chain(first, next[Last(kept) := next[obj]] - {obj}, kept + rest))
  {
    var all, fewer := kept + [obj] + rest, kept + rest;
    assert all[|kept|] == obj && all[|kept| + 1..] == rest;
    assert LinkAt(next, all, |kept|);
    forall k | 0 <= k < |kept| ensures kept[k] != obj { assert all[k] == kept[k]; }
    forall k | 0 <= k < |rest| ensures rest[k] != obj { assert all[|kept| + 1 + k] == rest[k]; }
    forall i, j | 0 <= i < j < |fewer| ensures fewer[i] != fewer[j] {
      assert fewer[i] == all[if i < |kept| then i else i + 1] && fewer[j] == all[if j < |kept| then j else j + 1];
    }
    var next2 := (if kept == [] then next else next[Last(kept) := next[obj]]) - {obj};
    forall k: nat | k < |fewer| ensures LinkAt(next2, fewer, k) {
      LinkKept(next, kept, obj, rest, next2, k);
    }
  }

  lemma LinkKept(next: map<nat, nat>, kept: seq<nat>, obj: nat, rest: seq<nat>, next2: map<nat, nat>, k: nat)
    requires k < |kept + rest| && Distinct(kept + [obj] + rest)
    requires forall j: nat | j < |kept + [obj] + rest| :: LinkAt(next, kept + [obj] + rest, j)
    requires obj in next && next[obj] == Head(rest)
    requires next2 == (if kept == [] then next else next[Last(kept) := next[obj]]) - {obj}
    ensures LinkAt(next2, kept + rest, k)
  {
    var all, fewer := kept + [obj] + rest, kept + rest;
    var j := if k < |kept| then k else k + 1;
    assert LinkAt(next, all, j) && fewer[k] == all[j] && all[|kept|] == obj && all[j] != obj;
    if k == |kept| - 1 {
      assert fewer[k + 1..] == rest;
    } else {
      if kept != [] { assert all[|kept| - 1] == Last(kept) && all[j] != Last(kept); }
      if k < |kept| {
        assert all[j + 1] == fewer[k + 1];
      } else {
        assert all[j + 1..] == fewer[k + 1..];
      }
    }
  }

  ghost predicate Distinct(list: seq<nat>) {
    forall i, j | 0 <= i < j < |list| :: list[i] != list[j]
  }

  /** The objects of the list with the flag, in their order. */
  ghost function Survivors(list: seq<nat>, flags: map<nat, Flag>): (r: seq<nat>)
    ensures forall x :: x in r <==> x in list && x in flags && flags[x] != White
    ensures |r| <= |list|
  {
    if list == [] then []
    else
      var last := list[|list| - 1];
      assert list == list[..|list| - 1] + [last];
      Survivors(list[..|list| - 1], flags) + if last in flags && flags[last] != White then [last] else []
  }

  lemma SliceStep(s: seq<nat>, i: nat)
    requires i < |s|
    ensures s[..i + 1] == s[..i] + [s[i]]
  {
  }

  lemma SliceAll(s: seq<nat>)
    ensures s[..|s|] == s && s[|s|..] == []
  {
  }

  class Machine {
    const edges: Edges
    var flags: map<nat, Flag>
    var next: map<nat, nat>
    var first: nat
    var grays: seq<nat>
    var objects: int
    ghost var list: seq<nat>

    constructor (edges: Edges, flags: map<nat, Flag>, next: map<nat, nat>, first: nat, ghost list: seq<nat>,
        objects: int)
      ensures this.edges == edges && this.flags == flags && this.next == next && this.first == first
      ensures this.list == list && this.objects == objects && grays == []
    {
      this.edges, this.flags, this.next, this.first, this.list := edges, flags, next, first, list;
      this.objects, grays := objects, [];
    }

    /** Every object of the list has a flag and refers to objects of the list only. */
    ghost predicate Valid()
      reads this
    {
      && Linked()
      && (forall x :: x in list <==> x in flags)
      && (forall x, y | x in list && Refers(edges, x, y) :: y in list)
    }

    ghost predicate Linked()
      reads this
    {
      Chain(first, next, list) && Distinct(list) && objects == |list|
    }

    /** Between collections nothing is gray or black. */
    ghost predicate Quiet()
      reads this
    {
      grays == [] && forall x | x in flags :: flags[x] == White || flags[x] == Trans
    }

    // -------------------------------------------------------------- marking

    /** What holds while marking: the marked objects were white, are reached through white objects, and
        those on the gray stack are exactly the ones still to be scanned. */
    ghost predicate Marking(roots: seq<nat>, before: map<nat, Flag>)
      reads this
    {
      && flags.Keys == before.Keys && Distinct(grays)
      && (forall x | x in flags :: flags[x] == before[x] || Marked(x))
      && (forall x | x in flags :: before[x] == White || before[x] == Trans)
      && (forall x | x in flags && Marked(x) :: before[x] == White && Reaches(x, roots, edges, Whites(before)))
      && (forall x :: x in grays <==> x in flags && flags[x] == Gray)
    }

    ghost predicate Marked(x: nat)
      reads this
    {
      x in flags && (flags[x] == Gray || flags[x] == Black)
    }

    ghost function MarkedSet(): set<nat>
      reads this
    {
      set x | x in flags && Marked(x)
    }

    /** Everything white that a black object refers to is marked. */
    ghost predicate Scanned(before: map<nat, Flag>)
      reads this
    {
      forall x, y | x in flags && flags[x] == Black && Refers(edges, x, y) && y in before
          && before[y] == White :: Marked(y)
    }

    /** add_to_gray */
    method AddToGray(x: nat, ghost roots: seq<nat>, ghost before: map<nat, Flag>)
      requires Marking(roots, before) && x in flags
      requires before[x] == White ==> Reaches(x, roots, edges, Whites(before))
      modifies this`flags, this`grays
      ensures Marking(roots, before)
      ensures before[x] == White ==> Marked(x)
      ensures forall y | y in flags && y != x :: flags[y] == old(flags[y])
      ensures flags[x] == old(flags[x]) || (old(flags[x]) == White && flags[x] == Gray)
    {
      if flags[x] != White { return; }
      flags := flags[x := Gray];
      grays := grays + [x];
    }

    /** begin: the objects of the stack, then the globals and the strings. */
    method Begin(roots: seq<nat>)
      requires Valid() && Quiet() && forall x | x in roots :: x in list
      modifies this`flags, this`grays
      ensures Marking(roots, old(flags)) && NoBlack() && RootsMarked(roots, old(flags))
    {
      ghost var before := flags;
      grays := [];
      for i := 0 to |roots|
        invariant Marking(roots, before) && NoBlack() && RootsMarked(roots[..i], before)
      {
        SliceStep(roots, i);
        GrayRoot(roots[i], roots[..i], roots, before);
      }
      SliceAll(roots);
    }

    ghost predicate NoBlack()
      reads this
    {
      forall x | x in flags :: flags[x] != Black
    }

    ghost predicate RootsMarked(roots: seq<nat>, before: map<nat, Flag>)
      reads this
    {
      forall x | x in roots && x in before && before[x] == White :: Marked(x)
    }

    method GrayRoot(x: nat, ghost done: seq<nat>, ghost roots: seq<nat>, ghost before: map<nat, Flag>)
      requires Marking(roots, before) && NoBlack() && RootsMarked(done, before) && x in flags && x in roots
      modifies this`flags, this`grays
      ensures Marking(roots, before) && NoBlack() && RootsMarked(done + [x], before)
    {
      if before[x] == White { ReachesRoot(x, roots, edges, Whites(before)); }
      AddToGray(x, roots, before);
    }

    ghost function NotBlack(): set<nat>
      reads this
    {
      set x | x in flags && flags[x] != Black
    }

    /** Everything white that a black object other than `x` refers to is marked, and so are these. */
    ghost predicate ScannedBut(x: nat, children: seq<nat>, before: map<nat, Flag>)
      reads this
    {
      && (forall y, z | && y in flags && flags[y] == Black && y != x
                        && Refers(edges, y, z) && z in before && before[z] == White :: Marked(z))
      && (forall z | z in children && z in before && before[z] == White :: Marked(z))
    }

    /** One turn of scan: an object from the gray stack. */
    method ScanObject(ghost roots: seq<nat>, ghost before: map<nat, Flag>)
      requires grays != [] && Marking(roots, before) && Scanned(before)
      requires ClosedKeys(edges, before.Keys)
      modifies this`flags, this`grays
      ensures Marking(roots, before) && Scanned(before)
      ensures old(grays[|grays| - 1]) in old(NotBlack()) && NotBlack() == old(NotBlack()) - {old(grays[|grays| - 1])}
      ensures old(MarkedSet()) <= MarkedSet()
    {
      var obj := grays[|grays| - 1];
      Blacken(roots, before);
      if obj in edges { GrayChildren(edges[obj], obj, roots, before); }
      ScannedAll(obj, if obj in edges then edges[obj] else [], before);
    }

    /** The loops of gray_vector_node and its like over what an object refers to. */
    method GrayChildren(children: seq<nat>, ghost obj: nat, ghost roots: seq<nat>, ghost before: map<nat, Flag>)
      requires Marking(roots, before) && obj in flags && flags[obj] == Black && ScannedBut(obj, [], before)
      requires obj in edges && edges[obj] == children
      requires ClosedKeys(edges, before.Keys)
      modifies this`flags, this`grays
      ensures Marking(roots, before) && ScannedBut(obj, children, before)
      ensures NotBlack() == old(NotBlack()) && old(MarkedSet()) <= MarkedSet()
    {
      ghost var left, marked := NotBlack(), MarkedSet();
      for i := 0 to |children|
        invariant Marking(roots, before) && ScannedBut(obj, children[..i], before)
        invariant NotBlack() == left && marked <= MarkedSet() && obj in flags && flags[obj] == Black
      {
        ChildInside(edges, before.Keys, obj, i);
        GrayNext(children, i, obj, roots, before);
      }
      SliceAll(children);
    }

    method GrayNext(children: seq<nat>, i: nat, ghost obj: nat, ghost roots: seq<nat>, ghost before: map<nat, Flag>)
      requires Marking(roots, before) && obj in flags && flags[obj] == Black
      requires i < |children| && ScannedBut(obj, children[..i], before)
      requires Refers(edges, obj, children[i]) && children[i] in before.Keys
      modifies this`flags, this`grays
      ensures Marking(roots, before) && ScannedBut(obj, children[..i + 1], before)
      ensures NotBlack() == old(NotBlack()) && old(MarkedSet()) <= MarkedSet()
      ensures obj in flags && flags[obj] == Black && flags.Keys == old(flags.Keys)
    {
      ReachedChild(obj, children[i], roots, before);
      SliceStep(children, i);
      GrayChild(children[i], obj, children[..i], roots, before);
    }

    lemma ScannedAll(obj: nat, children: seq<nat>, before: map<nat, Flag>)
      requires ScannedBut(obj, children, before) && children == if obj in edges then edges[obj] else []
      ensures Scanned(before)
    {
    }

    lemma ReachedChild(obj: nat, child: nat, roots: seq<nat>, before: map<nat, Flag>)
      requires Marking(roots, before) && Marked(obj) && Refers(edges, obj, child) && child in before
      ensures before[child] == White ==> Reaches(child, roots, edges, Whites(before))
    {
      if before[child] == White { ReachesChild(obj, child, roots, edges, Whites(before)); }
    }

    /** Takes the topmost object from the gray stack, where no black one lies, and blackens it. */
    method Blacken(ghost roots: seq<nat>, ghost before: map<nat, Flag>)
      requires grays != [] && Marking(roots, before) && Scanned(before)
      modifies this`flags, this`grays
      ensures Marking(roots, before) && flags.Keys == old(flags.Keys)
      ensures var obj := old(grays[|grays| - 1]);
        && obj in flags && flags[obj] == Black && ScannedBut(obj, [], before)
        && obj in old(NotBlack()) && NotBlack() == old(NotBlack()) - {obj}
      ensures old(MarkedSet()) <= MarkedSet()
    {
      var obj := grays[|grays| - 1];
      assert obj in grays;
      assert grays == grays[..|grays| - 1] + [obj];
      grays := grays[..|grays| - 1];
      if flags[obj] == Black { return; }
      flags := flags[obj := Black];
      assert NotBlack() == old(NotBlack()) - {obj};
    }

    method GrayChild(child: nat, ghost obj: nat, ghost children: seq<nat>, ghost roots: seq<nat>,
                     ghost before: map<nat, Flag>)
      requires Marking(roots, before) && child in flags && ScannedBut(obj, children, before)
      requires before[child] == White ==> Reaches(child, roots, edges, Whites(before))
      modifies this`flags, this`grays
      ensures Marking(roots, before) && NotBlack() == old(NotBlack()) && flags.Keys == old(flags.Keys)
      ensures ScannedBut(obj, children + [child], before)
      ensures forall y | y in flags && old(flags[y]) == Black :: flags[y] == Black
      ensures old(MarkedSet()) <= MarkedSet()
    {
      AddToGray(child, roots, before);
    }

    lemma AllMarked(x: nat, roots: seq<nat>, before: map<nat, Flag>)
      requires Marking(roots, before) && Scanned(before) && grays == []
      requires RootsMarked(roots, before)
      requires Reaches(x, roots, edges, Whites(before))
      ensures x in flags && flags[x] == Black
    {
      var marked := set y | y in flags && flags[y] == Black;
      forall y | Marked(y) ensures y in marked {
        assert y !in grays;
      }
      var path :| Path(path, roots, edges, Whites(before)) && path[|path| - 1] == x;
      ClosedHasPath(path, roots, edges, Whites(before), marked);
    }

    /** scan: until the gray stack is empty; every object is scanned at most once. */
    method Scan(ghost roots: seq<nat>, ghost before: map<nat, Flag>) returns (ghost scanned: seq<nat>)
      requires Marking(roots, before) && Scanned(before)
      requires ClosedKeys(edges, before.Keys)
      requires RootsMarked(roots, before)
      modifies this`flags, this`grays
      ensures Marking(roots, before) && grays == [] && flags.Keys == before.Keys
      ensures forall x | x in flags :: flags[x] == (if before[x] == White
              && Reaches(x, roots, edges, Whites(before)) then Black else before[x])
      ensures Distinct(scanned) && forall x :: x in scanned <==> x in old(NotBlack()) && flags[x] == Black
    {
      scanned := [];
      while |grays| > 0
        invariant Marking(roots, before) && Scanned(before)
        invariant RootsMarked(roots, before)
        invariant Distinct(scanned) && forall x :: x in scanned <==> x in old(NotBlack()) && x !in NotBlack()
        invariant NotBlack() <= old(NotBlack())
        decreases NotBlack()
      {
        ghost var marked := MarkedSet();
        scanned := scanned + [grays[|grays| - 1]];
        ScanObject(roots, before);
        forall x | x in roots && x in before && before[x] == White ensures Marked(x) {
          assert x in marked;
        }
      }
      forall x | x in flags && before[x] == White
          && Reaches(x, roots, edges, Whites(before)) ensures flags[x] == Black {
        AllMarked(x, roots, before);
      }
    }

    // -------------------------------------------------------------- sweeping

    /** end: unlinks and frees what is still white, and whitens the rest. */
    method Sweep()
      requires Linked() && (forall x :: x in list <==> x in flags)
      modifies this`flags, this`next, this`first, this`objects, this`list
      ensures Linked() && list == Survivors(old(list), old(flags))
      ensures flags.Keys == (set x | x in list) && forall x | x in flags :: flags[x] == White
    {
      ghost var all, kept, i := list, [], 0;
      ghost var marks := flags;
      var prev, obj := 0, first;
      StartSweeping();
      while obj != 0
        invariant i <= |all| && Sweeping(all, i, kept, marks)
        invariant prev == Last(kept) && obj == Head(all[i..])
        decreases |all| - i
      {
        prev, obj, kept := SweepObject(prev, obj, all, i, kept, marks);
        i := i + 1;
      }
      EndSweeping(all, i, kept, marks);
    }

    /** One turn of end. */
    method SweepObject(prev0: nat, obj0: nat, ghost all: seq<nat>, ghost i: nat, ghost kept0: seq<nat>,
                       ghost marks: map<nat, Flag>)
      returns (prev: nat, obj: nat, ghost kept: seq<nat>)
      requires i <= |all| && Sweeping(all, i, kept0, marks) && prev0 == Last(kept0) && obj0 == Head(all[i..])
               && obj0 != 0
      modifies this`flags, this`next, this`first, this`objects, this`list
      ensures i < |all| && Sweeping(all, i + 1, kept, marks) && prev == Last(kept) && obj == Head(all[i + 1..])
    {
      SweepStep(all, i, kept0, marks);
      obj := next[obj0];
      if flags[obj0] == White {
        prev, kept := prev0, kept0;
        Free(prev0, obj0, all, i, kept0, marks);
      } else {
        prev, kept := obj0, kept0 + [obj0];
        Keep(obj0, all, i, kept0, marks);
      }
    }

    lemma EndSweeping(all: seq<nat>, i: nat, kept: seq<nat>, marks: map<nat, Flag>)
      requires i <= |all| && Sweeping(all, i, kept, marks) && Head(all[i..]) == 0
      ensures list == kept == Survivors(all, marks)
      ensures Linked() && flags.Keys == (set x | x in list) && forall x | x in flags :: flags[x] == White
    {
      assert i < |all| ==> list[|kept|] == all[i] && LinkAt(next, list, |kept|);
      SliceAll(all);
    }

    /** The first `i` objects are swept: of them the marked ones are left, white again. */
    ghost predicate Sweeping(all: seq<nat>, i: nat, kept: seq<nat>, marks: map<nat, Flag>)
      requires i <= |all|
      reads this
    {
      && kept == Survivors(all[..i], marks) && list == kept + all[i..] && Linked()
      && (forall x :: x in list <==> x in flags)
      && (forall x | x in kept :: x in flags && flags[x] == White)
      && (forall x | x in all[i..] :: x in marks && x in flags && flags[x] == marks[x])
    }

    lemma StartSweeping()
      requires Linked() && (forall x :: x in list <==> x in flags)
      ensures Sweeping(list, 0, [], flags) && first == Head(list[0..])
    {
      assert list[..0] == [] && list[0..] == list && [] + list == list;
    }

    lemma SweepStep(all: seq<nat>, i: nat, kept: seq<nat>, marks: map<nat, Flag>)
      requires i <= |all| && Sweeping(all, i, kept, marks) && Head(all[i..]) != 0
      ensures i < |all| && all[i..] == [all[i]] + all[i + 1..] && list == kept + [all[i]] + all[i + 1..]
      ensures all[i] in flags && all[i] in marks && flags[all[i]] == marks[all[i]]
      ensures all[i] in next && next[all[i]] == Head(all[i + 1..]) && all[i] !in kept && all[i] !in all[i + 1..]
      ensures Survivors(all[..i + 1], marks) == kept + (if marks[all[i]] != White then [all[i]] else [])
    {
      var obj, rest := all[i], all[i + 1..];
      assert all[i..] == [obj] + rest;
      assert kept + all[i..] == kept + [obj] + rest;
      assert all[..i + 1][..i] == all[..i];
      assert all[i..][0] == obj;
      ChainRemove(first, next, kept, obj, rest);
    }

    /** A marked object stays in the list and turns white again. */
    method Keep(obj: nat, ghost all: seq<nat>, ghost i: nat, ghost kept: seq<nat>, ghost marks: map<nat, Flag>)
      requires i < |all| && Sweeping(all, i, kept, marks) && obj == all[i] && obj != 0 && obj in flags
               && flags[obj] != White
      modifies this`flags
      ensures Sweeping(all, i + 1, kept + [obj], marks)
    {
      SweepStep(all, i, kept, marks);
      flags := flags[obj := White];
    }

    /** A white object leaves the list and is freed. */
    method Free(prev: nat, obj: nat, ghost all: seq<nat>, ghost i: nat, ghost kept: seq<nat>, ghost marks: map<nat,
                Flag>)
      requires i < |all| && Sweeping(all, i, kept, marks) && obj == all[i] && obj != 0 && obj in flags
               && flags[obj] == White
      requires prev == Last(kept)
      modifies this`flags, this`next, this`first, this`objects, this`list
      ensures Sweeping(all, i + 1, kept, marks)
    {
      SweepStep(all, i, kept, marks);
      Remove(prev, obj, kept, all[i + 1..]);
    }

    /** Unlinks an object from the list, of which `prev` is the one before, and frees it. */
    method Remove(prev: nat, obj: nat, ghost kept: seq<nat>, ghost rest: seq<nat>)
      requires Linked() && list == kept + [obj] + rest && prev == Last(kept)
      modifies this`flags, this`next, this`first, this`objects, this`list
      ensures Linked() && list == kept + rest && flags == old(flags) - {obj}
    {
      ChainRemove(first, next, kept, obj, rest);
      if kept != [] {
        assert LinkAt(next, list, |kept| - 1) && list[|kept| - 1] == Last(kept);
      }
      if prev != 0 {
        next := next[prev := next[obj]];
      } else {
        first := next[obj];
      }
      next := next - {obj};
      flags := flags - {obj};
      objects := objects - 1;
      list := kept + rest;
    }

    // -------------------------------------------------------------- a whole collection

    /** su_gc between turns of the machine, when the gray stack is empty: exactly the white objects that no
        path of white objects leads to are freed; the others keep their order and are all white. */
    method Collect(roots: seq<nat>)
      requires Valid() && Quiet() && forall x | x in roots :: x in list
      modifies this`flags, this`grays, this`next, this`first, this`objects, this`list
      ensures Linked() && Quiet() && forall x :: x in list <==> x in flags
      ensures forall x :: x in list <==> x in old(list) && Survives(x, roots, edges, old(flags))
      ensures forall x | x in flags :: flags[x] == White
      ensures exists marks :: list == Survivors(old(list), marks)
    {
      ghost var before := flags;
      Begin(roots);
      NothingScanned(before);
      ghost var scanned := Scan(roots, before);
      ghost var marks := flags;
      Sweep();
      assert list == Survivors(old(list), marks);
    }

    lemma NothingScanned(before: map<nat, Flag>)
      requires NoBlack()
      ensures Scanned(before)
    {
    }

    /** gc_trace: the same, but only once there are enough objects. */
    method Trace(roots: seq<nat>)
      requires Valid() && Quiet() && forall x | x in roots :: x in list
      modifies this`flags, this`grays, this`next, this`first, this`objects, this`list
      ensures Linked() && Quiet()
      ensures forall x :: x in list <==>
                (x in old(list) && (old(objects) > ALIVE_OBJECTS ==> Survives(x, roots, edges, old(flags))))
    {
      if objects > ALIVE_OBJECTS {
        Collect(roots);
      }
    }
  }

  const ALIVE_OBJECTS := 100000

  // ---------------------------------------------------------------- what does survive

  /** An object is kept if it is new, or reached through objects that are not. */
  ghost predicate Survives(x: nat, roots: seq<nat>, edges: Edges, flags: map<nat, Flag>) {
    x in flags && (flags[x] != White || Reaches(x, roots, edges, Whites(flags)))
  }

  /** An older object that survives keeps everything it refers to. */
  lemma OldKeepChildren(x: nat, y: nat, roots: seq<nat>, edges: Edges, flags: map<nat, Flag>)
    requires Survives(x, roots, edges, flags) && flags[x] == White && Refers(edges, x, y) && y in flags
    ensures Survives(y, roots, edges, flags)
  {
    if flags[y] == White { ReachesChild(x, y, roots, edges, Whites(flags)); }
  }

  /** No reachable new object is the only one to refer to some older object. */
  ghost predicate NewHidesNothing(roots: seq<nat>, edges: Edges, flags: map<nat, Flag>) {
    forall x, y | Reaches(x, roots, edges, flags.Keys) && flags[x] == Trans && Refers(edges, x, y) && y in flags
        && flags[y] == White ::
      Reaches(y, roots, edges, Whites(flags))
  }

  ghost predicate AllReachableSurvive(roots: seq<nat>, edges: Edges, flags: map<nat, Flag>) {
    forall x | Reaches(x, roots, edges, flags.Keys) :: Survives(x, roots, edges, flags)
  }

  lemma ReachedHasFlag(x: nat, roots: seq<nat>, edges: Edges, through: set<nat>)
    requires Reaches(x, roots, edges, through)
    ensures x in through
  {
  }

  /** A collection keeps every reachable object exactly when new objects hide none: children of a new
      object are never visited. */
  lemma SurviveIff(roots: seq<nat>, edges: Edges, flags: map<nat, Flag>)
    requires forall x | x in flags :: flags[x] == White || flags[x] == Trans
    ensures AllReachableSurvive(roots, edges, flags) <==> NewHidesNothing(roots, edges, flags)
  {
    forall x | Reaches(x, roots, edges, flags.Keys) ensures x in flags { ReachedHasFlag(x, roots, edges, flags.Keys); }
    if AllReachableSurvive(roots, edges, flags) {
      forall x, y | Reaches(x, roots, edges, flags.Keys) && flags[x] == Trans && Refers(edges, x, y) && y in flags
          && flags[y] == White
        ensures Reaches(y, roots, edges, Whites(flags))
      {
        ReachesChild(x, y, roots, edges, flags.Keys);
        assert Survives(y, roots, edges, flags);
      }
    }
    if NewHidesNothing(roots, edges, flags) {
      forall x | Reaches(x, roots, edges, flags.Keys) ensures Survives(x, roots, edges, flags) {
        var path :| Path(path, roots, edges, flags.Keys) && path[|path| - 1] == x;
        PathSurvives(path, roots, edges, flags);
      }
    }
  }

  lemma {:induction false} PathSurvives(path: seq<nat>, roots: seq<nat>, edges: Edges, flags: map<nat, Flag>)
    requires Path(path, roots, edges, flags.Keys)
    requires forall x | x in flags :: flags[x] == White || flags[x] == Trans
    requires forall x | Reaches(x, roots, edges, flags.Keys) :: x in flags
    requires NewHidesNothing(roots, edges, flags)
    ensures Survives(path[|path| - 1], roots, edges, flags)
    decreases |path|
  {
    var x := path[|path| - 1];
    if flags[x] == White {
      if |path| == 1 {
        ReachesRoot(x, roots, edges, Whites(flags));
      } else {
        var shorter := path[..|path| - 1];
        var y := shorter[|shorter| - 1];
        assert Path(shorter, roots, edges, flags.Keys);
        PathSurvives(shorter, roots, edges, flags);
        assert Reaches(y, roots, edges, flags.Keys) && Refers(edges, y, x);
        if flags[y] == White { ReachesChild(y, x, roots, edges, Whites(flags)); }
      }
    }
  }

  /** When no object is new, every reachable object survives. */
  lemma OldAllSurvive(roots: seq<nat>, edges: Edges, flags: map<nat, Flag>)
    requires forall x | x in flags :: flags[x] == White
    ensures AllReachableSurvive(roots, edges, flags)
  {
    SurviveIff(roots, edges, flags);
    forall x | Reaches(x, roots, edges, flags.Keys) ensures x in flags { ReachedHasFlag(x, roots, edges, flags.Keys); }
  }

  /** A new object on the stack that alone refers to an older one: the older one is reachable and lost. */
  lemma NewHides()
    ensures var roots, edges, flags := [1], map[1 := [2], 2 := []], map[1 := Trans, 2 := White];
      Reaches(2, roots, edges, flags.Keys) && !Survives(2, roots, edges, flags)
  {
    var roots, edges, flags := [1], map[1 := [2], 2 := []], map[1 := Trans, 2 := White];
    assert Path([1, 2], roots, edges, flags.Keys);
    RootsAside(2, roots, edges, Whites(flags));
  }

  lemma RootsAside(x: nat, roots: seq<nat>, edges: Edges, through: set<nat>)
    requires forall r | r in roots :: r !in through
    ensures !Reaches(x, roots, edges, through)
  {
    forall path ensures !Path(path, roots, edges, through) {
      assert path != [] ==> path[0] !in roots || path[0] !in through;
    }
  }
}
