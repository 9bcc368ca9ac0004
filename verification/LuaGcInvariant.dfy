/** The invariant of the collector and why every collector step and mutator operation keeps it. */
module LuaGcInvariant {
  import opened LuaGcState

  /** The kinds that are traversed from a gray list. */
  predicate Listed(k: Kind) {
    k.Table? || k.Function? || k.Thread? || k.Proto?
  }

  predicate NonWhite(h: Heap, x: Slot) {
    x.To? ==> x.ref in h && !h[x.ref].color.White?
  }

  ghost predicate Clean(h: Heap, slots: seq<Slot>) {
    forall x | x in slots :: NonWhite(h, x)
  }

  // ---------------------------------------------------------------- the tri-colour invariant

  /** Marking only darkens colours. */
  ghost predicate Darker(h: Heap, h': Heap) {
    && h.Keys == h'.Keys
    && forall r | r in h ::
         && h'[r] == h[r].(color := h'[r].color)
         && (|| h'[r].color == h[r].color
             || (h[r].color.White? && !h'[r].color.White?)
             || (h[r].color.Gray? && h'[r].color.Black?))
  }

  /** The gray lists hold exactly the gray objects still to be traversed, each once. */
  ghost predicate GrayLists(h: Heap, gray: seq<Ref>, again: seq<Ref>, ex: set<Ref>) {
    && NoDup(gray + again)
    && (forall r | r in gray || r in again :: r in h && h[r].color.Gray? && Listed(h[r].kind))
    && (forall r | r in h && r !in ex && h[r].color.Gray? :: h[r].kind.String? || r in gray || r in again)
  }

  /** No black object refers to a white one; threads are never black. */
  ghost predicate TriColor(h: Heap, ex: set<Ref>) {
    forall r | r in h && r !in ex && h[r].color.Black? :: Clean(h, h[r].slots) && !h[r].kind.Thread?
  }

  ghost predicate SlotsAllocated(h: Heap) {
    forall r, x | r in h && x in h[r].slots && x.To? :: x.ref in h
  }

  /** What marking keeps; the objects in `ex` are being traversed right now. */
  ghost predicate MarkInv(h: Heap, gray: seq<Ref>, again: seq<Ref>, ex: set<Ref>) {
    && GrayLists(h, gray, again, ex)
    && TriColor(h, ex)
    && SlotsAllocated(h)
  }

  lemma DarkerKeepsClean(h: Heap, h': Heap, slots: seq<Slot>)
    requires Darker(h, h') && Clean(h, slots)
    ensures Clean(h', slots)
  {
  }

  /** Taking the white off an object that is about to be traversed. */
  lemma PaintInv(h: Heap, gray: seq<Ref>, again: seq<Ref>, ex: set<Ref>, r: Ref, c: Color)
    requires MarkInv(h, gray, again, ex) && IsWhite(h, r) && !c.White?
    ensures MarkInv(Paint(h, r, c), gray, again, ex + {r}) && Darker(h, Paint(h, r, c))
  {
    var h' := Paint(h, r, c);
    assert forall q | q in h :: h'[q].slots == h[q].slots && h'[q].kind == h[q].kind;
    forall q | q in h' && q !in ex + {r} && h'[q].color.Black?
      ensures Clean(h', h'[q].slots)
    {
      DarkerKeepsClean(h, h', h[q].slots);
    }
  }

  /** A traversed object becomes, or already is, black. */
  lemma TraversedInv(h: Heap, gray: seq<Ref>, again: seq<Ref>, ex: set<Ref>, r: Ref)
    requires MarkInv(h, gray, again, ex + {r}) && r in h && !h[r].color.White? && !h[r].kind.Thread?
    requires r !in gray && r !in again && Clean(h, h[r].slots)
    ensures MarkInv(Paint(h, r, Black), gray, again, ex) && Darker(h, Paint(h, r, Black))
  {
    var h' := Paint(h, r, Black);
    assert Darker(h, h');
    assert forall q | q in h :: h'[q].slots == h[q].slots && h'[q].kind == h[q].kind;
    forall q | q in h' && q !in ex && h'[q].color.Black?
      ensures Clean(h', h'[q].slots) && !h'[q].kind.Thread?
    {
      DarkerKeepsClean(h, h', h[q].slots);
    }
  }

  lemma PushInv(h: Heap, gray: seq<Ref>, again: seq<Ref>, ex: set<Ref>, r: Ref)
    requires MarkInv(h, gray, again, ex) && IsWhite(h, r) && Listed(h[r].kind)
    ensures MarkInv(Paint(h, r, Gray), [r] + gray, again, ex) && Darker(h, Paint(h, r, Gray))
  {
    PaintInv(h, gray, again, ex, r, Gray);
    assert ([r] + gray) + again == [r] + (gray + again);
  }

  lemma {:induction false} ReallyMarkInv(m: Marks, r: Ref, again: seq<Ref>, ex: set<Ref>)
    requires IsWhite(m.heap, r) && MarkInv(m.heap, m.gray, again, ex)
    ensures var m' := ReallyMark(m, r);
      && MarkInv(m'.heap, m'.gray, again, ex)
      && Darker(m.heap, m'.heap)
      && NonWhite(m'.heap, To(r))
    decreases WhiteRefs(m.heap), 0, 1
  {
    match m.heap[r].kind
    case String =>
      PaintInv(m.heap, m.gray, again, ex, r, Gray);
    case Userdata => MarkThroughInv(m, r, Black, again, ex);
    case UpVal => MarkThroughInv(m, r, Gray, again, ex);
    case _ => PushInv(m.heap, m.gray, again, ex, r);
  }

  /** Userdata and upvalues are traversed at once instead of being listed. */
  lemma {:induction false} MarkThroughInv(m: Marks, r: Ref, c: Color, again: seq<Ref>, ex: set<Ref>)
    requires IsWhite(m.heap, r) && MarkInv(m.heap, m.gray, again, ex)
    requires !c.White? && !Listed(m.heap[r].kind)
    ensures var m2 := MarkAll(Marks(Paint(m.heap, r, c), m.gray), m.heap[r].slots);
      && Darker(m.heap, m2.heap)
      && MarkInv(Paint(m2.heap, r, Black), m2.gray, again, ex)
      && Darker(m.heap, Paint(m2.heap, r, Black))
      && (c.Black? ==> Paint(m2.heap, r, Black) == m2.heap)
    decreases WhiteRefs(m.heap), 0, 0
  {
    var slots := m.heap[r].slots;
    var m1 := Marks(Paint(m.heap, r, c), m.gray);
    PaintInv(m.heap, m.gray, again, ex, r, c);
    assert r in WhiteRefs(m.heap) - WhiteRefs(m1.heap);
    MarkAllInv(m1, slots, again, ex + {r});
    var m2 := MarkAll(m1, slots);
    assert m2.heap[r].slots == slots && !Listed(m2.heap[r].kind);
    TraversedInv(m2.heap, m2.gray, again, ex, r);
    if c.Black? {
      assert m2.heap[r].color.Black?;
      assert Paint(m2.heap, r, Black) == m2.heap;
    }
  }

  lemma {:induction false} MarkAllInv(m: Marks, slots: seq<Slot>, again: seq<Ref>, ex: set<Ref>)
    requires MarkInv(m.heap, m.gray, again, ex)
    requires forall x | x in slots && x.To? :: x.ref in m.heap
    ensures var m' := MarkAll(m, slots);
      && MarkInv(m'.heap, m'.gray, again, ex)
      && Darker(m.heap, m'.heap)
      && Clean(m'.heap, slots)
    decreases WhiteRefs(m.heap), |slots| + 1
  {
    if slots != [] {
      var x := slots[0];
      if x.To? && IsWhite(m.heap, x.ref) {
        ReallyMarkInv(m, x.ref, again, ex);
      }
      var m1 := MarkSlot(m, x);
      assert Darker(m.heap, m1.heap) && NonWhite(m1.heap, x);
      MarkAllInv(m1, slots[1..], again, ex);
      assert slots == [x] + slots[1..];
    }
  }

  /** The state differs from `s` only where marking may change it. */
  ghost predicate OnlyMarked(s: State, s': State) {
    && s' == s.(heap := s'.heap, gray := s'.gray, grayagain := s'.grayagain, phase := s'.phase)
    && Darker(s.heap, s'.heap)
  }

  ghost predicate Marking(s: State) {
    MarkInv(s.heap, s.gray, s.grayagain, {})
  }

  /** Every object waiting in `grayagain` is a thread that refers to no white object. */
  ghost predicate AgainClean(s: State) {
    forall r | r in s.grayagain && r in s.heap :: s.heap[r].kind.Thread? && Clean(s.heap, s.heap[r].slots)
  }

  ghost predicate SlotsKnown(s: State, slots: seq<Slot>) {
    forall x | x in slots && x.To? :: x.ref in s.heap
  }

  lemma MarkRefsInv(s: State, slots: seq<Slot>)
    requires Marking(s) && SlotsKnown(s, slots)
    ensures var s' := MarkRefs(s, slots);
      Marking(s') && OnlyMarked(s, s') && Clean(s'.heap, slots) && s'.grayagain == s.grayagain
    ensures AgainClean(s) ==> AgainClean(MarkRefs(s, slots))
  {
    MarkAllInv(Marks(s.heap, s.gray), slots, s.grayagain, {});
    var s' := MarkRefs(s, slots);
    if AgainClean(s) {
      forall r | r in s'.grayagain && r in s'.heap
        ensures s'.heap[r].kind.Thread? && Clean(s'.heap, s'.heap[r].slots)
      {
        DarkerKeepsClean(s.heap, s'.heap, s.heap[r].slots);
      }
    }
  }

  lemma DarkerTransitive(a: Heap, b: Heap, c: Heap)
    requires Darker(a, b) && Darker(b, c)
    ensures Darker(a, c)
  {
  }

  lemma NoDupParts(a: seq<Ref>, b: seq<Ref>, r: Ref)
    requires NoDup(a + b) && r !in a + b
    ensures NoDup(a + ([r] + b))
  {
    var all, out, n := a + b, a + ([r] + b), |a|;
    forall i, j | 0 <= i < j < |out| ensures out[i] != out[j] {
      assert i != n ==> out[i] == all[if i < n then i else i - 1];
      assert j != n ==> out[j] == all[if j < n then j else j - 1];
    }
  }

  /** The first gray object, a thread, moves to `grayagain`. */
  lemma PropagateThreadStart(s: State)
    requires Marking(s) && s.gray != [] && s.heap[s.gray[0]].kind.Thread?
    ensures var r := s.gray[0];
      && Paint(s.heap, r, Gray) == s.heap
      && Marking(s.(gray := s.gray[1..], grayagain := [r] + s.grayagain))
  {
    var r := s.gray[0];
    assert s.gray == [r] + s.gray[1..];
    assert s.gray + s.grayagain == [r] + (s.gray[1..] + s.grayagain);
    NoDupTail(r, s.gray[1..] + s.grayagain);
    NoDupParts(s.gray[1..], s.grayagain, r);
  }

  lemma PropagateThreadInv(s: State)
    requires Marking(s) && s.gray != [] && s.heap[s.gray[0]].kind.Thread?
    ensures var s' := PropagateMark(s); Marking(s') && OnlyMarked(s, s')
    ensures AgainClean(s) ==> AgainClean(PropagateMark(s))
  {
    var r := s.gray[0];
    PropagateThreadStart(s);
    var s1 := s.(gray := s.gray[1..], grayagain := [r] + s.grayagain);
    MarkAllInv(Marks(s1.heap, s1.gray), s.heap[r].slots, s1.grayagain, {});
    var s' := PropagateMark(s);
    if AgainClean(s) {
      forall q | q in s'.grayagain && q in s'.heap
        ensures s'.heap[q].kind.Thread? && Clean(s'.heap, s'.heap[q].slots)
      {
        if q != r {
          assert q in s.grayagain;
          DarkerKeepsClean(s.heap, s'.heap, s.heap[q].slots);
        }
      }
    }
  }

  lemma NoDupTail(r: Ref, rest: seq<Ref>)
    requires NoDup([r] + rest)
    ensures NoDup(rest) && r !in rest
  {
    var all := [r] + rest;
    forall i, j | 0 <= i < j < |rest| ensures rest[i] != rest[j] {
      assert rest[i] == all[i + 1] && rest[j] == all[j + 1];
    }
    forall i | 0 <= i < |rest| ensures rest[i] != r {
      assert rest[i] == all[i + 1] && all[0] == r;
    }
  }

  /** The first gray object turns black. */
  lemma PropagateOtherStart(s: State)
    requires Marking(s) && s.gray != [] && !s.heap[s.gray[0]].kind.Thread?
    ensures var r := s.gray[0];
      && Darker(s.heap, Paint(s.heap, r, Black))
      && MarkInv(Paint(s.heap, r, Black), s.gray[1..], s.grayagain, {r})
  {
    var r := s.gray[0];
    var h1, g1 := Paint(s.heap, r, Black), s.gray[1..];
    assert s.gray == [r] + g1;
    assert s.gray + s.grayagain == [r] + (g1 + s.grayagain);
    assert Darker(s.heap, h1);
    NoDupTail(r, g1 + s.grayagain);
    assert forall q :: q in g1 || q in s.grayagain <==> q in g1 + s.grayagain;
    forall q | q in h1 && q != r && h1[q].color.Black? ensures Clean(h1, h1[q].slots) && !h1[q].kind.Thread? {
      DarkerKeepsClean(s.heap, h1, s.heap[q].slots);
    }
  }

  lemma PropagateOtherInv(s: State)
    requires Marking(s) && s.gray != [] && !s.heap[s.gray[0]].kind.Thread?
    ensures var s' := PropagateMark(s); Marking(s') && OnlyMarked(s, s') && s'.grayagain == s.grayagain
    ensures AgainClean(s) ==> AgainClean(PropagateMark(s))
  {
    var r := s.gray[0];
    var slots := s.heap[r].slots;
    var h1, g1 := Paint(s.heap, r, Black), s.gray[1..];
    PropagateOtherStart(s);
    MarkAllInv(Marks(h1, g1), slots, s.grayagain, {r});
    var s' := PropagateMark(s);
    assert s'.heap[r].color.Black? && s'.heap[r].slots == slots;
    DarkerTransitive(s.heap, h1, s'.heap);
    assert MarkInv(s'.heap, s'.gray, s'.grayagain, {});
    if AgainClean(s) {
      forall q | q in s'.grayagain && q in s'.heap
        ensures s'.heap[q].kind.Thread? && Clean(s'.heap, s'.heap[q].slots)
      {
        DarkerKeepsClean(s.heap, s'.heap, s.heap[q].slots);
      }
    }
  }

  lemma PropagateMarkInv(s: State)
    requires Marking(s) && s.gray != []
    ensures var s' := PropagateMark(s); Marking(s') && OnlyMarked(s, s')
    ensures AgainClean(s) ==> AgainClean(PropagateMark(s))
  {
    if s.heap[s.gray[0]].kind.Thread? { PropagateThreadInv(s); } else { PropagateOtherInv(s); }
  }

  lemma {:induction false} PropagateAllInv(s: State)
    requires Marking(s)
    ensures var s' := PropagateAll(s); Marking(s') && OnlyMarked(s, s') && s'.gray == []
    ensures AgainClean(s) ==> AgainClean(PropagateAll(s))
    decreases WhiteRefs(s.heap), |s.gray|
  {
    if s.gray != [] {
      PropagateMarkShrinks(s);
      PropagateMarkInv(s);
      PropagateAllInv(PropagateMark(s));
      DarkerTransitive(s.heap, PropagateMark(s).heap, PropagateAll(s).heap);
    }
  }

  /** The list kept for the atomic step becomes the list to traverse. */
  lemma SwapLists(h: Heap, again: seq<Ref>)
    requires MarkInv(h, [], again, {})
    ensures MarkInv(h, again, [], {})
  {
    assert again + [] == [] + again;
  }

  /** When atomic has marked, nothing non-white refers to anything white: the white objects are
      exactly the garbage. */
  lemma AtomicMarkInv(s: State)
    requires Marking(s) && SlotsKnown(s, [To(s.running)] + s.mt)
    ensures var s' := AtomicMark(s);
      && OnlyMarked(s, s')
      && SlotsAllocated(s'.heap)
      && (forall r | r in s'.heap && !s'.heap[r].color.White? && !s'.heap[r].kind.String? ::
            Clean(s'.heap, s'.heap[r].slots))
      && Clean(s'.heap, [To(s.running)] + s.mt)
  {
    var roots := [To(s.running)] + s.mt;
    PropagateAllInv(s);
    var s1 := PropagateAll(s);
    MarkRefsInv(s1, roots);
    var s2 := MarkRefs(s1, roots);
    PropagateAllInv(s2);
    var s3 := PropagateAll(s2);
    var s4 := s3.(gray := s3.grayagain, grayagain := []);
    SwapLists(s3.heap, s3.grayagain);
    PropagateAllInv(s4);
    var s5 := PropagateAll(s4);
    DarkerTransitive(s.heap, s1.heap, s2.heap);
    DarkerTransitive(s.heap, s2.heap, s3.heap);
    DarkerTransitive(s.heap, s4.heap, s5.heap);
    DarkerTransitive(s2.heap, s3.heap, s5.heap);
    DarkerKeepsClean(s2.heap, s5.heap, roots);
  }
}
