/** A full collection of Lua (luaC_fullgc in lua/lgc.c): with no mutator between its steps it ends, and leaves
    exactly the objects that can be reached and the fixed ones, strings included. */
module LuaGcFull {
  import opened LuaGcState
  import opened LuaGcSafety
  import opened LuaGcGarbage

  // ---------------------------------------------------------------- every loop of steps ends

  /** The phases still ahead. */
  function PhasesLeft(p: Phase, stop: Phase): nat {
    if p == stop then 0
    else match p
      case Pause => 5
      case Propagate => 4
      case SweepString => 3
      case Sweep => 2
      case Finalize => 1
  }

  /** The objects still to be marked. */
  function WhiteLeft(s: State): set<Ref> {
    if s.phase.Propagate? then WhiteRefs(s.heap) else {}
  }

  /** The gray objects, buckets or links still to be passed in this phase. */
  function Left(s: State): int {
    match s.phase
    case Propagate => |s.gray|
    case SweepString => |s.strt| - s.sweepstrgc
    case Sweep => |s.rootgc| - s.sweepgc
    case _ => 0
  }

  lemma {:induction false} SweepListLeft(h: Heap, list: seq<Ref>, pos: nat, count: nat, current: bool)
    ensures var w := SweepList(h, list, pos, count, current);
            |w.list| - w.pos <= |list| - pos && (count > 0 && pos < |list| ==> |w.list| - w.pos < |list| - pos)
    decreases count
  {
    if pos < |list| && count > 0 {
      var r := list[pos];
      if r in h && DeadObj(h[r], current) {
        SweepListLeft(h - {r}, list[..pos] + list[pos + 1..], pos, count - 1, current);
      } else {
        SweepListLeft(if r in h then Paint(h, r, White(current)) else h, list, pos + 1, count - 1, current);
      }
    }
  }

  /** Each step leaves less to do before the phase `stop`. */
  ghost predicate Nearer(s: State, s': State, stop: Phase) {
    || PhasesLeft(s'.phase, stop) < PhasesLeft(s.phase, stop)
    || (s'.phase == s.phase && (WhiteLeft(s') < WhiteLeft(s) || (WhiteLeft(s') == WhiteLeft(s) && Left(s') < Left(s))))
  }

  lemma StepNearer(s: State, stop: Phase)
    requires Inv(s) && s.phase != stop && (stop.Pause? || (stop.Finalize? && !s.phase.Pause?))
    ensures Nearer(s, SingleStep(s), stop) && (stop.Finalize? ==> !SingleStep(s).phase.Pause?)
    ensures Left(s) >= 0
  {
    match s.phase
    case Propagate =>
      if s.gray != [] {
        PropagateMarkShrinks(s);
        PropagateStepInv(s);
      }
    case SweepString =>
    case Sweep => SweepListLeft(s.heap, s.rootgc, s.sweepgc, GCSWEEPMAX, s.current);
    case Finalize =>
  }

  /** The loops of luaC_fullgc: steps up to a phase. */
  function RunUntil(s: State, stop: Phase): (t: State)
    requires Inv(s) && (stop.Pause? || (stop.Finalize? && !s.phase.Pause?))
    ensures Inv(t) && t.phase == stop
    decreases PhasesLeft(s.phase, stop), WhiteLeft(s), Left(s)
  {
    if s.phase == stop then s
    else
      StepNearer(s, stop);
      SingleStepInv(s);
      RunUntil(SingleStep(s), stop)
  }

  /** The first half of luaC_fullgc, after which everything is white. */
  function Cleaned(s: State): (t: State)
    requires Inv(s)
    ensures Inv(t) && t.phase.Pause?
  {
    AbandonMarkInv(s);
    RunUntil(AbandonMark(s), Finalize).(phase := Pause)
  }

  /** luaC_fullgc: pending marking is given up, a pending sweep finished, and a whole cycle run. */
  function FullGc(s: State): (t: State)
    requires Inv(s)
    ensures Inv(t) && t.phase.Pause?
  {
    MarkRootInv(Cleaned(s));
    RunUntil(MarkRoot(Cleaned(s)), Pause)
  }

  // ---------------------------------------------------------------- what steps keep

  /** Nothing but colours has changed, and nothing but dead objects has gone. */
  ghost predicate Pruned(s: State, t: State) {
    && t.main == s.main && t.running == s.running && t.registry == s.registry && t.mt == s.mt
    && (forall r | r in t.heap :: r in s.heap && t.heap[r] == s.heap[r].(color := t.heap[r].color))
    && (forall r | r in s.heap && (s.heap[r].fixed || Reachable(s, r)) :: r in t.heap)
  }

  lemma StepPruned(s: State)
    requires Inv(s)
    ensures Pruned(s, SingleStep(s))
  {
    SingleStepInv(s);
    forall r | r in s.heap && (s.heap[r].fixed || Reachable(s, r)) ensures r in SingleStep(s).heap {
      if Reachable(s, r) { ReachableLive(s, r); }
    }
    match s.phase
    case Pause => MarkRootInv(s);
    case Propagate => if s.gray != [] { PropagateStepInv(s); } else { AtomicInv(s); }
    case SweepString => SweepBucketInv(s);
    case Sweep => SweepSomeInv(s);
    case Finalize =>
  }

  /** The same objects can be reached before and after. */
  lemma PrunedReachable(s: State, t: State, r: Ref)
    requires Inv(s) && Pruned(s, t)
    ensures Reachable(s, r) <==> Reachable(t, r)
  {
    if Reachable(t, r) {
      var path :| RootPath(t, path) && path[|path| - 1] == r;
      assert RootPath(s, path);
    }
    if Reachable(s, r) {
      var path :| RootPath(s, path) && path[|path| - 1] == r;
      forall i | 0 <= i < |path| - 1 ensures path[i] in t.heap && To(path[i + 1]) in t.heap[path[i]].slots {
        PrefixReachable(s, path, i);
      }
      assert RootPath(t, path);
    }
  }

  lemma PrefixReachable(s: State, path: seq<Ref>, i: nat)
    requires RootPath(s, path) && i < |path|
    ensures Reachable(s, path[i])
  {
    var front := path[..i + 1];
    assert forall k | 0 <= k < |front| :: front[k] == path[k];
    assert RootPath(s, front);
  }

  lemma PrunedTransitive(s: State, t: State, u: State)
    requires Inv(s) && Pruned(s, t) && Pruned(t, u)
    ensures Pruned(s, u)
  {
    forall r | r in s.heap && (s.heap[r].fixed || Reachable(s, r)) ensures r in u.heap {
      PrunedReachable(s, t, r);
    }
  }

  lemma {:induction false} RunPruned(s: State, stop: Phase)
    requires Inv(s) && (stop.Pause? || (stop.Finalize? && !s.phase.Pause?))
    ensures Pruned(s, RunUntil(s, stop))
    decreases PhasesLeft(s.phase, stop), WhiteLeft(s), Left(s)
  {
    if s.phase != stop {
      StepNearer(s, stop);
      StepPruned(s);
      SingleStepInv(s);
      RunPruned(SingleStep(s), stop);
      PrunedTransitive(s, SingleStep(s), RunUntil(s, stop));
    }
  }

  // ---------------------------------------------------------------- what a cycle frees

  /** Unmarked objects are gone when the cycle is over. */
  lemma {:induction false} RunFrees(s: State, us: set<Ref>)
    requires Inv(s) && !s.phase.Pause? && Unmarked(s, us)
    ensures forall u | u in us :: u !in RunUntil(s, Pause).heap
    decreases PhasesLeft(s.phase, Pause), WhiteLeft(s), Left(s)
  {
    if !s.phase.Finalize? {
      var s' := SingleStep(s);
      StepNearer(s, Pause);
      SingleStepInv(s);
      CollectUnmarked(s, us);
      RunFrees(s', us * s'.heap.Keys);
      RunPruned(s', Pause);
    }
  }

  lemma CleanedPruned(s: State)
    requires Inv(s)
    ensures Pruned(s, Cleaned(s))
  {
    AbandonMarkInv(s);
    RunPruned(AbandonMark(s), Finalize);
    assert Pruned(s, AbandonMark(s));
    PrunedTransitive(s, AbandonMark(s), RunUntil(AbandonMark(s), Finalize));
  }

  /** A cycle from the pause on keeps exactly what can be reached, and the fixed objects. */
  lemma CycleExact(c: State)
    requires Inv(c) && c.phase.Pause?
    ensures Inv(MarkRoot(c)) && Pruned(c, RunUntil(MarkRoot(c), Pause))
    ensures forall r | r in RunUntil(MarkRoot(c), Pause).heap :: Reachable(c, r) || c.heap[r].fixed
  {
    var marked := MarkRoot(c);
    MarkRootInv(c);
    StepPruned(c);
    RunPruned(marked, Pause);
    PrunedTransitive(c, marked, RunUntil(marked, Pause));
    var us := set u | u in c.heap && !c.heap[u].fixed && !Reachable(c, u);
    UnreachableUnmarked(c, us);
    MarkRootUnmarked(c, us);
    RunFrees(marked, us);
  }

  /** A full collection leaves exactly what can be reached, and the fixed objects, as they were but white. */
  lemma FullGcExact(s: State)
    requires Inv(s)
    ensures forall r :: r in FullGc(s).heap <==> r in s.heap && (Reachable(s, r) || s.heap[r].fixed)
    ensures forall r | r in FullGc(s).heap :: FullGc(s).heap[r] == s.heap[r].(color := White(FullGc(s).current))
    ensures forall r :: Reachable(FullGc(s), r) <==> Reachable(s, r)
  {
    var c, t := Cleaned(s), FullGc(s);
    CleanedPruned(s);
    CycleExact(c);
    PrunedTransitive(s, c, t);
    PausedWhite(t);
    forall r
      ensures r in t.heap <==> r in s.heap && (Reachable(s, r) || s.heap[r].fixed)
      ensures Reachable(t, r) <==> Reachable(s, r)
    {
      LeftExactly(s, c, t, r);
    }
  }

  lemma PausedWhite(t: State)
    requires Inv(t) && t.phase.Pause?
    ensures forall r | r in t.heap :: t.heap[r].color == White(t.current)
  {
    assert forall r | r in t.heap :: CurrentWhite(t.heap, r, t.current);
  }

  /** One object, if `c` lies between and the cycle from there on is exact. */
  lemma LeftExactly(s: State, c: State, t: State, r: Ref)
    requires Inv(s) && Pruned(s, c) && Pruned(c, t) && Pruned(s, t)
    requires r in t.heap ==> Reachable(c, r) || c.heap[r].fixed
    ensures r in t.heap <==> r in s.heap && (Reachable(s, r) || s.heap[r].fixed)
    ensures Reachable(t, r) <==> Reachable(s, r)
  {
    PrunedReachable(s, t, r);
    PrunedReachable(s, c, r);
  }
}
