/** What the 8-bit operands of the bytecode cost: a function that compiles and then computes something
    else (src/compiler/compile.lua, src/vm/core.c). */
module SaurusWidth {
  import opened Options
  import opened SaurusGen
  import opened SaurusVm
  import opened SaurusCorrect

  /** The body that evaluates k, k + 1, ..., n - 1 and keeps the last. */
  function Numbers(k: nat, n: nat): (r: seq<Sexp>)
    requires k <= n
    ensures |r| == n - k
  {
    seq(n - k, i requires 0 <= i < n - k => Number((k + i) as real))
  }

  function Consts(n: nat): (r: seq<Const>)
    ensures |r| == n
  {
    seq(n, i requires 0 <= i < n => NumConst(i as real))
  }

  /** Every number is a new constant, so number i is pushed by operand i. */
  function Pushes(k: nat, n: nat): (r: seq<Inst>)
    requires k < n
    ensures |r| == 2 * (n - k) - 1
  {
    seq(2 * (n - k) - 1, j requires 0 <= j < 2 * (n - k) - 1 =>
      if j % 2 == 0 then Inst(Push, k + j / 2, 0) else Inst(Pop, 1, 0))
  }

  lemma {:induction false} FreshConst(n: nat, m: nat)
    requires n <= m
    ensures ConstIndex(Consts(n), NumConst(m as real)) == n && AddConst(Consts(n), NumConst(n as real)) == Consts(n + 1)
  {
    NotAmong(Consts(n), NumConst(m as real));
    NotAmong(Consts(n), NumConst(n as real));
    assert Consts(n) + [NumConst(n as real)] == Consts(n + 1);
  }

  lemma {:induction false} NotAmong(consts: seq<Const>, c: Const)
    requires forall i | 0 <= i < |consts| :: consts[i] != c
    ensures ConstIndex(consts, c) == |consts|
  {
    if consts != [] { NotAmong(consts[1..], c); }
  }

  lemma {:induction false} NumbersGen(k: nat, n: nat, base: nat, scopes: seq<Scope>)
    requires k < n && scopes != []
    ensures GenBody(Numbers(k, n), base, Lists(Consts(k), [], []), scopes)
         == Some(Out(Pushes(k, n), Lists(Consts(n), [], [])))
    decreases n - k
  {
    FreshConst(k, k);
    var items, lists := Numbers(k, n), Lists(Consts(k), [], []);
    var x := Out(One(Push, k), Lists(Consts(k + 1), [], []));
    assert Gen(items[0], n == k + 1, false, base, lists, scopes) == Some(x);
    if n == k + 1 {
      assert Pushes(k, n) == x.code;
    } else {
      assert items[1..] == Numbers(k + 1, n);
      NumbersGen(k + 1, n, base + 2, scopes);
      PushesStep(k, n);
    }
  }

  lemma PushesStep(k: nat, n: nat)
    requires k + 1 < n
    ensures Pushes(k, n) == One(Push, k) + One(Pop, 1) + Pushes(k + 1, n)
  {
    var p, q := Pushes(k, n), One(Push, k) + One(Pop, 1) + Pushes(k + 1, n);
    forall j | 0 <= j < |p| ensures p[j] == q[j] {
      if j >= 2 { assert q[j] == Pushes(k + 1, n)[j - 2] && (j - 2) % 2 == j % 2 && (j - 2) / 2 == j / 2 - 1; }
    }
  }

  lemma {:induction false} NumbersEval(k: nat, n: nat)
    requires k < n
    ensures FragmentEach(Numbers(k, n), []) && EvalBody(Numbers(k, n), map[], []) == Ok(Num((n - 1) as real))
    decreases n - k
  {
    if n == k + 1 {
      assert Numbers(k, n) == [Number(k as real)];
      assert Numbers(k, n)[1..] == [] && Fragment(Number(k as real), []);
    } else {
      assert Numbers(k, n)[1..] == Numbers(k + 1, n);
      NumbersEval(k + 1, n);
    }
  }

  /** The prototype of the function of no arguments with this body. */
  function Wide(n: nat): Proto
    requires n > 0
  {
    Proto(Pushes(0, n) + One(Return, 0), Consts(n), [], [])
  }

  /** Pushing a number and dropping it again. */
  lemma PairRuns(m: Machine, host: Host, s: State, i: nat, n: nat)
    requires IsLoop(m, host) && i + 1 < n && s.func.proto == Encode(Wide(n)) && s.pc == 2 * i
    ensures Steps(m, Running(s), 2) == Running(s.(pc := 2 * i + 2))
  {
    WideInst(n, 2 * i);
    WideInst(n, 2 * i + 1);
    var t := s.(pc := s.pc + 1, stack := s.stack + [Num((i % 256) as real)]);
    NumberTurn(m, host, s, i, n);
    StepStack(m, host, t);
    assert t.stack[..|t.stack| - 1] + [] == s.stack;
    assert Steps(m, Running(s), 2) == Steps(m, Running(t), 1) == Steps(m, m(t), 0);
  }

  lemma WideInst(n: nat, j: nat)
    requires n > 0 && j < 2 * n - 1
    ensures j < |Encode(Wide(n)).insts|
    ensures Encode(Wide(n)).insts[j] == if j % 2 == 0 then Inst(Push, j / 2 % 256, 0) else Inst(Pop, 1, 0)
  {
    assert Wide(n).insts[j] == Pushes(0, n)[j];
  }

  lemma NumberTurn(m: Machine, host: Host, s: State, i: nat, n: nat)
    requires IsLoop(m, host) && i < n && s.func.proto == Encode(Wide(n)) && s.pc == 2 * i
    ensures m(s) == Running(s.(pc := s.pc + 1, stack := s.stack + [Num((i % 256) as real)]))
  {
    WideInst(n, 2 * i);
    assert s.func.proto.consts == Consts(n) && i % 256 < n;
    StepStack(m, host, s);
    assert s.stack[..|s.stack| - 0] == s.stack;
  }

  lemma {:induction false} PairsRun(m: Machine, host: Host, s: State, i: nat, n: nat)
    requires IsLoop(m, host) && i < n && s.func.proto == Encode(Wide(n)) && s.pc == 0
    ensures Steps(m, Running(s), 2 * i) == Running(s.(pc := 2 * i))
    decreases i
  {
    if i > 0 {
      PairsRun(m, host, s, i - 1, n);
      StepsAdd(m, Running(s), 2 * (i - 1), 2);
      PairRuns(m, host, s.(pc := 2 * (i - 1)), i - 1, n);
    }
  }

  /** A function of n constants returns constant (n - 1) mod 256. */
  lemma WideRuns(m: Machine, host: Host, s: State, n: nat)
    requires IsLoop(m, host) && n > 0 && s.func.proto == Encode(Wide(n)) && s.pc == 0
    ensures Steps(m, Running(s), 2 * n - 1) == Running(Push1(s, 2 * n - 1, Num(((n - 1) % 256) as real)))
  {
    PairsRun(m, host, s, n - 1, n);
    var t := s.(pc := 2 * (n - 1));
    NumberTurn(m, host, t, n - 1, n);
    StepsAdd(m, Running(s), 2 * (n - 1), 1);
    assert Steps(m, Running(t), 1) == Steps(m, m(t), 0);
  }

  /** The function of n numbers computes the last of them exactly when all n constants can be told apart
      by a byte; with one more it quietly returns another. */
  lemma WideComputes(m: Machine, host: Host, s: State, n: nat, scopes: seq<Scope>)
    requires IsLoop(m, host) && n > 0 && s.func.proto == Encode(Wide(n)) && s.pc == 0
    ensures var x := GenBody(Numbers(0, n), 0, NOTHING, [Scope([], false)] + scopes);
      x.Some? && Wide(n) == Proto(x.value.code + One(Return, 0),
                                  x.value.lists.consts, x.value.lists.ups, x.value.lists.prots)
    ensures FragmentEach(Numbers(0, n), [])
    ensures Delivers(m, s, 2 * n - 1, EvalBody(Numbers(0, n), map[], []), 2 * n - 1) <==> n <= 256
  {
    assert Consts(0) == [];
    NumbersGen(0, n, 0, [Scope([], false)] + scopes);
    NumbersEval(0, n);
    WideRuns(m, host, s, n);
    var got, wanted := (n - 1) % 256, n - 1;
    assert (got as real).Floor == got && (wanted as real).Floor == wanted;
    assert Top(Push1(s, 2 * n - 1, Num(got as real)), 0) == Num(got as real);
    assert Top(Push1(s, 2 * n - 1, Num(wanted as real)), 0) == Num(wanted as real);
  }
}
