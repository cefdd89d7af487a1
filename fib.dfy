/*
 * Recursive Fibonacci benchmark of the sptl runtime: a sequential
 * specification `fib_seq` and a granularity-controlled parallel version
 * `fib_par` that, at every call, lets the runtime's guard choose between a
 * forking body and the sequential fallback.
 */
module Fib {

  /** The C++ `long` of the benchmark: a signed 64-bit integer. */
  newtype Int64 = x: int | -0x8000_0000_0000_0000 <= x < 0x8000_0000_0000_0000

  const LongMin: int := -0x8000_0000_0000_0000
  const LongMax: int := 0x7FFF_FFFF_FFFF_FFFF

  predicate InLong(x: int) {
    LongMin <= x <= LongMax
  }

  /**
   * fib_seq: arguments below 2 (zero and every negative one) are returned
   * as they are; from 2 on, the sum of the two previous values. The
   * recursion only happens for n >= 2, on the smaller, non-negative
   * arguments n - 1 and n - 2, which is the termination measure.
   * Computed here on unbounded integers; `FibSeqFitsInLong` says when the
   * 64-bit computation of the source agrees with it.
   */
  function FibSeq(n: int): (r: int)
    decreases n
    ensures n <= 0 ==> r == n
    ensures 1 <= n ==> 1 <= r
  {
    if n < 2 then n else FibSeq(n - 1) + FibSeq(n - 2)
  }

  /** From 0 on, fib_seq never decreases. */
  lemma {:induction false} FibSeqMonotone(m: int, n: int)
    requires 0 <= m <= n
    ensures FibSeq(m) <= FibSeq(n)
  {
    if m < n {
      FibSeqMonotone(m, n - 1);
      if n >= 2 {
        assert FibSeq(n) == FibSeq(n - 1) + FibSeq(n - 2);
      }
    }
  }

  /**
   * An independent reference definition: the textbook linear-time
   * Fibonacci, which carries the pair of two consecutive values upwards
   * from (0, 1).
   */
  function FibPair(n: nat): (int, int)
  {
    if n == 0 then (0, 1)
    else (FibPair(n - 1).1, FibPair(n - 1).0 + FibPair(n - 1).1)
  }

  /** fib_seq agrees with the linear-time reference on every non-negative argument. */
  lemma {:induction false} FibSeqMatchesPair(n: nat)
    ensures FibPair(n) == (FibSeq(n), FibSeq(n + 1))
  {
    if n > 0 {
      FibSeqMatchesPair(n - 1);
    }
  }

  /**
   * The reference pair at 10, 20, ..., 90, each computed from the previous
   * one. These steps exist only to keep the evaluation of FibPair(92) in
   * FibSeqAt92 within the solver's resource limit.
   */
  lemma FibPairAt10()
    ensures FibPair(10) == (55, 89)
  {
  }

  lemma FibPairAt20()
    ensures FibPair(20) == (6765, 10946)
  {
    FibPairAt10();
  }

  lemma FibPairAt30()
    ensures FibPair(30) == (832040, 1346269)
  {
    FibPairAt20();
  }

  lemma FibPairAt40()
    ensures FibPair(40) == (102334155, 165580141)
  {
    FibPairAt30();
  }

  lemma FibPairAt50()
    ensures FibPair(50) == (12586269025, 20365011074)
  {
    FibPairAt40();
  }

  lemma FibPairAt60()
    ensures FibPair(60) == (1548008755920, 2504730781961)
  {
    FibPairAt50();
  }

  lemma FibPairAt70()
    ensures FibPair(70) == (190392490709135, 308061521170129)
  {
    FibPairAt60();
  }

  lemma FibPairAt80()
    ensures FibPair(80) == (23416728348467685, 37889062373143906)
  {
    FibPairAt70();
  }

  lemma FibPairAt90()
    ensures FibPair(90) == (2880067194370816120, 4660046610375530309)
  {
    FibPairAt80();
  }

  /** The largest argument whose Fibonacci number is still a `long`, and the next one. */
  lemma FibSeqAt92()
    ensures FibSeq(92) == 7540113804746346429
    ensures FibSeq(93) == 12200160415121876738
  {
    FibPairAt90();
    assert FibPair(92) == (7540113804746346429, 12200160415121876738);
    FibSeqMatchesPair(92);
  }

  /**
   * For every `long` argument up to 92, fib_seq's result and the two
   * operands of its addition are `long` values, so the source's 64-bit
   * computation does not overflow and agrees with FibSeq.
   */
  lemma FibSeqFitsInLong(n: int)
    requires InLong(n) && n <= 92
    ensures InLong(FibSeq(n))
    ensures 2 <= n ==> InLong(FibSeq(n - 1)) && InLong(FibSeq(n - 2))
  {
    if 0 <= n {
      FibSeqAt92();
      FibSeqMonotone(n, 92);
      if 2 <= n {
        FibSeqMonotone(n - 1, 92);
        FibSeqMonotone(n - 2, 92);
      }
    }
  }

  /** 92 is the last argument that fits: from 93 on, fib_seq overflows a `long`. */
  lemma FibSeqOverflowsPast92(n: int)
    requires 93 <= n
    ensures FibSeq(n) > LongMax
  {
    FibSeqAt92();
    FibSeqMonotone(93, n);
  }

  /**
   * The decisions the runtime's guard (spguard) takes during one call of
   * fib_par, laid out along the call tree. `Sequential` runs the sequential
   * fallback; `Parallel` runs the parallel body, whose fork2 runs the two
   * recursive calls, the one for n - 1 under `left` and the one for n - 2
   * under `right`, in the order `leftFirst` says (fork2 promises no order).
   * Every finite run of the guard, however it compares its cost estimate
   * with its threshold, is one such tree.
   */
  datatype Guard = Sequential | Parallel(leftFirst: bool, left: Guard, right: Guard)

  /**
   * fib_par: the result is fib_seq(n) whatever the guard decides at every
   * level. `forks` counts the fork2 calls made: none on the sequential
   * fallback and none on the parallel body when n < 2. A caller must keep
   * n <= 92, past which the `long` arithmetic overflows.
   */
  method FibPar(n: Int64, g: Guard) returns (result: Int64, ghost forks: nat)
    requires n <= 92
    decreases n
    ensures result as int == FibSeq(n as int)
    ensures g.Sequential? ==> forks == 0
    ensures n < 2 ==> forks == 0
    ensures g.Parallel? && 2 <= n ==> 1 <= forks
  {
    FibSeqFitsInLong(n as int);
    match g
    case Sequential =>
      result := FibSeq(n as int) as Int64;
      forks := 0;
    case Parallel(leftFirst, left, right) =>
      if n < 2 {
        result := FibSeq(n as int) as Int64;
        forks := 0;
        return;
      }
      var a: Int64, b: Int64;
      ghost var forksA: nat, forksB: nat;
      // fork2: both branches run to completion before the sum below.
      if leftFirst {
        a, forksA := FibPar(n - 1, left);
        b, forksB := FibPar(n - 2, right);
      } else {
        b, forksB := FibPar(n - 2, right);
        a, forksA := FibPar(n - 1, left);
      }
      result := a + b;
      forks := 1 + forksA + forksB;
  }
}
