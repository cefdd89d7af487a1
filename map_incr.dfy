/*
 * The array-increment benchmark: map_incr(source, dest, n) stores
 * source[i] + 1 into dest[i] for every i in [0, n), through the runtime's
 * parallel_for. Each method below says exactly what it writes; the ghost
 * `writes` results record, in order, the index of every store, so that the
 * visit-once facts proved about splits in module ParallelFor apply to the
 * stores themselves.
 */
module MapIncr {
  import opened ParallelFor

  /** The C++ `int` of the benchmark: a signed 32-bit integer. */
  newtype Int32 = x: int | -0x8000_0000 <= x < 0x8000_0000

  const IntMax: Int32 := 0x7FFF_FFFF

  /**
   * The loop body handed to parallel_for: dest[i] = source[i] + 1. The
   * addition is a 32-bit one, so the body is defined only when source[i]
   * is below INT_MAX. `source` and `dest` may be the same array.
   */
  method IncrAt(source: array<Int32>, dest: array<Int32>, i: int)
    requires 0 <= i < source.Length && i < dest.Length
    requires source[i] < IntMax
    modifies dest
    ensures dest[i] == old(source[i]) + 1
    ensures forall k :: 0 <= k < dest.Length && k != i ==> dest[k] == old(dest[k])
  {
    dest[i] := source[i] + 1;
  }

  /**
   * A leaf of parallel_for: the body, for each index of [lo, hi) in
   * ascending order. Only dest[lo..hi) changes; source changes only where
   * it is dest, hence only inside [lo, hi) too.
   */
  method SequentialLoop(source: array<Int32>, dest: array<Int32>, lo: int, hi: int) returns (ghost writes: seq<int>)
    requires 0 <= lo <= hi <= source.Length && hi <= dest.Length
    requires forall k :: lo <= k < hi ==> source[k] < IntMax
    modifies dest
    ensures forall k :: lo <= k < hi ==> dest[k] == old(source[k]) + 1
    ensures forall k :: 0 <= k < dest.Length && !(lo <= k < hi) ==> dest[k] == old(dest[k])
    ensures forall k :: 0 <= k < source.Length && !(lo <= k < hi) ==> source[k] == old(source[k])
    ensures writes == Interval(lo, hi)
  {
    writes := [];
    var i := lo;
    while i < hi
      invariant lo <= i <= hi
      invariant writes == Interval(lo, i)
      invariant forall k :: lo <= k < i ==> dest[k] == old(source[k]) + 1
      invariant forall k :: 0 <= k < dest.Length && !(lo <= k < i) ==> dest[k] == old(dest[k])
      invariant forall k :: 0 <= k < source.Length && !(lo <= k < i) ==> source[k] == old(source[k])
    {
      IncrAt(source, dest, i);
      writes := writes + [i];
      i := i + 1;
    }
  }

  /**
   * parallel_for(lo, hi, body) with the body of map_incr, under the split
   * `s` the runtime chooses: at a Fork both halves run to completion (fork2)
   * in the order the split says; at a Leaf the sequential loop runs. The
   * stores are exactly those of the split's leaves, in their order.
   */
  method ParallelForIncr(source: array<Int32>, dest: array<Int32>, lo: int, hi: int, s: Split) returns (ghost writes: seq<int>)
    requires 0 <= lo <= hi <= source.Length && hi <= dest.Length
    requires Fits(s, lo, hi)
    requires forall k :: lo <= k < hi ==> source[k] < IntMax
    modifies dest
    decreases s
    ensures forall k :: lo <= k < hi ==> dest[k] == old(source[k]) + 1
    ensures forall k :: 0 <= k < dest.Length && !(lo <= k < hi) ==> dest[k] == old(dest[k])
    ensures forall k :: 0 <= k < source.Length && !(lo <= k < hi) ==> source[k] == old(source[k])
    ensures writes == Visits(s, lo, hi)
  {
    match s
    case Leaf =>
      writes := SequentialLoop(source, dest, lo, hi);
    case Fork(mid, leftFirst, left, right) =>
      ghost var leftWrites: seq<int>, rightWrites: seq<int>;
      if leftFirst {
        leftWrites := ParallelForIncr(source, dest, lo, mid, left);
        rightWrites := ParallelForIncr(source, dest, mid, hi, right);
        writes := leftWrites + rightWrites;
      } else {
        rightWrites := ParallelForIncr(source, dest, mid, hi, right);
        leftWrites := ParallelForIncr(source, dest, lo, mid, left);
        writes := rightWrites + leftWrites;
      }
  }

  /**
   * map_incr(source, dest, n): afterwards dest[i] == source[i] + 1 on
   * [0, n), and dest is unchanged from n on (all of it when n == 0). Since
   * these clauses do not mention the split, every split leaves the same
   * dest. Each index of [0, n) is stored exactly once, no other index is
   * stored, and a source distinct from dest is left as it was.
   */
  method MapIncr(source: array<Int32>, dest: array<Int32>, n: nat, s: Split) returns (ghost writes: seq<int>)
    requires n <= source.Length && n <= dest.Length
    requires Fits(s, 0, n)
    requires forall i :: 0 <= i < n ==> source[i] < IntMax
    modifies dest
    ensures forall i :: 0 <= i < n ==> dest[i] == old(source[i]) + 1
    ensures forall i :: n <= i < dest.Length ==> dest[i] == old(dest[i])
    ensures source != dest ==> source[..] == old(source[..])
    ensures forall i :: multiset(writes)[i] == if 0 <= i < n then 1 else 0
  {
    writes := ParallelForIncr(source, dest, 0, n, s);
    forall i
      ensures multiset(writes)[i] == if 0 <= i < n then 1 else 0
    {
      VisitsEachIndexOnce(s, 0, n, i);
    }
  }
}
