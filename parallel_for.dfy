/*
 * The range-parallel loop of the sptl runtime, `parallel_for(lo, hi, body)`,
 * as seen by its callers: the runtime splits [lo, hi) recursively at
 * midpoints of its choosing, runs the two halves through fork2, and stops
 * splitting at leaves that loop sequentially over their sub-range. This
 * module describes those splits and proves that, whatever they are, the
 * leaves together visit every index of [lo, hi) exactly once.
 */
module ParallelFor {

  /**
   * One way the runtime may split a range. `Leaf` runs the sequential loop
   * over the whole range; `Fork` cuts [lo, hi) at `mid` into [lo, mid) and
   * [mid, hi), handled by `left` and `right`, and runs the two halves in
   * the order `leftFirst` says (fork2 promises no order).
   */
  datatype Split = Leaf | Fork(mid: int, leftFirst: bool, left: Split, right: Split)

  /** Every cut of `s` lies inside the range it cuts, so the two halves are disjoint and cover it. */
  predicate Fits(s: Split, lo: int, hi: int)
  {
    match s
    case Leaf => true
    case Fork(mid, _, left, right) => lo <= mid <= hi && Fits(left, lo, mid) && Fits(right, mid, hi)
  }

  /** The indices lo, lo + 1, ..., hi - 1 in ascending order: the order a sequential leaf loop visits them. */
  function Interval(lo: int, hi: int): (r: seq<int>)
    decreases hi - lo
    ensures |r| == if lo <= hi then hi - lo else 0
    ensures forall k :: 0 <= k < |r| ==> r[k] == lo + k
  {
    if hi <= lo then [] else Interval(lo, hi - 1) + [hi - 1]
  }

  /** The indices the leaves of `s` visit over [lo, hi), in the order they are visited. */
  function Visits(s: Split, lo: int, hi: int): (r: seq<int>)
    requires Fits(s, lo, hi)
    ensures lo <= hi ==> |r| == hi - lo
  {
    match s
    case Leaf => Interval(lo, hi)
    case Fork(mid, leftFirst, left, right) =>
      if leftFirst then Visits(left, lo, mid) + Visits(right, mid, hi)
      else Visits(right, mid, hi) + Visits(left, lo, mid)
  }

  /** Cutting an interval at a point inside it gives two intervals whose concatenation is the original. */
  lemma IntervalSplit(lo: int, mid: int, hi: int)
    requires lo <= mid <= hi
    ensures Interval(lo, mid) + Interval(mid, hi) == Interval(lo, hi)
  {
  }

  /** An interval holds each of its indices once and nothing else. */
  lemma {:induction false} IntervalCount(lo: int, hi: int, i: int)
    decreases hi - lo
    ensures multiset(Interval(lo, hi))[i] == if lo <= i < hi then 1 else 0
  {
    if lo < hi {
      IntervalCount(lo, hi - 1, i);
      assert Interval(lo, hi) == Interval(lo, hi - 1) + [hi - 1];
    }
  }

  /** Whatever the split, the leaves visit exactly the indices of [lo, hi), each once, in some order. */
  lemma {:induction false} VisitsArePermutation(s: Split, lo: int, hi: int)
    requires lo <= hi && Fits(s, lo, hi)
    ensures multiset(Visits(s, lo, hi)) == multiset(Interval(lo, hi))
  {
    match s
    case Leaf =>
    case Fork(mid, leftFirst, left, right) =>
      VisitsArePermutation(left, lo, mid);
      VisitsArePermutation(right, mid, hi);
      IntervalSplit(lo, mid, hi);
  }

  /** Every index of [lo, hi) is visited by exactly one leaf, exactly once; no index outside is visited. */
  lemma VisitsEachIndexOnce(s: Split, lo: int, hi: int, i: int)
    requires lo <= hi && Fits(s, lo, hi)
    ensures multiset(Visits(s, lo, hi))[i] == if lo <= i < hi then 1 else 0
  {
    VisitsArePermutation(s, lo, hi);
    IntervalCount(lo, hi, i);
  }
}
