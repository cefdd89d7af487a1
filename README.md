# Fork-join benchmark drivers of the sptl runtime, in Dafny

The repository's benchmark drivers exercise a fork-join runtime with granularity control. That runtime is made of `spguard`, `fork2`, `parallel_for` and the work-stealing scheduler. Two drivers hold self-contained integer logic, and this project models them:

- **`fib.cpp`**, in module `Fib` (`fib.dfy`).
  - `fib_seq` is the recursive Fibonacci function. It is modelled as the function `FibSeq` on unbounded integers. Separate lemmas say for which `long` arguments the 64-bit computation agrees with it.
  - `fib_par` is modelled as the method `FibPar`. At every call, the runtime's guard picks either the parallel body or the sequential fallback. The parallel body forks `fib_par(n-1)` and `fib_par(n-2)` and adds their results; the fallback calls `fib_seq`.
  - The guard's decisions are a `Guard` tree laid along the call tree, and the tree is an argument of `FibPar`. A `Sequential` node runs the fallback. A `Parallel` node runs the parallel body, with one sub-tree for each forked call.
  - `fork2` runs both branches to completion before the code after it runs. The `leftFirst` flag picks which branch runs first, because `fork2` promises no order.
  - The main theorem is the postcondition of `FibPar`: the result is `fib_seq(n)` for every guard tree.
  - `result = a + b` reads `a` and `b` only after both branches have assigned them. In the model, Dafny's definite-assignment check enforces this, since `a` and `b` are declared without an initial value.
- **`map_incr.cpp`**, in modules `ParallelFor` (`parallel_for.dfy`) and `MapIncr` (`map_incr.dfy`).
  - `parallel_for(0, n, body)` is modelled as a recursive split of `[lo, hi)`, described by a `Split` tree. Each `Fork` node cuts the range at a midpoint inside it and runs both halves, in either order. Each `Leaf` runs the sequential loop over its sub-range.
  - `ParallelFor` proves that, whatever the split, the leaves visit every index of `[lo, hi)` exactly once.
  - `MapIncr` models the body `dest[i] = source[i] + 1` on 32-bit `int` arrays. The method records the index of every store in a ghost trace, and that trace is the split's visit order.
  - `MapIncr` proves that every index in `[0, n)` is stored exactly once, that `dest` then holds `source[i] + 1` there, and that `dest` is unchanged from `n` on.
  - The postcondition does not mention the split, so the final `dest` is the same for every split, when `source` and `dest` are the same array or disjoint arrays.
  - `source` and `dest` may be the same array: the signature `(const int*, int*)` does not forbid it, and the model proves the result for that case too. Buffers that overlap at an offset are not modelled (see "## Left out").

Integer widths are explicit. `long` is the newtype `Fib.Int64` and `int` is `MapIncr.Int32`. The additions of `fib_par` (`a + b`) and of map_incr's body (`source[i] + 1`) are therefore checked against the width; the addition of `fib_seq` is computed on unbounded integers, and `FibSeqFitsInLong` states that it stays within a `long`. This makes two caller obligations visible:
- `fib_par` needs `n <= 92`: `fib_seq(93)` does not fit in a `long`.
- `map_incr` needs `source[i] < INT_MAX` on `[0, n)`.

Both are signed overflows, which are undefined behaviour in C++, so the source implicitly demands both.

## Model

| member | source | states |
|---|---|---|
| `Fib.FibSeq` | code/fib.cpp:8-14 | zero and every negative argument are returned unchanged; every argument from 1 on gives a result of at least 1; recursion only on n-1 and n-2 when n >= 2, so it terminates |
| `Fib.FibSeqMonotone` | code/fib.cpp:8-14 | from 0 on, fib_seq never decreases: `0 <= m <= n` implies `fib_seq(m) <= fib_seq(n)` |
| `Fib.FibSeqMatchesPair` | code/fib.cpp:8-14 | fib_seq(n), fib_seq(n+1) equal the pair computed by the linear-time textbook recurrence from (0, 1), for every n >= 0 |
| `Fib.FibSeqAt92` | code/fib.cpp:8-14 | fib_seq(92) = 7540113804746346429 and fib_seq(93) = 12200160415121876738 |
| `Fib.FibSeqFitsInLong` | code/fib.cpp:8-14 | for every `long` n <= 92, fib_seq(n) and both operands of its addition are `long` values, so the 64-bit computation does not overflow |
| `Fib.FibSeqOverflowsPast92` | code/fib.cpp:12 | for every n >= 93, fib_seq(n) exceeds LONG_MAX, so 92 is the largest safe argument |
| `Fib.FibPar` | code/fib.cpp:18-33 | for every n <= 92 and every sequence of guard decisions and fork2 orders, the result equals fib_seq(n); the sequential fallback and the parallel body with n < 2 make no fork; the parallel body with n >= 2 forks |
| `ParallelFor.Interval` | code/map_incr.cpp:10 | the range [lo, hi) as the sequence lo, lo+1, ..., hi-1 (empty when hi <= lo) |
| `ParallelFor.Visits` | code/map_incr.cpp:10-12 | the indices the leaves of a split visit, in visit order; there are hi - lo of them |
| `ParallelFor.IntervalSplit` | code/map_incr.cpp:10 | cutting [lo, hi) at a midpoint inside it gives two disjoint sub-ranges whose concatenation is the original |
| `ParallelFor.IntervalCount` | code/map_incr.cpp:10 | [lo, hi) holds each index from lo to hi-1 once and no other index |
| `ParallelFor.VisitsArePermutation` | code/map_incr.cpp:10-12 | for every split, the visited indices are a permutation of [lo, hi) |
| `ParallelFor.VisitsEachIndexOnce` | code/map_incr.cpp:10-12 | for every split, each index of [lo, hi) is visited exactly once and no index outside is visited |
| `MapIncr.IncrAt` | code/map_incr.cpp:11 | the body stores source[i] + 1 into dest[i], with the 32-bit addition defined because source[i] < INT_MAX, and changes no other element of dest |
| `MapIncr.SequentialLoop` | code/map_incr.cpp:10-12 | a parallel_for leaf stores source[k] + 1 into dest[k] for each k of [lo, hi) in ascending order, leaves dest and source unchanged outside [lo, hi), and stores exactly at the indices lo..hi-1 |
| `MapIncr.ParallelForIncr` | code/map_incr.cpp:10-12 | for every split of [lo, hi) and either fork2 order, dest[k] = old source[k] + 1 on [lo, hi), dest and source are unchanged outside, and the stores happen in the split's visit order |
| `MapIncr.MapIncr` | code/map_incr.cpp:9-13 | dest[i] = old source[i] + 1 for every i in [0, n); dest is unchanged from n on (entirely when n == 0); a source distinct from dest is unchanged; each index of [0, n) is stored exactly once and no other index is stored; none of this depends on the split |

## Left out

- The guard's cost estimate `pow(phi, n)`, the calibrated threshold and their comparison (code/fib.cpp:16,20) are floating point. Each guard decision is an arbitrary choice, and the `Guard` tree records those choices. `parallel_for`'s own granularity decisions and midpoint choices are likewise an arbitrary `Split` tree.
- The scheduler, its workers and work stealing are not modelled. True concurrency is not modelled either. `fork2` runs both branches to completion, one after the other, in either order, and `parallel_for` leaves run one after another. Interleavings between leaves are not modelled (each leaf runs sequentially). They matter only for data races. When `source` and `dest` are the same array or disjoint arrays there are none, because the two halves of a split read and write disjoint indices.
- `parallel_for` is modelled with map_incr's body only. It is not modelled as a primitive that takes an arbitrary per-index closure.
- `Fib.FibSeq` computes on unbounded integers. The 64-bit semantics are stated separately by `FibSeqFitsInLong` and `FibSeqOverflowsPast92`.
- `Fib.FibPar`: the precondition `n <= 92` is not checked by the source. Past that bound the source's `long` addition overflows, which is undefined behaviour, so the model has no meaning to give it.
- `Fib.FibPar`: the fork count is a ghost out-parameter. The source has no such counter; the count stands for "a fork happens".
- `MapIncr.MapIncr`: `source` and `dest` are either the same array or disjoint arrays. Partially overlapping buffers (for example `dest == source + 1`) are not modelled: there one leaf writes a cell that another leaf reads, which is a race between leaves and a violation of the caller's contract, and the result then depends on the split.
- `MapIncr.MapIncr`: pointer validity is expressed as `n` not exceeding the lengths of the two arrays. `size_type` is modelled as `nat`.
- code/dmdvmult.cpp is not part of this model. Its dot product and matrix-vector product are floating-point numerics, and its `reducei` primitive is not part of this model either.
- code/pthread-hello.cpp is not part of this model: it is raw thread creation and console output.
- The `ex` and `main` functions of every driver are not part of this model. They do command-line parsing, timing, array allocation and output.
