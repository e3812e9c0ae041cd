/**
 * List plumbing of the batch runner: round-robin buckets, concatenation of
 * per-bucket results, and the per-item maps the runner applies to a list.
 */
module Batches {
  import opened Outcomes

  // ---------------------------------------------------------------------
  // Concatenation

  function Flatten<T>(bs: seq<seq<T>>): seq<T>
  {
    if |bs| == 0 then [] else bs[0] + Flatten(bs[1..])
  }

  /** Each item contributes its own run of results, in list order. */
  function FlatMap<A, B>(xs: seq<A>, g: A -> seq<B>): seq<B>
  {
    if |xs| == 0 then [] else g(xs[0]) + FlatMap(xs[1..], g)
  }

  lemma {:induction false} FlattenAppend<T>(a: seq<seq<T>>, b: seq<seq<T>>)
    ensures Flatten(a + b) == Flatten(a) + Flatten(b)
  {
    if |a| > 0 {
      FlattenAppend(a[1..], b);
      assert (a + b)[1..] == a[1..] + b;
    } else {
      assert a + b == b;
    }
  }

  /** Processing a list in two halves and concatenating is processing it whole. */
  lemma {:induction false} FlatMapAppend<A, B>(a: seq<A>, b: seq<A>, g: A -> seq<B>)
    ensures FlatMap(a + b, g) == FlatMap(a, g) + FlatMap(b, g)
  {
    if |a| > 0 {
      FlatMapAppend(a[1..], b, g);
      assert (a + b)[1..] == a[1..] + b;
    } else {
      assert a + b == b;
    }
  }

  function MapEach<A, B>(bs: seq<seq<A>>, g: A -> seq<B>): (rs: seq<seq<B>>)
    ensures |rs| == |bs| && forall k :: 0 <= k < |bs| ==> rs[k] == FlatMap(bs[k], g)
  {
    seq(|bs|, k requires 0 <= k < |bs| => FlatMap(bs[k], g))
  }

  /** Concatenating per-bucket results equals processing the concatenated buckets. */
  lemma {:induction false} FlatMapFlatten<A, B>(bs: seq<seq<A>>, g: A -> seq<B>)
    ensures FlatMap(Flatten(bs), g) == Flatten(MapEach(bs, g))
  {
    if |bs| > 0 {
      FlatMapFlatten(bs[1..], g);
      FlatMapAppend(bs[0], Flatten(bs[1..]), g);
      assert MapEach(bs, g)[1..] == MapEach(bs[1..], g);
    }
  }

  /** Removing one position removes one occurrence of its item. */
  lemma MultisetRemove<T>(ys: seq<T>, j: nat)
    requires j < |ys|
    ensures multiset(ys[..j] + ys[j + 1..]) == multiset(ys) - multiset{ys[j]}
  {
    assert ys == ys[..j] + [ys[j]] + ys[j + 1..];
  }

  /** The run of results of the item at position `j` sits between those of the items around it. */
  lemma FlatMapAround<A, B>(ys: seq<A>, j: nat, g: A -> seq<B>)
    requires j < |ys|
    ensures FlatMap(ys, g) == FlatMap(ys[..j], g) + (g(ys[j]) + FlatMap(ys[j + 1..], g))
  {
    assert ys == ys[..j] + ys[j..];
    FlatMapAppend(ys[..j], ys[j..], g);
    assert ys[j..][1..] == ys[j + 1..];
  }

  /** Reordering the input reorders the output and changes nothing else. */
  lemma {:induction false} FlatMapPermutation<A, B>(xs: seq<A>, ys: seq<A>, g: A -> seq<B>)
    requires multiset(xs) == multiset(ys)
    ensures multiset(FlatMap(xs, g)) == multiset(FlatMap(ys, g))
    decreases |xs|
  {
    if |xs| == 0 {
      assert |ys| == |multiset(ys)| == 0;
    } else {
      var x := xs[0];
      assert x in multiset(ys);
      var j :| 0 <= j < |ys| && ys[j] == x;
      var ys' := ys[..j] + ys[j + 1..];
      MultisetRemove(ys, j);
      assert xs == [x] + xs[1..];
      assert multiset(ys') == multiset(xs[1..]);
      FlatMapPermutation(xs[1..], ys', g);
      FlatMapAround(ys, j, g);
      FlatMapAppend(ys[..j], ys[j + 1..], g);
    }
  }

  // ---------------------------------------------------------------------
  // Filtering

  /** The items whose verdict under `keep` is `want`, in input order. */
  function Select<T>(xs: seq<T>, keep: T -> bool, want: bool): seq<T>
  {
    if |xs| == 0 then []
    else (if keep(xs[0]) == want then [xs[0]] else []) + Select(xs[1..], keep, want)
  }

  /** The items a test accepts and the items it refuses. */
  function Partition<T>(xs: seq<T>, keep: T -> bool): (seq<T>, seq<T>)
  {
    (Select(xs, keep, true), Select(xs, keep, false))
  }

  /** Every selected item has the wanted verdict, and every item with it is selected. */
  lemma {:induction false} SelectSpec<T>(xs: seq<T>, keep: T -> bool, want: bool)
    ensures forall i :: 0 <= i < |Select(xs, keep, want)| ==> keep(Select(xs, keep, want)[i]) == want
    ensures forall x :: x in xs && keep(x) == want ==> x in Select(xs, keep, want)
    decreases |xs|
  {
    if |xs| > 0 {
      SelectSpec(xs[1..], keep, want);
      assert xs == [xs[0]] + xs[1..];
    }
  }

  /**
   * Selection keeps input order: selecting from two lists one after the
   * other is selecting from each and concatenating.
   */
  lemma {:induction false} SelectAppend<T>(a: seq<T>, b: seq<T>, keep: T -> bool, want: bool)
    ensures Select(a + b, keep, want) == Select(a, keep, want) + Select(b, keep, want)
    decreases |a|
  {
    if |a| == 0 {
      assert a + b == b;
    } else {
      var x := a[0];
      assert (a + b)[0] == x;
      assert (a + b)[1..] == a[1..] + b;
      SelectAppend(a[1..], b, keep, want);
      var head := if keep(x) == want then [x] else [];
      assert head + (Select(a[1..], keep, want) + Select(b, keep, want))
        == (head + Select(a[1..], keep, want)) + Select(b, keep, want);
    }
  }

  /** The two halves together hold every item exactly as often as the input does. */
  lemma PartitionCount<T>(xs: seq<T>, keep: T -> bool)
    ensures multiset(Partition(xs, keep).0) + multiset(Partition(xs, keep).1) == multiset(xs)
  {
    SelectCount(xs, keep);
  }

  lemma {:induction false} SelectCount<T>(xs: seq<T>, keep: T -> bool)
    ensures multiset(Select(xs, keep, true)) + multiset(Select(xs, keep, false)) == multiset(xs)
    decreases |xs|
  {
    if |xs| > 0 {
      var x, rest := xs[0], xs[1..];
      SelectCount(rest, keep);
      assert xs == [x] + rest;
      assert multiset(xs) == multiset{x} + multiset(rest);
      var yes, no := Select(rest, keep, true), Select(rest, keep, false);
      if keep(x) {
        assert Select(xs, keep, true) == [x] + yes && Select(xs, keep, false) == no;
        assert multiset([x] + yes) == multiset{x} + multiset(yes);
      } else {
        assert Select(xs, keep, true) == yes && Select(xs, keep, false) == [x] + no;
        assert multiset([x] + no) == multiset{x} + multiset(no);
      }
    }
  }

  // ---------------------------------------------------------------------
  // Round-robin buckets

  /** Bucket `k` of `n`: the items at positions `i` with `i % n == k`, in order. */
  function Bucket<T>(xs: seq<T>, n: nat, k: nat): seq<T>
    requires n > 0
  {
    if |xs| == 0 then []
    else Bucket(xs[..|xs| - 1], n, k) + (if (|xs| - 1) % n == k then [xs[|xs| - 1]] else [])
  }

  /**
   * `__split_buckets`: `n` buckets filled round-robin. With `n <= 0` there
   * are no buckets, and the first item fails (`i % 0` divides by zero, a
   * negative `n` indexes into the empty list of buckets).
   */
  function Buckets<T>(xs: seq<T>, n: int): (r: Option<seq<seq<T>>>)
    ensures n > 0 ==> r.Some? && |r.value| == n
    ensures n <= 0 ==> (r.Some? <==> |xs| == 0) && (r.Some? ==> r.value == [])
  {
    if n <= 0 then (if |xs| == 0 then Some([]) else None)
    else Some(seq(n, k requires 0 <= k < n => Bucket(xs, n, k)))
  }

  lemma {:induction false} MulAtLeast(a: int, n: int)
    requires a >= 1 && n > 0
    ensures a * n >= n
    decreases a
  {
    if a > 1 {
      MulAtLeast(a - 1, n);
      assert a * n == (a - 1) * n + n;
    }
  }

  lemma MulMono(a: int, b: int, n: int)
    requires n > 0 && a > b
    ensures a * n >= b * n + n
  {
    MulAtLeast(a - b, n);
    assert a * n - b * n == (a - b) * n;
  }

  /** Division with remainder has exactly one answer. */
  lemma ModUnique(x: int, n: int, q: int, r: int)
    requires n > 0 && 0 <= r < n && x == q * n + r
    ensures x % n == r && x / n == q
  {
    var q', r' := x / n, x % n;
    assert x == q' * n + r';
    if q > q' {
      MulMono(q, q', n);
    } else if q < q' {
      MulMono(q', q, n);
    }
  }

  /** The position of the `j`-th item of residue `k`: `k + j * n`, counted up in steps of `n`. */
  function Stride(k: nat, j: nat, n: nat): nat
  {
    if j == 0 then k else Stride(k, j - 1, n) + n
  }

  lemma {:induction false} StrideMul(k: nat, j: nat, n: nat)
    ensures Stride(k, j, n) == k + j * n
  {
    if j > 0 {
      StrideMul(k, j - 1, n);
      assert j * n == (j - 1) * n + n;
    }
  }

  /** The next position of residue `k` after `c` earlier ones is `k + c * n`. */
  lemma StrideStep(last: nat, n: nat, k: nat, c: nat)
    requires 0 <= k < n && Stride(k, c, n) >= last && (c > 0 ==> Stride(k, c - 1, n) < last)
    ensures last % n == k <==> Stride(k, c, n) == last
  {
    StrideMul(k, c, n);
    if c > 0 {
      StrideMul(k, c - 1, n);
    }
    if last % n == k {
      var m := last / n;
      ModUnique(last, n, m, k);
      if c < m {
        MulMono(m, c, n);
        assert false;
      }
      if c > m {
        if c - 1 > m {
          MulMono(c - 1, m, n);
        }
        assert false;
      }
    } else if Stride(k, c, n) == last {
      ModUnique(last, n, c, k);
      assert false;
    }
  }

  /** Bucket `k` reaches up to the end of the list: its next position lies past it, its last one inside. */
  lemma {:induction false} BucketReach<T>(xs: seq<T>, n: nat, k: nat)
    requires 0 <= k < n
    ensures Stride(k, |Bucket(xs, n, k)|, n) >= |xs|
    ensures |Bucket(xs, n, k)| > 0 ==> Stride(k, |Bucket(xs, n, k)| - 1, n) < |xs|
    decreases |xs|
  {
    if |xs| > 0 {
      var pre := xs[..|xs| - 1];
      BucketReach(pre, n, k);
      StrideStep(|pre|, n, k, |Bucket(pre, n, k)|);
    }
  }

  /**
   * Bucket `k` holds `xs[k]`, `xs[k + n]`, `xs[k + 2n]`, ... in that order and
   * misses no later position of its residue.
   */
  lemma {:induction false} BucketStrided<T>(xs: seq<T>, n: nat, k: nat)
    requires 0 <= k < n
    ensures forall j :: 0 <= j < |Bucket(xs, n, k)| ==>
      Stride(k, j, n) < |xs| && Bucket(xs, n, k)[j] == xs[Stride(k, j, n)]
    ensures Stride(k, |Bucket(xs, n, k)|, n) >= |xs|
    decreases |xs|
  {
    BucketReach(xs, n, k);
    if |xs| > 0 {
      var last := |xs| - 1;
      var pre := xs[..last];
      BucketStrided(pre, n, k);
      var b' := Bucket(pre, n, k);
      var b := Bucket(xs, n, k);
      assert b == b' + (if last % n == k then [xs[last]] else []);
      forall j | 0 <= j < |b'| ensures Stride(k, j, n) < |xs| && b[j] == xs[Stride(k, j, n)] {
        assert b[j] == b'[j] == pre[Stride(k, j, n)];
      }
    }
  }

  /** A single bucket is the whole list. */
  lemma SingleBucket<T>(xs: seq<T>)
    ensures Buckets(xs, 1) == Some([xs])
  {
    BucketStrided(xs, 1, 0);
    var b := Bucket(xs, 1, 0);
    forall j | 0 <= j <= |b| ensures Stride(0, j, 1) == j {
      StrideMul(0, j, 1);
    }
    assert |b| == |xs|;
    assert b == xs;
    assert Buckets(xs, 1).value[0] == b;
    assert Buckets(xs, 1).value == [xs];
  }

  lemma {:induction false} FlattenUpdate<T>(bs: seq<seq<T>>, k: nat, x: T)
    requires k < |bs|
    ensures multiset(Flatten(bs[k := bs[k] + [x]])) == multiset(Flatten(bs)) + multiset{x}
  {
    if k == 0 {
      assert bs[k := bs[k] + [x]][1..] == bs[1..];
    } else {
      FlattenUpdate(bs[1..], k - 1, x);
      assert bs[k := bs[k] + [x]][1..] == bs[1..][k - 1 := bs[k] + [x]];
    }
  }

  /** Adding an item at the end appends it to the bucket of its position's residue. */
  lemma BucketsStep<T>(pre: seq<T>, x: T, n: nat)
    requires n > 0
    ensures Buckets(pre + [x], n).value
      == Buckets(pre, n).value[|pre| % n := Buckets(pre, n).value[|pre| % n] + [x]]
  {
    var xs := pre + [x];
    assert xs[..|pre|] == pre;
    var bs' := Buckets(pre, n).value;
    forall k | 0 <= k < n
      ensures Buckets(xs, n).value[k] == bs'[|pre| % n := bs'[|pre| % n] + [x]][k]
    {
      assert Buckets(xs, n).value[k] == Bucket(xs, n, k);
      assert bs'[k] == Bucket(pre, n, k);
    }
  }

  /** Splitting into buckets loses nothing and duplicates nothing. */
  lemma {:induction false} BucketsPermutation<T>(xs: seq<T>, n: int)
    requires Buckets(xs, n).Some?
    ensures multiset(Flatten(Buckets(xs, n).value)) == multiset(xs)
    decreases |xs|
  {
    if n > 0 && |xs| > 0 {
      var pre, x := xs[..|xs| - 1], xs[|xs| - 1];
      assert xs == pre + [x];
      BucketsPermutation(pre, n);
      BucketsStep(pre, x, n);
      FlattenUpdate(Buckets(pre, n).value, |pre| % n, x);
    } else if n > 0 {
      FlattenEmpty(Buckets(xs, n).value);
    }
  }

  lemma {:induction false} FlattenEmpty<T>(bs: seq<seq<T>>)
    requires forall k :: 0 <= k < |bs| ==> bs[k] == []
    ensures Flatten(bs) == []
  {
    if |bs| > 0 {
      FlattenEmpty(bs[1..]);
    }
  }

  /**
   * The `*_parallel` runners: every bucket is processed on its own and the
   * results are concatenated bucket by bucket.
   */
  function Parallel<A, B>(xs: seq<A>, n: int, g: A -> seq<B>): Option<seq<B>>
  {
    match Buckets(xs, n)
    case None => None
    case Some(bs) => Some(Flatten(MapEach(bs, g)))
  }

  /** The parallel result is a reordering of the sequential one. */
  lemma ParallelPermutation<A, B>(xs: seq<A>, n: int, g: A -> seq<B>)
    requires Parallel(xs, n, g).Some?
    ensures multiset(Parallel(xs, n, g).value) == multiset(FlatMap(xs, g))
  {
    var bs := Buckets(xs, n).value;
    FlatMapFlatten(bs, g);
    BucketsPermutation(xs, n);
    FlatMapPermutation(Flatten(bs), xs, g);
  }

  /** With one process the parallel result is the sequential one, in the same order. */
  lemma ParallelSingle<A, B>(xs: seq<A>, g: A -> seq<B>)
    ensures Parallel(xs, 1, g) == Some(FlatMap(xs, g))
  {
    SingleBucket(xs);
    FlatMapFlatten([xs], g);
    assert Flatten([xs]) == xs by {
      assert [xs][1..] == [];
    }
  }

  /** Some item of the list is `bad`. */
  predicate AnyOf<T>(xs: seq<T>, bad: T -> bool)
  {
    exists i :: 0 <= i < |xs| && bad(xs[i])
  }

  lemma AnyOfAppend<T>(a: seq<T>, b: seq<T>, bad: T -> bool)
    ensures AnyOf(a + b, bad) <==> AnyOf(a, bad) || AnyOf(b, bad)
  {
    if AnyOf(a + b, bad) {
      var i :| 0 <= i < |a + b| && bad((a + b)[i]);
      if i >= |a| {
        assert b[i - |a|] == (a + b)[i];
      }
    }
    if AnyOf(a, bad) {
      var i :| 0 <= i < |a| && bad(a[i]);
      assert (a + b)[i] == a[i];
    }
    if AnyOf(b, bad) {
      var i :| 0 <= i < |b| && bad(b[i]);
      assert (a + b)[|a| + i] == b[i];
    }
  }

  /** Reordering a list does not change whether it holds a bad item. */
  lemma AnyOfPermutation<T>(xs: seq<T>, ys: seq<T>, bad: T -> bool)
    requires multiset(xs) == multiset(ys)
    ensures AnyOf(xs, bad) <==> AnyOf(ys, bad)
  {
    if AnyOf(xs, bad) {
      var i :| 0 <= i < |xs| && bad(xs[i]);
      assert xs[i] in multiset(ys);
    }
    if AnyOf(ys, bad) {
      var i :| 0 <= i < |ys| && bad(ys[i]);
      assert ys[i] in multiset(xs);
    }
  }

  /**
   * Collecting per-bucket results that can fail: the buckets' results are
   * read in order, and the first failing bucket fails the whole run, as
   * `future.result()` re-raises the bucket's exception.
   */
  function Gather<A, B>(bs: seq<seq<A>>, h: seq<A> -> Option<seq<B>>): Option<seq<B>>
  {
    if |bs| == 0 then Some([])
    else
      match h(bs[0])
      case None => None
      case Some(r) =>
        match Gather(bs[1..], h)
        case None => None
        case Some(rest) => Some(r + rest)
  }

  /**
   * When a bucket's runner fails exactly on a bucket holding a bad item and
   * otherwise maps each item through `g`, gathering fails exactly when some
   * bucket holds a bad item and otherwise concatenates the mapped buckets.
   */
  lemma {:induction false} GatherSpec<A, B>(bs: seq<seq<A>>, h: seq<A> -> Option<seq<B>>, bad: A -> bool, g: A -> seq<B>)
    requires forall b :: h(b) == if AnyOf(b, bad) then None else Some(FlatMap(b, g))
    ensures Gather(bs, h) == if AnyOf(Flatten(bs), bad) then None else Some(Flatten(MapEach(bs, g)))
  {
    if |bs| > 0 {
      GatherSpec(bs[1..], h, bad, g);
      AnyOfAppend(bs[0], Flatten(bs[1..]), bad);
      assert MapEach(bs, g)[1..] == MapEach(bs[1..], g);
    }
  }

  /** A `*_parallel` runner whose per-bucket function can raise. */
  function ParallelOrRaise<A, B>(xs: seq<A>, n: int, h: seq<A> -> Option<seq<B>>): Option<seq<B>>
  {
    match Buckets(xs, n)
    case None => None
    case Some(bs) => Gather(bs, h)
  }

  /**
   * Such a runner fails exactly when the split fails or some item is bad;
   * otherwise it returns what the non-raising runner does.
   */
  lemma ParallelOrRaiseSpec<A, B>(xs: seq<A>, n: int, h: seq<A> -> Option<seq<B>>, bad: A -> bool, g: A -> seq<B>)
    requires forall b :: h(b) == if AnyOf(b, bad) then None else Some(FlatMap(b, g))
    ensures ParallelOrRaise(xs, n, h) == if AnyOf(xs, bad) then None else Parallel(xs, n, g)
  {
    if Buckets(xs, n).Some? {
      var bs := Buckets(xs, n).value;
      GatherSpec(bs, h, bad, g);
      BucketsPermutation(xs, n);
      AnyOfPermutation(Flatten(bs), xs, bad);
    }
  }

  /** `__split_buckets` as the loop the source runs. */
  method SplitBuckets<T>(xs: seq<T>, n: int) returns (r: Option<seq<seq<T>>>)
    ensures r == Buckets(xs, n)
  {
    if n <= 0 {
      if |xs| == 0 {
        return Some([]);
      }
      return None;
    }
    var buckets: seq<seq<T>> := seq(n, k requires 0 <= k < n => []);
    var i := 0;
    while i < |xs|
      invariant 0 <= i <= |xs|
      invariant |buckets| == n
      invariant forall k :: 0 <= k < n ==> buckets[k] == Bucket(xs[..i], n, k)
    {
      var index := i % n;
      assert xs[..i + 1][..i] == xs[..i];
      buckets := buckets[index := buckets[index] + [xs[i]]];
      i := i + 1;
    }
    assert xs[..i] == xs;
    assert buckets == Buckets(xs, n).value;
    return Some(buckets);
  }
}
