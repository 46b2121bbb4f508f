/** Isotonic calibration: pool-adjacent-violators over a list of blocks that is spliced
    in place, and the theorem that its step fit is the isotonic regression. */
module Isotonic {
  import opened Wrappers
  import opened RealSums
  import Sorting

  /** A score and its label. */
  type Observation = (real, int)

  /** The largest score of a run of observations, the mean of its labels, its length. */
  datatype Block = Block(threshold: real, mean: real, count: nat)

  predicate ObservationLeq(a: Observation, b: Observation) {
    a.0 < b.0 || (a.0 == b.0 && a.1 <= b.1)
  }

  function SortedObservations(scores: seq<real>, labels: seq<int>): seq<Observation>
    requires |scores| == |labels|
  {
    Sorting.Sort(Sorting.Zip(scores, labels), ObservationLeq)
  }

  function Labels(data: seq<Observation>): (y: seq<real>)
    ensures |y| == |data|
  {
    seq(|data|, i requires 0 <= i < |data| => data[i].1 as real)
  }

  ghost predicate NonDecreasing(f: seq<real>) {
    forall i, j | 0 <= i < j < |f| :: f[i] <= f[j]
  }

  /** `f` has the least squared error of all non-decreasing fits to `y`. */
  ghost predicate IsIsotonicRegression(f: seq<real>, y: seq<real>) {
    && |f| == |y|
    && NonDecreasing(f)
    && forall g: seq<real> | |g| == |y| && NonDecreasing(g) :: Distance(f, y) <= Distance(g, y)
  }

  // ----- Blocks and the observations they stand for -----

  /** `b` summarises the observations `lo..hi`, and every proper prefix has a greater mean. */
  ghost predicate Summarises(b: Block, data: seq<Observation>, lo: nat, hi: nat) {
    && lo < hi <= |data|
    && b.count == hi - lo
    && b.threshold == data[hi - 1].0
    && SumTo(Labels(data), hi) - SumTo(Labels(data), lo) == Times(b.count as real, b.mean)
    && forall j | lo < j < hi ::
         SumTo(Labels(data), j) - SumTo(Labels(data), lo) > Times((j - lo) as real, b.mean)
  }

  /** The blocks cut the whole of `data` at the positions `cuts`. */
  ghost predicate Partitions(blocks: seq<Block>, cuts: seq<nat>, data: seq<Observation>) {
    && |cuts| == |blocks| + 1
    && cuts[0] == 0
    && cuts[|blocks|] == |data|
    && forall k | 0 <= k < |blocks| :: Summarises(blocks[k], data, cuts[k], cuts[k + 1])
  }

  ghost predicate MeansOrdered(blocks: seq<Block>, upTo: int) {
    forall k | 0 <= k < upTo && k + 1 < |blocks| :: blocks[k].mean <= blocks[k + 1].mean
  }

  ghost predicate Pooled(blocks: seq<Block>, cuts: seq<nat>, data: seq<Observation>) {
    Partitions(blocks, cuts, data) && MeansOrdered(blocks, |blocks|)
  }

  /** The fitted value of every observation. */
  function StepFit(blocks: seq<Block>): seq<real> {
    if blocks == [] then []
    else
      var last := blocks[|blocks| - 1];
      StepFit(blocks[..|blocks| - 1]) + seq(last.count, _ => last.mean)
  }

  function Curve(blocks: seq<Block>): (r: seq<(real, real)>)
    ensures |r| == |blocks|
  {
    seq(|blocks|, k requires 0 <= k < |blocks| => (blocks[k].threshold, blocks[k].mean))
  }

  function Merge(left: Block, right: Block): Block
    requires left.count + right.count > 0
  {
    var count := left.count + right.count;
    Block(right.threshold,
          (left.mean * left.count as real + right.mean * right.count as real) / count as real,
          count)
  }

  /** The mean of a merged violating pair lies between the two means. */
  lemma MergedMean(left: Block, right: Block)
    requires left.count > 0 && right.count > 0 && left.mean > right.mean
    ensures Merges(Merge(left, right), left, right)
  {
    var m := Merge(left, right);
    var a, b, p, q := left.mean, right.mean, left.count as real, right.count as real;
    assert m.count as real == p + q;
    assert (p + q) * m.mean == a * p + b * q;
    WeightedMean(a, b, p, q, m.mean);
  }

  /** Arithmetic of a prefix that ends inside the right-hand block: `s` is its label sum. */
  lemma PrefixOfMerged(s: real, p: real, a: real, q: real, b: real, t: real, m: real, w: real, n: real)
    requires s >= Times(p, a) + Times(t, b)
    requires Times(n, m) == Times(p, a) + Times(q, b)
    requires b < m && t < q && w == p + t && n == p + q
    ensures s > Times(w, m)
  {
    TimesStrict(q - t, b, m);
    assert w * m == n * m - (q - t) * m;
    assert t * b == q * b - (q - t) * b;
  }

  /** No prefix of a block has a smaller mean. */
  lemma PrefixMean(b: Block, data: seq<Observation>, lo: nat, hi: nat, j: nat)
    requires Summarises(b, data, lo, hi) && lo <= j <= hi
    ensures SumTo(Labels(data), j) - SumTo(Labels(data), lo) >= Times((j - lo) as real, b.mean)
  {
    if j == lo { assert (j - lo) as real == 0.0; }
  }

  ghost predicate Merges(m: Block, left: Block, right: Block) {
    && m.threshold == right.threshold
    && m.count == left.count + right.count
    && right.mean < m.mean < left.mean
    && Times(m.count as real, m.mean)
       == Times(left.count as real, left.mean) + Times(right.count as real, right.mean)
  }

  lemma PrefixIntoRight(left: Block, right: Block, m: Block, data: seq<Observation>, lo: nat, mid: nat, hi: nat, j: nat)
    requires Summarises(left, data, lo, mid) && Summarises(right, data, mid, hi)
    requires Merges(m, left, right) && mid <= j < hi
    ensures SumTo(Labels(data), j) - SumTo(Labels(data), lo) > Times((j - lo) as real, m.mean)
  {
    var y := Labels(data);
    var start, middle, end := SumTo(y, lo), SumTo(y, mid), SumTo(y, j);
    assert middle - start == Times(left.count as real, left.mean);
    PrefixMean(right, data, mid, hi, j);
    hide *;
    PrefixOfMerged(end - start, left.count as real, left.mean, right.count as real, right.mean,
                   (j - mid) as real, m.mean, (j - lo) as real, m.count as real);
  }

  /** Merging a violating pair keeps "every proper prefix has a greater mean". */
  lemma MergeSummarises(left: Block, right: Block, m: Block, data: seq<Observation>, lo: nat, mid: nat, hi: nat)
    requires Summarises(left, data, lo, mid) && Summarises(right, data, mid, hi)
    requires Merges(m, left, right)
    ensures Summarises(m, data, lo, hi)
  {
    var y := Labels(data);
    assert SumTo(y, hi) - SumTo(y, mid) == Times(right.count as real, right.mean);
    forall j | lo < j < hi
      ensures SumTo(y, j) - SumTo(y, lo) > Times((j - lo) as real, m.mean)
    {
      if j < mid {
        assert SumTo(y, j) - SumTo(y, lo) > Times((j - lo) as real, left.mean);
        assert m.mean < left.mean;
        hide *;
        TimesStrict((j - lo) as real, m.mean, left.mean);
      } else {
        PrefixIntoRight(left, right, m, data, lo, mid, hi, j);
      }
    }
  }

  function Singletons(data: seq<Observation>): (blocks: seq<Block>)
    ensures |blocks| == |data|
  {
    seq(|data|, i requires 0 <= i < |data| => Block(data[i].0, data[i].1 as real, 1))
  }

  lemma SingletonsPartition(data: seq<Observation>, cuts: seq<nat>)
    requires |cuts| == |data| + 1 && forall i | 0 <= i <= |data| :: cuts[i] == i
    ensures Partitions(Singletons(data), cuts, data)
  {
    var blocks := Singletons(data);
    forall k | 0 <= k < |blocks| ensures Summarises(blocks[k], data, cuts[k], cuts[k + 1]) {
      assert SumTo(Labels(data), k + 1) == SumTo(Labels(data), k) + data[k].1 as real;
    }
  }

  function SpliceBlocks(blocks: seq<Block>, index: nat): seq<Block>
    requires index + 1 < |blocks| && blocks[index].count > 0
  {
    blocks[..index] + [Merge(blocks[index], blocks[index + 1])] + blocks[index + 2..]
  }

  lemma SplicePartitions(blocks: seq<Block>, cuts: seq<nat>, data: seq<Observation>, index: nat)
    requires Partitions(blocks, cuts, data)
    requires index + 1 < |blocks| && blocks[index].mean > blocks[index + 1].mean
    ensures blocks[index].count > 0
    ensures Partitions(SpliceBlocks(blocks, index), cuts[..index + 1] + cuts[index + 2..], data)
  {
    assert Summarises(blocks[index], data, cuts[index], cuts[index + 1]);
    assert Summarises(blocks[index + 1], data, cuts[index + 1], cuts[index + 2]);
    MergedMean(blocks[index], blocks[index + 1]);
    var blocks', cuts' := SpliceBlocks(blocks, index), cuts[..index + 1] + cuts[index + 2..];
    forall k | 0 <= k < |blocks'|
      ensures Summarises(blocks'[k], data, cuts'[k], cuts'[k + 1])
    {
      if k < index {
        assert Summarises(blocks[k], data, cuts[k], cuts[k + 1]);
      } else if k > index {
        assert Summarises(blocks[k + 1], data, cuts[k + 1], cuts[k + 2]);
      } else {
        MergeSummarises(blocks[k], blocks[k + 1], Merge(blocks[k], blocks[k + 1]), data, cuts[k], cuts[k + 1],
            cuts[k + 2]);
      }
    }
  }

  method PoolAdjacentViolators(data: seq<Observation>) returns (blocks: seq<Block>, ghost cuts: seq<nat>)
    ensures Pooled(blocks, cuts, data)
    ensures IsIsotonicRegression(StepFit(blocks), Labels(data))
  {
    blocks := Singletons(data);
    cuts := seq(|data| + 1, i => i);
    SingletonsPartition(data, cuts);
    var index := 0;
    while index < |blocks| - 1
      invariant Partitions(blocks, cuts, data)
      invariant 0 <= index <= |blocks|
      invariant index < |blocks| || blocks == []
      invariant MeansOrdered(blocks, index)
      decreases 2 * |blocks| - index
    {
      if blocks[index].mean > blocks[index + 1].mean {
        SplicePartitions(blocks, cuts, data, index);
        var left, right := blocks[index], blocks[index + 1];
        cuts := cuts[..index + 1] + cuts[index + 2..];
        blocks := blocks[..index] + [Merge(left, right)] + blocks[index + 2..];
        index := if index - 1 > 0 then index - 1 else 0;
      } else {
        index := index + 1;
      }
    }
    PooledIsIsotonicRegression(blocks, cuts, data);
  }

  // ----- Optimality -----

  ghost predicate InBlock(cuts: seq<nat>, k: int, i: int) {
    0 <= k && k + 1 < |cuts| && cuts[k] <= i < cuts[k + 1]
  }

  lemma {:induction false} StepFitAt(blocks: seq<Block>, cuts: seq<nat>, data: seq<Observation>, n: nat)
    requires Partitions(blocks, cuts, data) && n <= |blocks|
    ensures |StepFit(blocks[..n])| == cuts[n]
    ensures forall k, i | 0 <= k < n && InBlock(cuts, k, i) ::
              i < cuts[n] && StepFit(blocks[..n])[i] == blocks[k].mean
  {
    if n > 0 {
      StepFitAt(blocks, cuts, data, n - 1);
      assert blocks[..n][..n - 1] == blocks[..n - 1];
      assert blocks[..n][n - 1] == blocks[n - 1];
      assert Summarises(blocks[n - 1], data, cuts[n - 1], cuts[n]);
      CutsOrdered(blocks, cuts, data);
    }
  }

  lemma CutsOrdered(blocks: seq<Block>, cuts: seq<nat>, data: seq<Observation>)
    requires Partitions(blocks, cuts, data)
    ensures forall k, l | 0 <= k < l <= |blocks| :: cuts[k] < cuts[l]
  {
    forall k, l | 0 <= k < l <= |blocks| ensures cuts[k] < cuts[l] {
      CutBefore(blocks, cuts, data, k, l);
    }
  }

  lemma {:induction false} CutBefore(blocks: seq<Block>, cuts: seq<nat>, data: seq<Observation>, k: nat, l: nat)
    requires Partitions(blocks, cuts, data) && k < l <= |blocks|
    ensures cuts[k] < cuts[l]
  {
    assert Summarises(blocks[l - 1], data, cuts[l - 1], cuts[l]);
    if k < l - 1 { CutBefore(blocks, cuts, data, k, l - 1); }
  }

  lemma {:induction false} BlockOf(blocks: seq<Block>, cuts: seq<nat>, data: seq<Observation>, i: nat, n: nat)
    returns (k: nat)
    requires Partitions(blocks, cuts, data) && n <= |blocks| && i < cuts[n]
    ensures k < n && InBlock(cuts, k, i)
  {
    if cuts[n - 1] <= i { k := n - 1; } else { k := BlockOf(blocks, cuts, data, i, n - 1); }
  }

  lemma {:induction false} MeanBefore(blocks: seq<Block>, k: nat, l: nat)
    requires MeansOrdered(blocks, |blocks|) && k <= l < |blocks|
    ensures blocks[k].mean <= blocks[l].mean
  {
    if k < l { MeanBefore(blocks, k, l - 1); }
  }

  lemma StepFitMonotone(blocks: seq<Block>, cuts: seq<nat>, data: seq<Observation>)
    requires Pooled(blocks, cuts, data)
    ensures |StepFit(blocks)| == |data|
    ensures NonDecreasing(StepFit(blocks))
  {
    StepFitAt(blocks, cuts, data, |blocks|);
    assert blocks[..|blocks|] == blocks;
    var f := StepFit(blocks);
    forall i, j | 0 <= i < j < |f| ensures f[i] <= f[j] {
      var k := BlockOf(blocks, cuts, data, i, |blocks|);
      var l := BlockOf(blocks, cuts, data, j, |blocks|);
      CutsOrdered(blocks, cuts, data);
      MeanBefore(blocks, k, l);
    }
  }

  /** The inner product of the residuals `y - f` with `f - g`, over a prefix. */
  ghost function CrossTo(y: seq<real>, f: seq<real>, g: seq<real>, n: nat): real
    requires n <= |y| && n <= |f| && n <= |g|
  {
    if n == 0 then 0.0
    else CrossTo(y, f, g, n - 1) + Times(y[n - 1] - f[n - 1], f[n - 1] - g[n - 1])
  }

  lemma {:induction false} SplitDistance(y: seq<real>, f: seq<real>, g: seq<real>, n: nat)
    requires n <= |y| && n <= |f| && n <= |g|
    ensures DistanceTo(g, y, n) == DistanceTo(f, y, n) + DistanceTo(g, f, n) + 2.0 * CrossTo(y, f, g, n)
  {
    if n > 0 {
      SplitDistance(y, f, g, n - 1);
      var a, b, c := y[n - 1], f[n - 1], g[n - 1];
      assert Square(c - a) == Square(b - a) + Square(c - b) + 2.0 * ((a - b) * (b - c));
    }
  }

  /** Abel summation inside one block, by partial sums of its residuals. */
  lemma {:induction false} CrossWithinBlock(b: Block, data: seq<Observation>, f: seq<real>, g: seq<real>, lo: nat,
      j: nat, hi: nat)
    requires Summarises(b, data, lo, hi) && lo < j <= hi
    requires |f| == |data| && |g| == |data| && NonDecreasing(g)
    requires forall i | lo <= i < hi :: f[i] == b.mean
    ensures var y := Labels(data);
            CrossTo(y, f, g, j) - CrossTo(y, f, g, lo)
            >= Times(SumTo(y, j) - SumTo(y, lo) - Times((j - lo) as real, b.mean), b.mean - g[j - 1])
  {
    var y, m := Labels(data), b.mean;
    assert f[j - 1] == m && j <= |y| == |f| == |g|;
    assert lo + 1 < j ==> g[j - 2] <= g[j - 1];
    PrefixMean(b, data, lo, hi, j - 1);
    hide *;
    if j > lo + 1 {
      CrossWithinBlock(b, data, f, g, lo, j - 1, hi);
      ResidualStep(y, f, g, m, lo, j);
    } else {
      ResidualBase(y, f, g, m, lo, j);
    }
  }

  lemma ResidualBase(y: seq<real>, f: seq<real>, g: seq<real>, m: real, lo: nat, j: nat)
    requires lo + 1 == j <= |y| == |f| == |g| && f[j - 1] == m
    ensures CrossTo(y, f, g, j) - CrossTo(y, f, g, lo)
            >= Times(SumTo(y, j) - SumTo(y, lo) - Times((j - lo) as real, m), m - g[j - 1])
  {
    var r, w := y[lo] - m, (j - lo) as real;
    assert CrossTo(y, f, g, j) - CrossTo(y, f, g, lo) == r * (m - g[lo]);
    assert w == 1.0 && w * m == m;
    assert SumTo(y, j) - SumTo(y, lo) - w * m == r;
  }

  lemma ResidualStep(y: seq<real>, f: seq<real>, g: seq<real>, m: real, lo: nat, j: nat)
    requires lo + 1 < j <= |y| == |f| == |g| && f[j - 1] == m && g[j - 2] <= g[j - 1]
    requires SumTo(y, j - 1) - SumTo(y, lo) >= Times((j - 1 - lo) as real, m)
    requires CrossTo(y, f, g, j - 1) - CrossTo(y, f, g, lo)
             >= Times(SumTo(y, j - 1) - SumTo(y, lo) - Times((j - 1 - lo) as real, m), m - g[j - 2])
    ensures CrossTo(y, f, g, j) - CrossTo(y, f, g, lo)
            >= Times(SumTo(y, j) - SumTo(y, lo) - Times((j - lo) as real, m), m - g[j - 1])
  {
    var r, w := y[j - 1] - m, (j - 1 - lo) as real;
    var c, d := CrossTo(y, f, g, j - 1) - CrossTo(y, f, g, lo), SumTo(y, j - 1) - SumTo(y, lo) - w * m;
    AbelStep(c, d, r, m - g[j - 2], m - g[j - 1]);
    assert (j - lo) as real == w + 1.0;
    assert (w + 1.0) * m == w * m + m;
    assert SumTo(y, j) - SumTo(y, lo) - (j - lo) as real * m == d + r;
  }

  lemma {:induction false} CrossNonNegative(blocks: seq<Block>, cuts: seq<nat>, data: seq<Observation>, f: seq<real>,
      g: seq<real>, n: nat)
    requires Partitions(blocks, cuts, data) && n <= |blocks|
    requires |g| == |data| && NonDecreasing(g)
    requires |f| == |data|
    requires forall k, i | 0 <= k < |blocks| && InBlock(cuts, k, i) && i < |f| :: f[i] == blocks[k].mean
    ensures cuts[n] <= |data|
    ensures CrossTo(Labels(data), f, g, cuts[n]) >= 0.0
  {
    if n > 0 {
      var y, lo, hi, b := Labels(data), cuts[n - 1], cuts[n], blocks[n - 1];
      assert Summarises(b, data, lo, hi);
      assert b.count == hi - lo && hi <= |data| && lo < hi;
      assert SumTo(y, hi) - SumTo(y, lo) == Times(b.count as real, b.mean);
      forall i | lo <= i < hi ensures f[i] == b.mean {
        assert InBlock(cuts, n - 1, i);
      }
      hide *;
      CrossNonNegative(blocks, cuts, data, f, g, n - 1);
      CrossWithinBlock(b, data, f, g, lo, hi, hi);
      ZeroTimes(SumTo(y, hi) - SumTo(y, lo), Times((hi - lo) as real, b.mean), b.mean - g[hi - 1]);
    }
  }

  lemma ZeroTimes(a: real, b: real, c: real)
    requires a == b
    ensures Times(a - b, c) == 0.0
  {
  }

  /** A pooled step fit beats every other non-decreasing fit, by at least their squared distance. */
  lemma PooledFitIsOptimal(blocks: seq<Block>, cuts: seq<nat>, data: seq<Observation>, g: seq<real>)
    requires Pooled(blocks, cuts, data)
    requires |g| == |data| && NonDecreasing(g)
    ensures |StepFit(blocks)| == |data|
    ensures Distance(g, Labels(data))
            >= Distance(StepFit(blocks), Labels(data)) + Distance(g, StepFit(blocks))
  {
    StepFitAt(blocks, cuts, data, |blocks|);
    assert blocks[..|blocks|] == blocks;
    CrossNonNegative(blocks, cuts, data, StepFit(blocks), g, |blocks|);
    SplitDistance(Labels(data), StepFit(blocks), g, |data|);
  }

  lemma PooledIsIsotonicRegression(blocks: seq<Block>, cuts: seq<nat>, data: seq<Observation>)
    requires Pooled(blocks, cuts, data)
    ensures IsIsotonicRegression(StepFit(blocks), Labels(data))
  {
    StepFitMonotone(blocks, cuts, data);
    forall g: seq<real> | |g| == |data| && NonDecreasing(g)
      ensures Distance(StepFit(blocks), Labels(data)) <= Distance(g, Labels(data))
    {
      PooledFitIsOptimal(blocks, cuts, data, g);
    }
  }

  /** The isotonic regression is unique, so every pooling order gives the same step fit. */
  lemma PooledFitIsUnique(blocks: seq<Block>, cuts: seq<nat>, data: seq<Observation>, g: seq<real>)
    requires Pooled(blocks, cuts, data)
    requires IsIsotonicRegression(g, Labels(data))
    ensures g == StepFit(blocks)
  {
    PooledIsIsotonicRegression(blocks, cuts, data);
    PooledFitIsOptimal(blocks, cuts, data, g);
    DistanceZero(g, StepFit(blocks), |g|);
    assert g[..|g|] == g && StepFit(blocks)[..|g|] == StepFit(blocks);
  }

  /** Two poolings of the same data have the same blocks: strictness leaves no choice of where
      to cut, even between blocks of equal mean. */
  lemma {:induction false} PooledBlocksAgree(
    blocks: seq<Block>, cuts: seq<nat>, others: seq<Block>, otherCuts: seq<nat>, data: seq<Observation>, n: nat)
    requires Pooled(blocks, cuts, data) && Pooled(others, otherCuts, data) && n <= |blocks|
    ensures n <= |others| && cuts[n] == otherCuts[n] && blocks[..n] == others[..n]
  {
    if n > 0 {
      PooledBlocksAgree(blocks, cuts, others, otherCuts, data, n - 1);
      CutsOrdered(blocks, cuts, data);
      CutsOrdered(others, otherCuts, data);
      assert cuts[n - 1] < cuts[n] <= cuts[|blocks|] == |data| == otherCuts[|others|];
      assert n - 1 < |others|;
      var lo := cuts[n - 1];
      var a, b, hi, end := blocks[n - 1], others[n - 1], cuts[n], otherCuts[n];
      assert Summarises(a, data, lo, hi) && Summarises(b, data, lo, end);
      assert a.mean == b.mean by { SameMeanAt(blocks, cuts, others, otherCuts, data, n - 1); }
      assert hi == end by { hide *; SameEnd(a, b, data, lo, hi, end); }
      assert a == b by { hide Labels; hide SumTo; hide Times; }
      assert blocks[..n] == blocks[..n - 1] + [a] && others[..n] == others[..n - 1] + [b];
    }
  }

  lemma SameMeanAt(blocks: seq<Block>, cuts: seq<nat>, others: seq<Block>, otherCuts: seq<nat>, data: seq<Observation>,
      k: nat)
    requires Pooled(blocks, cuts, data) && Pooled(others, otherCuts, data)
    requires k < |blocks| && k < |others| && cuts[k] == otherCuts[k]
    ensures blocks[k].mean == others[k].mean
  {
    PooledIsIsotonicRegression(others, otherCuts, data);
    PooledFitIsUnique(blocks, cuts, data, StepFit(others));
    FirstOfBlock(blocks, cuts, data, k);
    FirstOfBlock(others, otherCuts, data, k);
  }

  lemma FirstOfBlock(blocks: seq<Block>, cuts: seq<nat>, data: seq<Observation>, k: nat)
    requires Partitions(blocks, cuts, data) && k < |blocks|
    ensures cuts[k] < |StepFit(blocks)| && StepFit(blocks)[cuts[k]] == blocks[k].mean
  {
    StepFitAt(blocks, cuts, data, |blocks|);
    assert blocks[..|blocks|] == blocks;
    assert Summarises(blocks[k], data, cuts[k], cuts[k + 1]);
    assert InBlock(cuts, k, cuts[k]);
  }

  /** A block ends where its mean is first attained. */
  lemma SameEnd(a: Block, b: Block, data: seq<Observation>, lo: nat, hi: nat, end: nat)
    requires Summarises(a, data, lo, hi) && Summarises(b, data, lo, end) && a.mean == b.mean
    ensures hi == end
  {
    hide Labels;
    hide SumTo;
    hide Times;
  }

  /** The data determine the blocks. */
  lemma PooledBlocksAreUnique(
    blocks: seq<Block>, cuts: seq<nat>, others: seq<Block>, otherCuts: seq<nat>, data: seq<Observation>)
    requires Pooled(blocks, cuts, data) && Pooled(others, otherCuts, data)
    ensures blocks == others
  {
    PooledBlocksAgree(blocks, cuts, others, otherCuts, data, |blocks|);
    PooledBlocksAgree(others, otherCuts, blocks, cuts, data, |others|);
    assert blocks[..|blocks|] == blocks && others[..|others|] == others;
  }

  /** Pooling conserves the number of observations and the sum of their labels. */
  lemma {:induction false} PoolingConserves(blocks: seq<Block>, cuts: seq<nat>, data: seq<Observation>, n: nat)
    requires Partitions(blocks, cuts, data) && n <= |blocks|
    ensures cuts[n] <= |data|
    ensures SumTo(seq(|blocks|, k requires 0 <= k < |blocks| => Times(blocks[k].count as real, blocks[k].mean)), n)
            == SumTo(Labels(data), cuts[n])
    ensures SumTo(seq(|blocks|, k requires 0 <= k < |blocks| => blocks[k].count as real), n) == cuts[n] as real
  {
    if n > 0 {
      assert Summarises(blocks[n - 1], data, cuts[n - 1], cuts[n]);
      PoolingConserves(blocks, cuts, data, n - 1);
    }
  }

  /** Fitted values of 0/1 labels are probabilities. */
  lemma FittedProbabilities(blocks: seq<Block>, cuts: seq<nat>, data: seq<Observation>, k: nat)
    requires Partitions(blocks, cuts, data) && k < |blocks|
    requires forall o | o in data :: o.1 == 0 || o.1 == 1
    ensures 0.0 <= blocks[k].mean <= 1.0
  {
    var b := blocks[k];
    assert Summarises(b, data, cuts[k], cuts[k + 1]);
    forall i | 0 <= i < |data| ensures 0.0 <= Labels(data)[i] <= 1.0 { assert data[i] in data; }
    SumBounds(Labels(data), cuts[k], cuts[k + 1]);
    PositiveFactor(b.count as real, b.mean);
    PositiveFactor(b.count as real, 1.0 - b.mean);
    assert b.count as real * (1.0 - b.mean) == b.count as real - b.count as real * b.mean;
  }

  // ----- The public entry point -----

  /** The observations in ascending order of score, tied ones in ascending order of label. */
  ghost predicate Arranged(data: seq<Observation>, scores: seq<real>, labels: seq<int>) {
    && |scores| == |labels|
    && multiset(data) == multiset(Sorting.Zip(scores, labels))
    && forall i, j | 0 <= i < j < |data| ::
         data[i].0 < data[j].0 || (data[i].0 == data[j].0 && data[i].1 <= data[j].1)
  }

  ghost predicate AllTied(scores: seq<real>) { forall i, j | 0 <= i < j < |scores| :: scores[i] == scores[j] }

  ghost predicate Ascending(curve: seq<(real, real)>) {
    forall i, j | 0 <= i < j < |curve| :: curve[i].0 <= curve[j].0 && curve[i].1 <= curve[j].1
  }

  /** Merging never happens inside one score: the run behind a point that stands for more than one
      observation starts at a smaller score than it ends. */
  ghost predicate RunsSpanScores(curve: seq<(real, real)>, cuts: seq<nat>, data: seq<Observation>) {
    |cuts| == |curve| + 1 &&
    forall k | 0 <= k < |curve| && cuts[k] + 1 < cuts[k + 1] ::
      cuts[k + 1] <= |data| && data[cuts[k]].0 < data[cuts[k + 1] - 1].0 == curve[k].0
  }

  /** One point per observation, each with its own label. */
  ghost predicate KeepsLabels(curve: seq<(real, real)>, data: seq<Observation>) {
    |curve| == |data| && forall k | 0 <= k < |data| :: curve[k] == (data[k].0, data[k].1 as real)
  }

  method FitIsotonic(scores: seq<real>, labels: seq<int>)
    returns (r: Result<seq<(real, real)>, string>,
             ghost blocks: seq<Block>, ghost cuts: seq<nat>, ghost data: seq<Observation>)
    ensures r.Ok? <==> |scores| == |labels|
    ensures r.Ok? ==>
              && Arranged(data, scores, labels) && Pooled(blocks, cuts, data) && r.value == Curve(blocks)
              && IsIsotonicRegression(StepFit(blocks), Labels(data))
              && Ascending(r.value) && RunsSpanScores(r.value, cuts, data)
              && (AllTied(scores) ==> KeepsLabels(r.value, data))
  {
    if |scores| != |labels| {
      blocks, cuts, data := [], [], [];
      return Err("zip() arguments have different lengths"), blocks, cuts, data;
    }
    SortedIsArranged(scores, labels);
    var sorted := Sorting.Sort(Sorting.Zip(scores, labels), ObservationLeq);
    assert sorted == SortedObservations(scores, labels);
    hide *;
    data := sorted;
    var pooled;
    pooled, cuts := PoolAdjacentViolators(sorted);
    blocks := pooled;
    r := Ok(Curve(pooled));
    CurveProperties(pooled, cuts, data, scores, labels);
  }

  lemma CurveProperties(
    blocks: seq<Block>, cuts: seq<nat>, data: seq<Observation>, scores: seq<real>, labels: seq<int>)
    requires Pooled(blocks, cuts, data) && Arranged(data, scores, labels)
    ensures Ascending(Curve(blocks)) && RunsSpanScores(Curve(blocks), cuts, data)
    ensures AllTied(scores) ==> KeepsLabels(Curve(blocks), data)
  {
    hide *;
    CurveAscends(blocks, cuts, data, scores, labels);
    CurveSpansScores(blocks, cuts, data, scores, labels);
    if AllTied(scores) { TiedScoresStayApart(blocks, cuts, data, scores, labels); }
  }

  lemma CurveAscends(
    blocks: seq<Block>, cuts: seq<nat>, data: seq<Observation>, scores: seq<real>, labels: seq<int>)
    requires Pooled(blocks, cuts, data) && Arranged(data, scores, labels)
    ensures Ascending(Curve(blocks))
  {
    forall i, j | 0 <= i < j < |blocks|
      ensures blocks[i].threshold <= blocks[j].threshold && blocks[i].mean <= blocks[j].mean
    {
      MeanBefore(blocks, i, j);
      ThresholdsOrdered(blocks, cuts, data, i, j);
    }
  }

  lemma CurveSpansScores(
    blocks: seq<Block>, cuts: seq<nat>, data: seq<Observation>, scores: seq<real>, labels: seq<int>)
    requires Pooled(blocks, cuts, data) && Arranged(data, scores, labels)
    ensures RunsSpanScores(Curve(blocks), cuts, data)
  {
    forall k | 0 <= k < |blocks| && cuts[k] + 1 < cuts[k + 1]
      ensures cuts[k + 1] <= |data| && data[cuts[k]].0 < data[cuts[k + 1] - 1].0 == blocks[k].threshold
    {
      PooledRunSpansScores(blocks, cuts, data, scores, labels, k);
    }
  }

  lemma SortedIsArranged(scores: seq<real>, labels: seq<int>)
    requires |scores| == |labels|
    ensures Arranged(SortedObservations(scores, labels), scores, labels)
  {
    var data := SortedObservations(scores, labels);
    Sorting.SortSorts(Sorting.Zip(scores, labels), ObservationLeq);
    forall i, j | 0 <= i < j < |data|
      ensures data[i].0 < data[j].0 || (data[i].0 == data[j].0 && data[i].1 <= data[j].1)
    {
      assert ObservationLeq(data[i], data[j]);
    }
  }

  /** A block of more than one observation starts at a smaller score than it ends: inside one
      score the labels ascend, and a block never starts with its smallest label. */
  lemma PooledRunSpansScores(
    blocks: seq<Block>, cuts: seq<nat>, data: seq<Observation>, scores: seq<real>, labels: seq<int>, k: nat)
    requires Pooled(blocks, cuts, data) && Arranged(data, scores, labels)
    requires k < |blocks| && cuts[k] + 1 < cuts[k + 1]
    ensures cuts[k + 1] <= |data| && data[cuts[k]].0 < data[cuts[k + 1] - 1].0 == blocks[k].threshold
  {
    var lo, hi, y := cuts[k], cuts[k + 1], Labels(data);
    assert Summarises(blocks[k], data, lo, hi);
    if data[lo].0 == data[hi - 1].0 {
      forall i | lo <= i < hi ensures y[lo] <= y[i] {
        assert data[lo].0 <= data[i].0 <= data[hi - 1].0;
      }
      SumAtLeast(y, lo, hi, y[lo]);
      assert SumTo(y, lo + 1) - SumTo(y, lo) == y[lo];
      FirstAboveMean(y[lo], blocks[k].mean, (hi - lo) as real);
    }
  }

  lemma FirstAboveMean(first: real, mean: real, n: real)
    requires n > 0.0 && Times(n, mean) >= Times(n, first)
    ensures !(first > Times(1.0, mean))
  {
    if first > mean { TimesStrict(n, mean, first); }
  }

  /** When all scores are tied nothing is pooled: the curve lists the labels, in ascending order. */
  lemma TiedScoresStayApart(
    blocks: seq<Block>, cuts: seq<nat>, data: seq<Observation>, scores: seq<real>, labels: seq<int>)
    requires Pooled(blocks, cuts, data) && Arranged(data, scores, labels) && AllTied(scores)
    ensures |blocks| == |data| == |scores| && KeepsLabels(Curve(blocks), data)
  {
    var zip := Sorting.Zip(scores, labels);
    Sorting.SameElements(zip, data);
    forall k, l | 0 <= k < |data| && 0 <= l < |data| ensures data[k].0 == data[l].0 {
      assert data[k] in zip && data[l] in zip;
    }
    CutsOrdered(blocks, cuts, data);
    forall k | 0 <= k < |blocks| ensures cuts[k + 1] == cuts[k] + 1 {
      if cuts[k] + 1 < cuts[k + 1] { PooledRunSpansScores(blocks, cuts, data, scores, labels, k); }
    }
    UnitCuts(blocks, cuts, |blocks|);
    forall k | 0 <= k < |data| ensures blocks[k].threshold == data[k].0 && blocks[k].mean == data[k].1 as real {
      UnitCuts(blocks, cuts, k);
      assert cuts[k] == k && cuts[k + 1] == k + 1;
      assert Summarises(blocks[k], data, cuts[k], cuts[k + 1]);
      assert SumTo(Labels(data), k + 1) - SumTo(Labels(data), k) == data[k].1 as real;
    }
  }

  lemma ThresholdsOrdered(blocks: seq<Block>, cuts: seq<nat>, data: seq<Observation>, i: nat, j: nat)
    requires Partitions(blocks, cuts, data) && i < j < |blocks|
    requires forall a, b | 0 <= a < b < |data| :: data[a].0 <= data[b].0
    ensures cuts[i + 1] - 1 < cuts[j + 1] - 1 < |data|
    ensures blocks[i].threshold == data[cuts[i + 1] - 1].0 <= data[cuts[j + 1] - 1].0 == blocks[j].threshold
  {
    CutsOrdered(blocks, cuts, data);
    assert Summarises(blocks[i], data, cuts[i], cuts[i + 1]);
    assert Summarises(blocks[j], data, cuts[j], cuts[j + 1]);
  }

  // ----- Tied scores -----

  ghost predicate DistinctScores(scores: seq<real>) {
    forall i, j | 0 <= i < j < |scores| :: scores[i] != scores[j]
  }

  ghost predicate ThresholdsStrict(blocks: seq<Block>) {
    forall i, j | 0 <= i < j < |blocks| :: blocks[i].threshold < blocks[j].threshold
  }

  ghost predicate LabelsAscending(data: seq<Observation>) {
    forall i, j | 0 <= i < j < |data| :: data[i].1 <= data[j].1
  }

  lemma SortedElement(scores: seq<real>, labels: seq<int>, a: nat) returns (i: nat)
    requires |scores| == |labels| && a < |SortedObservations(scores, labels)|
    ensures i < |scores| && SortedObservations(scores, labels)[a] == (scores[i], labels[i])
  {
    var zip, data := Sorting.Zip(scores, labels), SortedObservations(scores, labels);
    Sorting.SameElements(zip, data);
    assert data[a] in data;
    i :| 0 <= i < |zip| && zip[i] == data[a];
  }

  lemma DistinctScoresSortStrictly(scores: seq<real>, labels: seq<int>)
    requires |scores| == |labels| && DistinctScores(scores)
    ensures var data := SortedObservations(scores, labels);
            forall a, b | 0 <= a < b < |data| :: data[a].0 < data[b].0
  {
    var zip, data := Sorting.Zip(scores, labels), SortedObservations(scores, labels);
    assert forall i, j | 0 <= i < j < |zip| :: zip[i].0 == scores[i] != scores[j] == zip[j].0;
    Sorting.PermutationNoDuplicates(zip, data);
    Sorting.SortSorts(zip, ObservationLeq);
    forall a, b | 0 <= a < b < |data| ensures data[a].0 < data[b].0 {
      var p := SortedElement(scores, labels, a);
      var q := SortedElement(scores, labels, b);
      assert data[a] != data[b] && ObservationLeq(data[a], data[b]);
    }
  }

  lemma DistinctScoresGiveStrictThresholds(scores: seq<real>, labels: seq<int>, blocks: seq<Block>, cuts: seq<nat>)
    requires |scores| == |labels| && DistinctScores(scores)
    requires Pooled(blocks, cuts, SortedObservations(scores, labels))
    ensures ThresholdsStrict(blocks)
  {
    var data := SortedObservations(scores, labels);
    DistinctScoresSortStrictly(scores, labels);
    forall i, j | 0 <= i < j < |blocks| ensures blocks[i].threshold < blocks[j].threshold {
      Sorting.SortSorts(Sorting.Zip(scores, labels), ObservationLeq);
      ThresholdsOrdered(blocks, cuts, data, i, j);
    }
  }

  /** Ascending labels are never pooled. */
  lemma AscendingLabelsStayApart(data: seq<Observation>, blocks: seq<Block>, cuts: seq<nat>)
    requires LabelsAscending(data) && Pooled(blocks, cuts, data)
    ensures |blocks| == |data|
    ensures forall k | 0 <= k < |data| :: blocks[k].threshold == data[k].0
  {
    var y := Labels(data);
    assert NonDecreasing(y);
    forall g: seq<real> | |g| == |y| && NonDecreasing(g) ensures Distance(y, y) <= Distance(g, y) {
      DistanceToSelf(y, |y|);
    }
    PooledFitIsUnique(blocks, cuts, data, y);
    CutsOrdered(blocks, cuts, data);
    forall k | 0 <= k < |blocks| ensures cuts[k + 1] == cuts[k] + 1 {
      FirstOfBlock(blocks, cuts, data, k);
      assert Summarises(blocks[k], data, cuts[k], cuts[k + 1]);
      assert SumTo(y, cuts[k] + 1) - SumTo(y, cuts[k]) == y[cuts[k]] == Times(1.0, blocks[k].mean);
    }
    UnitCuts(blocks, cuts, |blocks|);
    forall k | 0 <= k < |data| ensures blocks[k].threshold == data[k].0 {
      UnitCuts(blocks, cuts, k);
      assert Summarises(blocks[k], data, cuts[k], cuts[k + 1]);
    }
  }

  lemma {:induction false} DistanceToSelf(y: seq<real>, n: nat)
    requires n <= |y|
    ensures DistanceTo(y, y, n) == 0.0
  {
    if n > 0 { DistanceToSelf(y, n - 1); }
  }

  lemma {:induction false} UnitCuts(blocks: seq<Block>, cuts: seq<nat>, n: nat)
    requires |cuts| == |blocks| + 1 && cuts[0] == 0 && n <= |blocks|
    requires forall k | 0 <= k < |blocks| :: cuts[k + 1] == cuts[k] + 1
    ensures cuts[n] == n
  {
    if n > 0 { UnitCuts(blocks, cuts, n - 1); }
  }

  function ZeroLabels(scores: seq<real>): seq<int> { seq(|scores|, _ => 0) }

  /** The thresholds are strictly increasing for every labelling exactly when no score is
      repeated: with a tie, every pooling of all-zero labels repeats a threshold. */
  lemma StrictThresholdsIffDistinctScores(scores: seq<real>)
    ensures DistinctScores(scores) ==>
              forall labels: seq<int>, blocks: seq<Block>, cuts |
                |labels| == |scores| && Pooled(blocks, cuts, SortedObservations(scores, labels)) ::
                ThresholdsStrict(blocks)
    ensures !DistinctScores(scores) ==>
              forall blocks: seq<Block>, cuts | Pooled(blocks, cuts, SortedObservations(scores, ZeroLabels(scores))) ::
                !ThresholdsStrict(blocks)
  {
    if DistinctScores(scores) {
      forall labels: seq<int>, blocks: seq<Block>, cuts |
        |labels| == |scores| && Pooled(blocks, cuts, SortedObservations(scores, labels))
        ensures ThresholdsStrict(blocks)
      {
        DistinctScoresGiveStrictThresholds(scores, labels, blocks, cuts);
      }
    } else {
      TieRepeatsThreshold(scores);
    }
  }

  lemma TieRepeatsThreshold(scores: seq<real>)
    requires !DistinctScores(scores)
    ensures forall blocks: seq<Block>, cuts | Pooled(blocks, cuts, SortedObservations(scores, ZeroLabels(scores))) ::
              !ThresholdsStrict(blocks)
  {
    var labels := ZeroLabels(scores);
    var zip, data := Sorting.Zip(scores, labels), SortedObservations(scores, labels);
    var i, j :| 0 <= i < j < |scores| && scores[i] == scores[j];
    assert zip[i] == zip[j];
    Sorting.SameElements(zip, data);
    if Sorting.NoDuplicates(data) { Sorting.PermutationNoDuplicates(data, zip); }
    var a, b :| 0 <= a < b < |data| && data[a] == data[b];
    forall k | 0 <= k < |data| ensures data[k].1 == 0 { assert data[k] in zip; }
    forall blocks: seq<Block>, cuts | Pooled(blocks, cuts, data) ensures !ThresholdsStrict(blocks) {
      AscendingLabelsStayApart(data, blocks, cuts);
      assert blocks[a].threshold == blocks[b].threshold;
    }
  }
}
