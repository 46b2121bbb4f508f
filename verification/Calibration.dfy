/** Calibration metrics: the binned calibration error against the Brier score, the
    selective-risk curve, and the conformal error bound. */
module Calibration {
  import opened Wrappers
  import opened RealSums
  import Sorting

  /** A predicted probability and the observed label. */
  type Pair = (real, int)

  datatype CalibrationError = LengthMismatch | NoObservations | InvalidInput

  datatype Metrics = Metrics(
    count: nat,
    brierScore: real,
    expectedCalibrationError: real,
    selectiveRisk: seq<(real, real)>,
    reliability: seq<(real, real, nat)>)

  /** What is added up over observations. */
  datatype Quantity = Probability | Label | Unit | Gap | SquaredGap {
    function Of(x: Pair): real {
      match this
      case Probability => x.0
      case Label => x.1 as real
      case Unit => 1.0
      case Gap => Abs(x.0 - x.1 as real)
      case SquaredGap => Square(x.0 - x.1 as real)
    }
  }

  function Weight(pairs: seq<Pair>, w: Quantity): real {
    if pairs == [] then 0.0 else w.Of(pairs[0]) + Weight(pairs[1..], w)
  }

  function Mean(pairs: seq<Pair>, w: Quantity): real
    requires pairs != []
  {
    Weight(pairs, w) / |pairs| as real
  }

  predicate InBin(p: real, index: int, bins: int)
    requires bins > 0
  {
    || index as real / bins as real <= p < (index + 1) as real / bins as real
    || (index == bins - 1 && p == 1.0)
  }

  function Bucket(pairs: seq<Pair>, index: int, bins: int): seq<Pair>
    requires bins > 0
  {
    if pairs == [] then []
    else (if InBin(pairs[0].0, index, bins) then [pairs[0]] else []) + Bucket(pairs[1..], index, bins)
  }

  predicate PairGeq(a: Pair, b: Pair) {
    a.0 > b.0 || (a.0 == b.0 && a.1 >= b.1)
  }

  predicate Probabilities(pairs: seq<Pair>) {
    forall x | x in pairs :: 0.0 <= x.0 <= 1.0
  }

  predicate AnyOutOfRange(probabilities: seq<real>) {
    exists p | p in probabilities :: !(0.0 <= p <= 1.0)
  }

  predicate BinaryLabels(pairs: seq<Pair>) {
    forall x | x in pairs :: x.1 == 0 || x.1 == 1
  }

  function RiskCurve(ranked: seq<Pair>): seq<(real, real)> {
    seq(|ranked|, k requires 0 <= k < |ranked| =>
      ((k + 1) as real / |ranked| as real, 1.0 - Mean(ranked[..k + 1], Label)))
  }

  // ----- Bins partition the unit interval -----

  function BinOf(p: real, bins: int): int
    requires bins > 0
  {
    if p == 1.0 then bins - 1 else (p * bins as real).Floor
  }

  lemma InBinIffBinOf(p: real, index: int, bins: int)
    requires bins > 0 && 0.0 <= p <= 1.0 && 0 <= index < bins
    ensures InBin(p, index, bins) <==> BinOf(p, bins) == index
    ensures 0 <= BinOf(p, bins) < bins
  {
    var b := bins as real;
    DivCompare(index as real, p, b);
    DivCompare((index + 1) as real, p, b);
    if p < 1.0 {
      ScaledBelow(p, b);
      assert InBin(p, index, bins) <==> index as real <= p * b < (index + 1) as real;
    }
  }

  lemma ScaledBelow(p: real, b: real)
    requires 0.0 <= p < 1.0 && b > 0.0
    ensures 0.0 <= p * b < b
  {
    var x, y := p * b, (1.0 - p) * b;
    assert x >= 0.0 && y > 0.0 && x + y == b;
  }

  /** The weight of the pairs that fall in the bins before `k`. */
  ghost function WeightBelow(pairs: seq<Pair>, bins: int, k: int, w: Quantity): real
    requires bins > 0
  {
    if pairs == [] then 0.0
    else (if BinOf(pairs[0].0, bins) < k then w.Of(pairs[0]) else 0.0) + WeightBelow(pairs[1..], bins, k, w)
  }

  /** Each observation falls in one bin, so weights add up bin by bin. */
  lemma {:induction false} NextBin(pairs: seq<Pair>, bins: int, k: int, w: Quantity)
    requires bins > 0 && 0 <= k < bins && Probabilities(pairs)
    ensures WeightBelow(pairs, bins, k + 1, w)
            == WeightBelow(pairs, bins, k, w) + Weight(Bucket(pairs, k, bins), w)
  {
    if pairs != [] {
      assert pairs[0] in pairs;
      assert Probabilities(pairs[1..]);
      NextBin(pairs[1..], bins, k, w);
      InBinIffBinOf(pairs[0].0, k, bins);
      var bucket := Bucket(pairs, k, bins);
      if InBin(pairs[0].0, k, bins) {
        assert bucket[0] == pairs[0] && bucket[1..] == Bucket(pairs[1..], k, bins);
      } else {
        assert bucket == Bucket(pairs[1..], k, bins);
      }
    }
  }

  lemma {:induction false} AllBins(pairs: seq<Pair>, bins: int, w: Quantity)
    requires bins > 0 && Probabilities(pairs)
    ensures WeightBelow(pairs, bins, 0, w) == 0.0
    ensures WeightBelow(pairs, bins, bins, w) == Weight(pairs, w)
  {
    if pairs != [] {
      assert pairs[0] in pairs;
      assert Probabilities(pairs[1..]);
      AllBins(pairs[1..], bins, w);
      InBinIffBinOf(pairs[0].0, 0, bins);
    }
  }

  lemma {:induction false} WeightOfUnit(pairs: seq<Pair>)
    ensures Weight(pairs, Unit) == |pairs| as real
  {
    if pairs != [] { WeightOfUnit(pairs[1..]); }
  }

  // ----- Inequalities -----

  /** Within a bucket, the gap of the sums is at most the sum of the gaps. */
  lemma {:induction false} BucketTriangle(pairs: seq<Pair>)
    ensures Abs(Weight(pairs, Probability) - Weight(pairs, Label)) <= Weight(pairs, Gap)
  {
    if pairs != [] { BucketTriangle(pairs[1..]); }
  }

  lemma CauchyStep(a: real, q: real, x: real, n: real)
    requires n >= 1.0 && a * a <= n * q
    ensures (a + x) * (a + x) <= (n + 1.0) * (q + x * x)
  {
    var d := a - n * x;
    SquareNonNegative(d);
    assert Square(d) == a * a - 2.0 * (n * (a * x)) + n * (n * (x * x));
    var slack := q + n * (x * x) - 2.0 * (a * x);
    assert n * slack == n * q + n * (n * (x * x)) - 2.0 * (n * (a * x));
    PositiveFactor(n, slack);
    assert (n + 1.0) * (q + x * x) - (a + x) * (a + x) == n * q - a * a + slack;
  }

  /** Cauchy-Schwarz: the squared sum of gaps is at most n times the sum of squared gaps. */
  lemma {:induction false} CauchySchwarz(pairs: seq<Pair>)
    ensures Weight(pairs, Gap) >= 0.0
    ensures Weight(pairs, Gap) * Weight(pairs, Gap) <= |pairs| as real * Weight(pairs, SquaredGap)
  {
    if pairs != [] {
      var rest, d := pairs[1..], pairs[0].0 - pairs[0].1 as real;
      CauchySchwarz(rest);
      assert Square(d) == Abs(d) * Abs(d);
      if rest != [] {
        CauchyStep(Weight(rest, Gap), Weight(rest, SquaredGap), Abs(d), |rest| as real);
      }
    }
  }

  lemma {:induction false} BrierAtMostOne(pairs: seq<Pair>)
    requires Probabilities(pairs) && BinaryLabels(pairs)
    ensures 0.0 <= Weight(pairs, SquaredGap) <= |pairs| as real
  {
    if pairs != [] {
      assert pairs[0] in pairs;
      assert Probabilities(pairs[1..]) && BinaryLabels(pairs[1..]);
      BrierAtMostOne(pairs[1..]);
      UnitSquare(pairs[0].0 - pairs[0].1 as real);
    }
  }

  /** From n * e <= a and a^2 <= n * q to e^2 <= q / n. */
  lemma SquareOfMean(e: real, a: real, q: real, n: real)
    requires n > 0.0 && e >= 0.0 && n * e <= a && a * a <= n * q
    ensures e * e <= q / n
  {
    var ne := n * e;
    MulMonotone(0.0, e, n);
    MulMonotone(ne, a, ne);
    MulMonotone(ne, a, a);
    var m := q / n;
    assert n * m == q;
    assert ne * ne == n * (n * (e * e));
    assert n * (n * m - n * (e * e)) >= 0.0;
    PositiveFactor(n, n * m - n * (e * e));
    assert n * (m - e * e) == n * m - n * (e * e);
    PositiveFactor(n, m - e * e);
  }

  // ----- Sorting conserves weights -----

  lemma {:induction false} WeightOfInsert(x: Pair, s: seq<Pair>, leq: (Pair, Pair) -> bool, w: Quantity)
    ensures Weight(Sorting.Insert(x, s, leq), w) == w.Of(x) + Weight(s, w)
  {
    if s == [] || leq(x, s[0]) {
      assert ([x] + s)[1..] == s;
    } else {
      WeightOfInsert(x, s[1..], leq, w);
      assert Sorting.Insert(x, s, leq)[1..] == Sorting.Insert(x, s[1..], leq);
    }
  }

  lemma {:induction false} WeightOfSort(s: seq<Pair>, leq: (Pair, Pair) -> bool, w: Quantity)
    ensures Weight(Sorting.Sort(s, leq), w) == Weight(s, w)
  {
    if s != [] {
      WeightOfSort(s[1..], leq, w);
      WeightOfInsert(s[0], Sorting.Sort(s[1..], leq), leq, w);
    }
  }

  // ----- Evaluation -----

  ghost function TotalCount(reliability: seq<(real, real, nat)>): nat {
    if reliability == [] then 0
    else TotalCount(reliability[..|reliability| - 1]) + reliability[|reliability| - 1].2
  }

  /** One row for each of the first `n` bins that is not empty: the mean probability, the
      accuracy and the size of its bucket. */
  function Rows(pairs: seq<Pair>, bins: int, n: nat): seq<(real, real, nat)>
    requires bins > 0
  {
    if n == 0 then []
    else
      var bucket := Bucket(pairs, n - 1, bins);
      Rows(pairs, bins, n - 1)
      + (if bucket != [] then [(Mean(bucket, Probability), Mean(bucket, Label), |bucket|)] else [])
  }

  /** A row's gap between confidence and accuracy, weighted by its share of n observations. */
  function WeightedRow(row: (real, real, nat), n: real): real
    requires n > 0.0
  {
    row.2 as real / n * Abs(row.0 - row.1)
  }

  function WeightedGaps(rows: seq<(real, real, nat)>, n: real): real
    requires n > 0.0
  {
    if rows == [] then 0.0
    else
      WeightedGaps(rows[..|rows| - 1], n) + WeightedRow(rows[|rows| - 1], n)
  }

  lemma ZipProbabilities(probabilities: seq<real>, labels: seq<int>)
    requires |probabilities| == |labels|
    requires !AnyOutOfRange(probabilities)
    ensures Probabilities(Sorting.Zip(probabilities, labels))
  {
    var pairs := Sorting.Zip(probabilities, labels);
    forall x | x in pairs ensures 0.0 <= x.0 <= 1.0 {
      var i :| 0 <= i < |pairs| && pairs[i] == x;
      assert probabilities[i] in probabilities;
    }
  }

  /** The loop over bins: every observation is counted once, and the accumulated error is
      at most the mean absolute gap. */
  method Reliability(pairs: seq<Pair>, bins: int) returns (reliability: seq<(real, real, nat)>, ece: real)
    requires pairs != [] && bins > 0 && Probabilities(pairs)
    ensures reliability == Rows(pairs, bins, bins)
    ensures ece == WeightedGaps(reliability, |pairs| as real)
    ensures TotalCount(reliability) == |pairs|
    ensures 0.0 <= ece
    ensures Times(|pairs| as real, ece) <= Weight(pairs, Gap)
  {
    hide Mean;
    hide Bucket;
    hide WeightBelow;
    hide WeightedGaps;
    hide WeightedRow;
    hide Abs;
    hide Times;
    hide Rows;
    assert WeightedGaps([], |pairs| as real) == 0.0 by { NoRows(|pairs| as real); }
    ScaleSum(|pairs| as real, 0.0, 0.0);
    RowsStep(pairs, bins, 0);
    var n := |pairs| as real;
    reliability, ece := [], 0.0;
    AllBins(pairs, bins, Gap);
    AllBins(pairs, bins, Unit);
    for index := 0 to bins
      invariant reliability == Rows(pairs, bins, index) && ece == WeightedGaps(reliability, n)
      invariant TotalCount(reliability) as real == WeightBelow(pairs, bins, index, Unit)
      invariant ece >= 0.0
      invariant Times(n, ece) <= WeightBelow(pairs, bins, index, Gap)
    {
      var bucket := Bucket(pairs, index, bins);
      NextBin(pairs, bins, index, Gap);
      NextBin(pairs, bins, index, Unit);
      WeightOfUnit(bucket);
      RowsStep(pairs, bins, index);
      if bucket != [] {
        var avgP, avgY := Mean(bucket, Probability), Mean(bucket, Label);
        var row := (avgP, avgY, |bucket|);
        RowAppended(reliability, row, n);
        reliability := reliability + [row];
        BucketTerm(bucket, n);
        ScaleSum(n, ece, WeightedRow(row, n));
        ece := ece + WeightedRow(row, n);
      }
    }
    WeightOfUnit(pairs);
  }

  lemma RowsStep(pairs: seq<Pair>, bins: int, k: nat)
    requires bins > 0
    ensures Rows(pairs, bins, 0) == []
    ensures var bucket := Bucket(pairs, k, bins);
            Rows(pairs, bins, k + 1) == Rows(pairs, bins, k)
              + (if bucket != [] then [(Mean(bucket, Probability), Mean(bucket, Label), |bucket|)] else [])
  {
  }

  lemma NoRows(n: real)
    requires n > 0.0
    ensures WeightedGaps([], n) == 0.0
  {
  }

  lemma ScaleSum(n: real, a: real, b: real)
    ensures Times(n, a + b) == Times(n, a) + Times(n, b)
    ensures Times(n, 0.0) == 0.0
  {
  }

  lemma RowAppended(reliability: seq<(real, real, nat)>, row: (real, real, nat), n: real)
    requires n > 0.0
    ensures TotalCount(reliability + [row]) == TotalCount(reliability) + row.2
    ensures WeightedGaps(reliability + [row], n) == WeightedGaps(reliability, n) + WeightedRow(row, n)
  {
    assert (reliability + [row])[..|reliability|] == reliability;
  }

  /** One bucket's contribution to the calibration error. */
  lemma BucketTerm(bucket: seq<Pair>, n: real)
    requires bucket != [] && n > 0.0
    ensures var term := WeightedRow((Mean(bucket, Probability), Mean(bucket, Label), |bucket|), n);
            term >= 0.0 && Times(n, term) <= Weight(bucket, Gap)
  {
    BucketTriangle(bucket);
    hide Weight;
    hide Abs;
    WeightedGap(Weight(bucket, Probability), Weight(bucket, Label), |bucket| as real, n);
  }

  lemma CalibrationBounds(pairs: seq<Pair>, ece: real)
    requires pairs != [] && Probabilities(pairs)
    requires 0.0 <= ece && Times(|pairs| as real, ece) <= Weight(pairs, Gap)
    ensures Square(ece) <= Mean(pairs, SquaredGap)
    ensures BinaryLabels(pairs) ==> Mean(pairs, SquaredGap) <= 1.0
  {
    hide Weight;
    hide BinaryLabels;
    CauchySchwarz(pairs);
    SquareOfMean(ece, Weight(pairs, Gap), Weight(pairs, SquaredGap), |pairs| as real);
    if BinaryLabels(pairs) {
      hide Times;
      BrierAtMostOne(pairs);
      Fraction(Weight(pairs, SquaredGap), |pairs| as real);
    }
  }

  // ----- What the metrics mean, observation by observation -----

  ghost function SquaredErrors(pairs: seq<Pair>): seq<real> {
    seq(|pairs|, i requires 0 <= i < |pairs| => Times(pairs[i].0 - pairs[i].1 as real, pairs[i].0 - pairs[i].1 as real))
  }

  /** How many observations fall in a bin, and the sums of their probabilities and labels. */
  ghost function CountIn(pairs: seq<Pair>, index: int, bins: int): nat
    requires bins > 0
  {
    if pairs == [] then 0 else (if InBin(pairs[0].0, index, bins) then 1 else 0) + CountIn(pairs[1..], index, bins)
  }

  ghost function ProbabilitiesIn(pairs: seq<Pair>, index: int, bins: int): real
    requires bins > 0
  {
    if pairs == [] then 0.0
    else (if InBin(pairs[0].0, index, bins) then pairs[0].0 else 0.0) + ProbabilitiesIn(pairs[1..], index, bins)
  }

  ghost function LabelsIn(pairs: seq<Pair>, index: int, bins: int): int
    requires bins > 0
  {
    if pairs == [] then 0
    else (if InBin(pairs[0].0, index, bins) then pairs[0].1 else 0) + LabelsIn(pairs[1..], index, bins)
  }

  /** The row averages the observations of one bin. */
  ghost predicate RowOf(row: (real, real, nat), pairs: seq<Pair>, index: int, bins: int) {
    && bins > 0 && row.2 == CountIn(pairs, index, bins) > 0
    && Times(row.2 as real, row.0) == ProbabilitiesIn(pairs, index, bins)
    && Times(row.2 as real, row.1) == LabelsIn(pairs, index, bins) as real
  }

  /** The rows describe, in order, exactly the bins below `limit` that hold observations. */
  ghost predicate RowsOf(rows: seq<(real, real, nat)>, at: seq<int>, pairs: seq<Pair>, bins: int, limit: nat) {
    && bins > 0 && |at| == |rows|
    && (forall j, k | 0 <= j < k < |at| :: at[j] < at[k])
    && (forall k | 0 <= k < |at| :: 0 <= at[k] < limit && RowOf(rows[k], pairs, at[k], bins))
    && (forall index | 0 <= index < limit && CountIn(pairs, index, bins) > 0 :: index in at)
  }

  /** The distances between confidence and accuracy, each counted for every observation. */
  ghost function GapTotal(rows: seq<(real, real, nat)>): real {
    if rows == [] then 0.0
    else
      var last := rows[|rows| - 1];
      GapTotal(rows[..|rows| - 1])
      + Times(last.2 as real, if last.0 >= last.1 then last.0 - last.1 else last.1 - last.0)
  }

  /** By descending probability, tied ones by descending label. */
  ghost predicate Ranked(ranked: seq<Pair>, pairs: seq<Pair>) {
    && multiset(ranked) == multiset(pairs)
    && forall i, j | 0 <= i < j < |ranked| ::
         ranked[i].0 > ranked[j].0 || (ranked[i].0 == ranked[j].0 && ranked[i].1 >= ranked[j].1)
  }

  /** The labels of the first `n` pairs, summed: with 0/1 labels, the number of positive ones. */
  ghost function LabelSum(pairs: seq<Pair>, n: nat): int
    requires n <= |pairs|
  {
    if n == 0 then 0 else LabelSum(pairs, n - 1) + pairs[n - 1].1
  }

  /** Point k of the curve keeps the first k + 1 pairs: its coverage is their share, and its risk
      the share of them that is not positive. */
  ghost predicate RiskPoints(curve: seq<(real, real)>, ranked: seq<Pair>) {
    |curve| == |ranked| &&
    forall k | 0 <= k < |curve| ::
      && Times(|ranked| as real, curve[k].0) == (k + 1) as real
      && Times((k + 1) as real, 1.0 - curve[k].1) == LabelSum(ranked, k + 1) as real
  }

  lemma {:induction false} BrierIsMeanSquare(pairs: seq<Pair>, n: nat)
    requires n <= |pairs|
    ensures Weight(pairs[..n], SquaredGap) == SumTo(SquaredErrors(pairs), n)
  {
    if n > 0 {
      BrierIsMeanSquare(pairs, n - 1);
      WeightAppend(pairs[..n - 1], pairs[n - 1], SquaredGap);
      assert pairs[..n] == pairs[..n - 1] + [pairs[n - 1]];
    }
  }

  lemma {:induction false} WeightAppend(pairs: seq<Pair>, x: Pair, w: Quantity)
    ensures Weight(pairs + [x], w) == Weight(pairs, w) + w.Of(x)
  {
    if pairs == [] {
      assert [x][1..] == [];
    } else {
      WeightAppend(pairs[1..], x, w);
      assert (pairs + [x])[1..] == pairs[1..] + [x];
    }
  }

  lemma {:induction false} LabelWeight(pairs: seq<Pair>, n: nat)
    requires n <= |pairs|
    ensures Weight(pairs[..n], Label) == LabelSum(pairs, n) as real
  {
    if n > 0 {
      LabelWeight(pairs, n - 1);
      WeightAppend(pairs[..n - 1], pairs[n - 1], Label);
      assert pairs[..n] == pairs[..n - 1] + [pairs[n - 1]];
    }
  }

  lemma {:induction false} BucketSums(pairs: seq<Pair>, index: int, bins: int)
    requires bins > 0
    ensures |Bucket(pairs, index, bins)| == CountIn(pairs, index, bins)
    ensures Weight(Bucket(pairs, index, bins), Probability) == ProbabilitiesIn(pairs, index, bins)
    ensures Weight(Bucket(pairs, index, bins), Label) == LabelsIn(pairs, index, bins) as real
  {
    if pairs != [] {
      BucketSums(pairs[1..], index, bins);
      var rest := Bucket(pairs[1..], index, bins);
      if InBin(pairs[0].0, index, bins) {
        assert ([pairs[0]] + rest)[1..] == rest;
      } else {
        assert Bucket(pairs, index, bins) == rest;
      }
      hide InBin;
    }
  }

  lemma MeanTimesCount(bucket: seq<Pair>, w: Quantity)
    requires bucket != []
    ensures Times(|bucket| as real, Mean(bucket, w)) == Weight(bucket, w)
  {
    DivCompare(Weight(bucket, w), 0.0, |bucket| as real);
  }

  lemma RowOfBucket(pairs: seq<Pair>, index: int, bins: int)
    requires bins > 0
    ensures var bucket := Bucket(pairs, index, bins);
            if bucket == [] then CountIn(pairs, index, bins) == 0
            else RowOf((Mean(bucket, Probability), Mean(bucket, Label), |bucket|), pairs, index, bins)
  {
    var bucket := Bucket(pairs, index, bins);
    BucketSums(pairs, index, bins);
    if bucket != [] {
      MeanTimesCount(bucket, Probability);
      MeanTimesCount(bucket, Label);
    }
    hide Bucket;
    hide Mean;
    hide Weight;
    hide Times;
  }

  lemma RowAdded(rows: seq<(real, real, nat)>, row: (real, real, nat), at: seq<int>, pairs: seq<Pair>, bins: int,
      n: nat)
    requires RowsOf(rows, at, pairs, bins, n) && RowOf(row, pairs, n, bins)
    ensures RowsOf(rows + [row], at + [n], pairs, bins, n + 1)
  {
    hide RowOf;
    var grown := at + [n];
    assert grown[|at|] == n;
    forall index | 0 <= index < n + 1 && CountIn(pairs, index, bins) > 0 ensures index in grown {
      if index < n { assert index in at; }
    }
  }

  lemma BinSkipped(rows: seq<(real, real, nat)>, at: seq<int>, pairs: seq<Pair>, bins: int, n: nat)
    requires RowsOf(rows, at, pairs, bins, n) && CountIn(pairs, n, bins) == 0
    ensures RowsOf(rows, at, pairs, bins, n + 1)
  {
    hide RowOf;
  }

  lemma NextRows(pairs: seq<Pair>, bins: int, n: nat, at: seq<int>)
    requires bins > 0 && RowsOf(Rows(pairs, bins, n), at, pairs, bins, n)
    ensures RowsOf(Rows(pairs, bins, n + 1), if Bucket(pairs, n, bins) == [] then at else at + [n], pairs, bins, n + 1)
  {
    var rows, next, bucket := Rows(pairs, bins, n), Rows(pairs, bins, n + 1), Bucket(pairs, n, bins);
    RowsStep(pairs, bins, n);
    RowOfBucket(pairs, n, bins);
    if bucket == [] {
      assert next == rows;
      hide *;
      BinSkipped(rows, at, pairs, bins, n);
    } else {
      var row := (Mean(bucket, Probability), Mean(bucket, Label), |bucket|);
      assert next == rows + [row];
      hide *;
      RowAdded(rows, row, at, pairs, bins, n);
    }
  }

  lemma {:induction false} RowsDescribeBins(pairs: seq<Pair>, bins: int, n: nat) returns (at: seq<int>)
    requires bins > 0
    ensures RowsOf(Rows(pairs, bins, n), at, pairs, bins, n)
  {
    if n == 0 {
      at := [];
    } else {
      hide *;
      at := RowsDescribeBins(pairs, bins, n - 1);
      NextRows(pairs, bins, n - 1, at);
      at := if Bucket(pairs, n - 1, bins) == [] then at else at + [n - 1];
    }
  }

  lemma {:induction false} GapsTotal(rows: seq<(real, real, nat)>, n: real)
    requires n > 0.0
    ensures Times(n, WeightedGaps(rows, n)) == GapTotal(rows)
  {
    if rows == [] {
      ScaleSum(n, 0.0, 0.0);
    } else {
      var front, last := rows[..|rows| - 1], rows[|rows| - 1];
      GapsTotal(front, n);
      WeightedRowTotal(last, n);
      ScaleSum(n, WeightedGaps(front, n), WeightedRow(last, n));
      hide Times;
      hide WeightedRow;
    }
  }

  lemma WeightedRowTotal(row: (real, real, nat), n: real)
    requires n > 0.0
    ensures Times(n, WeightedRow(row, n))
            == Times(row.2 as real, if row.0 >= row.1 then row.0 - row.1 else row.1 - row.0)
  {
    var c, gap := row.2 as real, Abs(row.0 - row.1);
    DivCompare(c, 0.0, n);
    var share := c / n;
    assert n * (share * gap) == (share * n) * gap;
  }

  lemma CurvePoint(ranked: seq<Pair>, k: nat)
    requires k < |ranked|
    ensures var point := RiskCurve(ranked)[k];
            && Times(|ranked| as real, point.0) == (k + 1) as real
            && Times((k + 1) as real, 1.0 - point.1) == LabelSum(ranked, k + 1) as real
  {
    var point, top := RiskCurve(ranked)[k], ranked[..k + 1];
    assert point == ((k + 1) as real / |ranked| as real, 1.0 - Mean(top, Label));
    hide RiskCurve;
    hide Mean;
    hide Weight;
    hide LabelSum;
    CoverageTimes((k + 1) as real, |ranked| as real);
    MeanTimesCount(top, Label);
    LabelWeight(ranked, k + 1);
    hide Times;
    assert 1.0 - point.1 == Mean(top, Label);
  }

  lemma CoverageTimes(x: real, n: real)
    requires n > 0.0
    ensures Times(n, x / n) == x
  {
    DivCompare(x, 0.0, n);
  }

  lemma CurvePoints(ranked: seq<Pair>)
    ensures RiskPoints(RiskCurve(ranked), ranked)
  {
    hide LabelSum;
    hide Times;
    forall k | 0 <= k < |ranked|
      ensures Times(|ranked| as real, RiskCurve(ranked)[k].0) == (k + 1) as real
      ensures Times((k + 1) as real, 1.0 - RiskCurve(ranked)[k].1) == LabelSum(ranked, k + 1) as real
    {
      CurvePoint(ranked, k);
    }
  }

  lemma SortIsRanked(pairs: seq<Pair>)
    ensures Ranked(Sorting.Sort(pairs, PairGeq), pairs)
  {
    var ranked := Sorting.Sort(pairs, PairGeq);
    Sorting.SortSorts(pairs, PairGeq);
    forall i, j | 0 <= i < j < |ranked|
      ensures ranked[i].0 > ranked[j].0 || (ranked[i].0 == ranked[j].0 && ranked[i].1 >= ranked[j].1)
    {
      assert PairGeq(ranked[i], ranked[j]);
    }
  }

  lemma BrierTimesCount(pairs: seq<Pair>)
    requires pairs != []
    ensures Times(|pairs| as real, Mean(pairs, SquaredGap)) == SumTo(SquaredErrors(pairs), |pairs|)
  {
    MeanTimesCount(pairs, SquaredGap);
    BrierIsMeanSquare(pairs, |pairs|);
    assert pairs[..|pairs|] == pairs;
  }

  method EvaluateCalibration(probabilities: seq<real>, labels: seq<int>, bins: int)
    returns (r: Result<Metrics, CalibrationError>, ghost at: seq<int>, ghost ranked: seq<Pair>)
    ensures r.Err? <==>
              || |probabilities| != |labels|
              || labels == []
              || bins <= 0
              || AnyOutOfRange(probabilities)
    // Each metric in terms of the observations.
    ensures r.Ok? ==>
              var pairs, m := Sorting.Zip(probabilities, labels), r.value;
              && m.count == |pairs| > 0
              && Times(m.count as real, m.brierScore) == SumTo(SquaredErrors(pairs), |pairs|)
              && RowsOf(m.reliability, at, pairs, bins, bins)
              && TotalCount(m.reliability) == m.count
              && Times(m.count as real, m.expectedCalibrationError) == GapTotal(m.reliability)
              && Ranked(ranked, pairs) && RiskPoints(m.selectiveRisk, ranked)
    // What the metrics promise together.
    ensures r.Ok? ==>
              && r.value.expectedCalibrationError >= 0.0
              && Square(r.value.expectedCalibrationError) <= r.value.brierScore
              && (BinaryLabels(Sorting.Zip(probabilities, labels)) ==> r.value.brierScore <= 1.0)
  {
    at, ranked := [], [];
    if |probabilities| != |labels| { return Err(LengthMismatch), at, ranked; }
    if labels == [] { return Err(NoObservations), at, ranked; }
    var pairs := Sorting.Zip(probabilities, labels);
    if bins <= 0 || AnyOutOfRange(probabilities) { return Err(InvalidInput), at, ranked; }
    ZipProbabilities(probabilities, labels);
    hide *;
    var brier := Mean(pairs, SquaredGap);
    var reliability, ece := Reliability(pairs, bins);
    CalibrationBounds(pairs, ece);
    BrierTimesCount(pairs);
    at := RowsDescribeBins(pairs, bins, bins);
    GapsTotal(reliability, |pairs| as real);
    var sorted := Sorting.Sort(pairs, PairGeq);
    SortIsRanked(pairs);
    CurvePoints(sorted);
    ranked := sorted;
    r := Ok(Metrics(|pairs|, brier, ece, RiskCurve(sorted), reliability));
  }

  // ----- The selective-risk curve -----

  /** At full coverage the curve ends in the overall error rate. */
  lemma RiskCurveEnd(curve: seq<(real, real)>, ranked: seq<Pair>, pairs: seq<Pair>)
    requires pairs != [] && Ranked(ranked, pairs) && RiskPoints(curve, ranked)
    ensures |curve| == |pairs| && curve[|pairs| - 1].0 == 1.0
    ensures Times(|pairs| as real, 1.0 - curve[|pairs| - 1].1) == LabelSum(pairs, |pairs|) as real
  {
    var n := |pairs| as real;
    Sorting.SameElements(ranked, pairs);
    SameLabelSum(ranked, pairs);
    var x := curve[|pairs| - 1].0;
    assert Times(n, x) == n;
    if x < 1.0 { TimesStrict(n, x, 1.0); } else if x > 1.0 { TimesStrict(n, 1.0, x); }
  }

  lemma {:induction false} SameLabelSum(a: seq<Pair>, b: seq<Pair>)
    requires multiset(a) == multiset(b)
    ensures |a| == |b| && LabelSum(a, |a|) == LabelSum(b, |b|)
    decreases |a|
  {
    Sorting.SameElements(a, b);
    if a != [] {
      var x, front := a[|a| - 1], a[..|a| - 1];
      assert x in b by { assert x in a; }
      var i :| 0 <= i < |b| && b[i] == x;
      assert LabelSum(a, |a|) == LabelSum(a, |a| - 1) + x.1;
      hide *;
      SameWithout(a, b, i);
      SameLabelSum(front, b[..i] + b[i + 1..]);
      LabelSumWithout(b, i, |b|);
      LabelSumPrefix(a, front, |front|);
    }
  }

  lemma SameWithout(a: seq<Pair>, b: seq<Pair>, i: nat)
    requires multiset(a) == multiset(b) && a != [] && i < |b| && b[i] == a[|a| - 1]
    ensures multiset(a[..|a| - 1]) == multiset(b[..i] + b[i + 1..])
  {
    var front, left, right, x := a[..|a| - 1], b[..i], b[i + 1..], b[i];
    assert multiset(a) == multiset(front) + multiset{x} by { assert a == front + [x]; }
    assert multiset(b) == multiset(left) + multiset{x} + multiset(right) by { SplitAt(b, i); }
    assert multiset(left + right) == multiset(left) + multiset(right);
    CancelOne(multiset(front), multiset(left), multiset(right), x);
  }

  lemma SplitAt(b: seq<Pair>, i: nat)
    requires i < |b|
    ensures multiset(b) == multiset(b[..i]) + multiset{b[i]} + multiset(b[i + 1..])
  {
    assert b == b[..i] + [b[i]] + b[i + 1..];
  }

  lemma CancelOne(f: multiset<Pair>, l: multiset<Pair>, r: multiset<Pair>, x: Pair)
    requires f + multiset{x} == l + multiset{x} + r
    ensures f == l + r
  {
    forall y ensures f[y] == (l + r)[y] {
      assert (f + multiset{x})[y] == (l + multiset{x} + r)[y];
    }
  }

  lemma {:induction false} LabelSumPrefix(a: seq<Pair>, b: seq<Pair>, n: nat)
    requires n <= |a| && n <= |b| && forall i | 0 <= i < n :: a[i] == b[i]
    ensures LabelSum(a, n) == LabelSum(b, n)
  {
    if n > 0 { LabelSumPrefix(a, b, n - 1); }
  }

  lemma {:induction false} LabelSumWithout(b: seq<Pair>, i: nat, n: nat)
    requires i < n <= |b|
    ensures LabelSum(b, n) == LabelSum(b[..i] + b[i + 1..], n - 1) + b[i].1
  {
    var rest := b[..i] + b[i + 1..];
    if n == i + 1 {
      LabelSumPrefix(b, rest, i);
    } else {
      LabelSumWithout(b, i, n - 1);
      assert rest[n - 2] == b[n - 1];
    }
  }

  /** Each point of the curve keeps the most confident observations, and with 0/1 labels its risk
      is a probability. */
  lemma RiskAtCoverage(curve: seq<(real, real)>, ranked: seq<Pair>, pairs: seq<Pair>, k: nat)
    requires Ranked(ranked, pairs) && RiskPoints(curve, ranked) && k < |curve|
    ensures forall i, j | 0 <= i <= k < j < |ranked| :: ranked[i].0 >= ranked[j].0
    ensures BinaryLabels(pairs) ==> 0.0 <= curve[k].1 <= 1.0
  {
    if BinaryLabels(pairs) {
      Sorting.SameElements(ranked, pairs);
      LabelSumBounds(ranked, k + 1);
      var m, x := (k + 1) as real, 1.0 - curve[k].1;
      assert 0.0 <= Times(m, x) <= m;
      if x < 0.0 { TimesStrict(m, x, 0.0); } else if x > 1.0 { TimesStrict(m, 1.0, x); }
    }
  }

  lemma {:induction false} LabelSumBounds(pairs: seq<Pair>, n: nat)
    requires n <= |pairs| && BinaryLabels(pairs)
    ensures 0 <= LabelSum(pairs, n) <= n
  {
    if n > 0 {
      assert pairs[n - 1] in pairs;
      LabelSumBounds(pairs, n - 1);
    }
  }

  // ----- Conformal error bound -----

  predicate RealLeq(a: real, b: real) { a <= b }

  function Ceiling(x: real): int { -((-x).Floor) }

  function ConformalRank(n: nat, alpha: real): int {
    var rank := Ceiling((n + 1) as real * (1.0 - alpha)) - 1;
    if n - 1 < rank then n - 1 else rank
  }

  function ConformalErrorBound(errors: seq<real>, alpha: real): (r: Result<real, CalibrationError>)
    ensures r.Ok? <==> errors != [] && 0.0 < alpha < 1.0
  {
    if errors == [] || !(0.0 < alpha < 1.0) then Err(InvalidInput)
    else
      var values := Sorting.Sort(errors, RealLeq);
      Sorting.SameElements(errors, values);
      assert 0 <= ConformalRank(|errors|, alpha) < |values| by { RankInRange(|errors|, alpha); }
      Ok(values[ConformalRank(|errors|, alpha)])
  }

  lemma RankInRange(n: nat, alpha: real)
    requires n > 0 && 0.0 < alpha < 1.0
    ensures 0 <= ConformalRank(n, alpha) < n
  {
    PositiveProduct((n + 1) as real, 1.0 - alpha);
    CeilingPositive((n + 1) as real * (1.0 - alpha));
  }

  lemma PositiveProduct(a: real, b: real)
    requires a > 0.0 && b > 0.0
    ensures a * b > 0.0
  {
  }

  lemma CeilingPositive(x: real)
    requires x > 0.0
    ensures Ceiling(x) >= 1
  {
  }

  /** How many errors a bound covers. */
  function Covered(errors: seq<real>, bound: real): nat {
    if errors == [] then 0 else (if errors[0] <= bound then 1 else 0) + Covered(errors[1..], bound)
  }

  lemma {:induction false} CoveredByInsert(x: real, s: seq<real>, bound: real)
    ensures Covered(Sorting.Insert(x, s, RealLeq), bound) == Covered([x], bound) + Covered(s, bound)
  {
    if s == [] || RealLeq(x, s[0]) {
      assert ([x] + s)[1..] == s;
    } else {
      CoveredByInsert(x, s[1..], bound);
      assert Sorting.Insert(x, s, RealLeq)[1..] == Sorting.Insert(x, s[1..], RealLeq);
    }
  }

  lemma {:induction false} CoveredBySort(s: seq<real>, bound: real)
    ensures Covered(Sorting.Sort(s, RealLeq), bound) == Covered(s, bound)
  {
    if s != [] {
      CoveredBySort(s[1..], bound);
      CoveredByInsert(s[0], Sorting.Sort(s[1..], RealLeq), bound);
    }
  }

  lemma {:induction false} CoveredOfSorted(s: seq<real>, bound: real, rank: nat)
    requires Sorting.SortedBy(s, RealLeq) && rank < |s|
    ensures Covered(s, bound) >= rank + 1 <==> s[rank] <= bound
  {
    assert RealLeq(s[0], s[rank]) || rank == 0;
    if rank == 0 {
      if !(s[0] <= bound) { NoneCovered(s, bound); }
    } else if s[0] <= bound {
      CoveredOfSorted(s[1..], bound, rank - 1);
    } else {
      NoneCovered(s, bound);
    }
  }

  lemma {:induction false} NoneCovered(s: seq<real>, bound: real)
    requires Sorting.SortedBy(s, RealLeq) && s != [] && s[0] > bound
    ensures Covered(s, bound) == 0
  {
    if |s| > 1 {
      assert RealLeq(s[0], s[1]);
      NoneCovered(s[1..], bound);
    }
  }

  /** Enough of n errors for a tolerance alpha: all of them, or a share 1 - alpha of n + 1. */
  ghost predicate Enough(count: nat, n: nat, alpha: real) {
    count == n || count as real >= (n + 1) as real * (1.0 - alpha)
  }

  lemma RankIsEnough(count: nat, n: nat, alpha: real)
    requires n > 0 && 0.0 < alpha < 1.0 && count <= n
    ensures count >= ConformalRank(n, alpha) + 1 <==> Enough(count, n, alpha)
  {
    var x := (n + 1) as real * (1.0 - alpha);
    assert count >= Ceiling(x) <==> count as real >= x;
  }

  lemma {:induction false} CoveredAtMost(errors: seq<real>, bound: real)
    ensures Covered(errors, bound) <= |errors|
  {
    if errors != [] { CoveredAtMost(errors[1..], bound); }
  }

  /** The returned bound is the least one that covers enough of the errors. */
  lemma ConformalBoundIsLeast(errors: seq<real>, alpha: real, bound: real)
    requires errors != [] && 0.0 < alpha < 1.0
    ensures ConformalErrorBound(errors, alpha).value <= bound <==> Enough(Covered(errors, bound), |errors|, alpha)
  {
    var n := |errors|;
    var values, rank := Sorting.Sort(errors, RealLeq), ConformalRank(n, alpha);
    Sorting.SameElements(errors, values);
    RankInRange(n, alpha);
    Sorting.SortSorts(errors, RealLeq);
    CoveredBySort(errors, bound);
    CoveredOfSorted(values, bound, rank);
    CoveredAtMost(errors, bound);
    RankIsEnough(Covered(errors, bound), n, alpha);
    hide Enough;
    hide ConformalRank;
    hide Covered;
  }

  /** It covers at least a `1 - alpha` fraction of the errors. */
  lemma ConformalBoundCovers(errors: seq<real>, alpha: real)
    requires errors != [] && 0.0 < alpha < 1.0
    ensures Covered(errors, ConformalErrorBound(errors, alpha).value) as real
            >= |errors| as real * (1.0 - alpha)
  {
    hide *;
    var bound := ConformalErrorBound(errors, alpha).value;
    ConformalBoundIsLeast(errors, alpha, bound);
    EnoughCovers(Covered(errors, bound), |errors|, alpha);
  }

  lemma EnoughCovers(count: nat, n: nat, alpha: real)
    requires n > 0 && 0.0 < alpha < 1.0 && Enough(count, n, alpha)
    ensures count as real >= n as real * (1.0 - alpha)
  {
    var m := n as real;
    assert (n + 1) as real == m + 1.0;
    assert (m + 1.0) * (1.0 - alpha) == m * (1.0 - alpha) + (1.0 - alpha);
    assert m * (1.0 - alpha) == m - m * alpha;
    PositiveProduct(m, alpha);
  }
}
