/**
 * ClassificationMetrics: per-category confusion counts of a multi-label classifier
 * at one score threshold, and the precision, recall, F1 and accuracy derived from them.
 *
 * Doubles are modelled as exact reals.
 */
module Metrics {

  /** Column indices of the stats table; column 2 is never written. */
  const TP_INDEX := 0
  const FP_INDEX := 1
  const FN_INDEX := 3

  predicate IsColumn(col: int) { col == TP_INDEX || col == FP_INDEX || col == FN_INDEX }

  /** One evaluated item: its true categories and the classifier's score per category. */
  datatype Example = Example(trueCategories: set<string>, scores: map<string, real>)

  /** The categories scored at or above the threshold. */
  function Predictions(scores: map<string, real>, threshold: real): set<string>
  {
    set c | c in scores && scores[c] >= threshold
  }

  /** Whether an item falls in a column of a category's confusion counts. */
  predicate Outcome(e: Example, category: string, threshold: real, col: int)
  {
    var predicted := category in Predictions(e.scores, threshold);
    var truth := category in e.trueCategories;
    if col == TP_INDEX then truth && predicted
    else if col == FN_INDEX then truth && !predicted
    else if col == FP_INDEX then !truth && predicted
    else false
  }

  /** How many items fall in a column for a category. */
  function Count(items: seq<Example>, category: string, threshold: real, col: int): nat
  {
    if items == [] then 0
    else Count(items[..|items| - 1], category, threshold, col)
         + (if Outcome(items[|items| - 1], category, threshold, col) then 1 else 0)
  }

  /** Every item falls in at most one of the three columns, and a true category is either a
    * true positive or a false negative. */
  lemma OutcomesPartition(e: Example, category: string, threshold: real)
    ensures !(Outcome(e, category, threshold, TP_INDEX) && Outcome(e, category, threshold, FN_INDEX))
    ensures !(Outcome(e, category, threshold, TP_INDEX) && Outcome(e, category, threshold, FP_INDEX))
    ensures !(Outcome(e, category, threshold, FP_INDEX) && Outcome(e, category, threshold, FN_INDEX))
    ensures category in e.trueCategories <==>
      Outcome(e, category, threshold, TP_INDEX) || Outcome(e, category, threshold, FN_INDEX)
    ensures (category in e.scores && e.scores[category] >= threshold) <==>
      Outcome(e, category, threshold, TP_INDEX) || Outcome(e, category, threshold, FP_INDEX)
  {
  }

  /** `getItemAccuracy`: |true ∩ predicted| / |true ∪ predicted|, or 0 for an empty union. */
  function ItemAccuracy(trueLabels: set<string>, predicted: set<string>): real
  {
    var union := trueLabels + predicted;
    if |union| == 0 then 0.0 else (|trueLabels * predicted| as real) / (|union| as real)
  }

  lemma SubsetCard<T>(a: set<T>, b: set<T>)
    requires a <= b
    ensures |a| <= |b|
    ensures |a| == |b| ==> a == b
  {
    assert b == a + (b - a);
    assert a * (b - a) == {};
    assert |b| == |a| + |b - a|;
    if |a| == |b| {
      assert b - a == {};
    }
  }

  /** Item accuracy lies in [0, 1] and is 1 exactly for a non-empty, exact prediction. */
  lemma ItemAccuracyRange(trueLabels: set<string>, predicted: set<string>)
    ensures 0.0 <= ItemAccuracy(trueLabels, predicted) <= 1.0
    ensures ItemAccuracy(trueLabels, predicted) == 1.0 <==> trueLabels == predicted && trueLabels != {}
  {
    var inter, union := trueLabels * predicted, trueLabels + predicted;
    SubsetCard(inter, union);
    if |union| > 0 {
      RatioAtMostOne(|inter| as real, |union| as real);
    }
    if |union| > 0 && |inter| == |union| {
      assert trueLabels == predicted;
    }
    if trueLabels == predicted && trueLabels != {} {
      assert inter == union;
    }
    if |union| == 0 {
      assert trueLabels == {};
    }
  }

  /** `getP` on counts: tp / (tp + fp), or 0 when nothing was predicted. */
  function Precision(tp: nat, fp: nat): real
  {
    if tp + fp > 0 then (tp as real) / ((tp + fp) as real) else 0.0
  }

  /** `getR` on counts: tp / (tp + fn), or 0 when nothing was true. */
  function Recall(tp: nat, fn: nat): real
  {
    if tp + fn > 0 then (tp as real) / ((tp + fn) as real) else 0.0
  }

  /** `getF1` on a precision and a recall: their harmonic mean, or 0 when both are 0. */
  function F1(p: real, r: real): real
  {
    if p + r > 0.0 then 2.0 * (p * r / (p + r)) else 0.0
  }

  lemma RatioAtMostOne(a: real, b: real)
    requires 0.0 <= a <= b && b > 0.0
    ensures 0.0 <= a / b <= 1.0
  {
  }

  /** Precision and recall lie in [0, 1], are 0 without a denominator, and are 1 exactly when
    * there is no error of their kind and at least one true positive. */
  lemma RatesInRange(tp: nat, other: nat)
    ensures 0.0 <= Precision(tp, other) <= 1.0 && Precision(tp, other) == Recall(tp, other)
    ensures tp + other == 0 ==> Precision(tp, other) == 0.0
    ensures Precision(tp, other) == 1.0 <==> tp > 0 && other == 0
  {
    if tp + other > 0 {
      RatioAtMostOne(tp as real, (tp + other) as real);
      if other > 0 {
        assert (tp as real) < ((tp + other) as real);
      }
    }
  }

  lemma HalfBound(x: real, y: real)
    requires y > 0.0 && 2.0 * x <= y
    ensures x / y <= 0.5
  {
    var q := x / y;
    assert q * y == x;
  }

  lemma ProductBounds(p: real, r: real)
    requires 0.0 <= p <= 1.0 && 0.0 <= r <= 1.0
    ensures 0.0 <= p * r && p * r <= p && p * r <= r
  {
    assert p * r <= p * 1.0;
    assert p * r <= 1.0 * r;
  }

  lemma DivNonneg(x: real, y: real)
    requires 0.0 <= x && y > 0.0
    ensures 0.0 <= x / y
  {
  }

  lemma F1Bounds(p: real, r: real)
    requires 0.0 <= p <= 1.0 && 0.0 <= r <= 1.0
    ensures 0.0 <= F1(p, r) <= 1.0
  {
    if p + r > 0.0 {
      ProductBounds(p, r);
      var pr := p * r;
      var sum := p + r;
      assert pr <= p && pr <= r;
      assert pr + pr <= sum;
      HalfBound(pr, sum);
      DivNonneg(pr, sum);
      assert F1(p, r) == 2.0 * (pr / sum);
    }
  }

  /** F1 of two rates lies in [0, 1], is 0 when either rate is 0 and 1 when both are 1. */
  lemma F1InRange(p: real, r: real)
    requires 0.0 <= p <= 1.0 && 0.0 <= r <= 1.0
    ensures 0.0 <= F1(p, r) <= 1.0
    ensures p == 0.0 || r == 0.0 ==> F1(p, r) == 0.0
    ensures p == 1.0 && r == 1.0 ==> F1(p, r) == 1.0
  {
    F1Bounds(p, r);
    if p == 0.0 || r == 0.0 {
      var pr := p * r;
      assert pr == 0.0;
    }
  }

  function Sum(xs: seq<real>): real
  {
    if xs == [] then 0.0 else Sum(xs[..|xs| - 1]) + xs[|xs| - 1]
  }

  lemma SumStep(xs: seq<real>, i: int)
    requires 0 <= i < |xs|
    ensures Sum(xs[..i + 1]) == Sum(xs[..i]) + xs[i]
  {
    assert xs[..i + 1][..i] == xs[..i];
  }

  /** The average the macro getters and getAvgAccuracy compute: 0 for no values. */
  function Mean(xs: seq<real>): real
  {
    if |xs| > 0 then Sum(xs) / (|xs| as real) else 0.0
  }

  lemma {:induction false} SumBounds(xs: seq<real>)
    requires forall k :: 0 <= k < |xs| ==> 0.0 <= xs[k] <= 1.0
    ensures 0.0 <= Sum(xs) <= |xs| as real
  {
    if xs != [] {
      SumBounds(xs[..|xs| - 1]);
    }
  }

  /** An average of values in [0, 1] lies in [0, 1]. */
  lemma MeanInRange(xs: seq<real>)
    requires forall k :: 0 <= k < |xs| ==> 0.0 <= xs[k] <= 1.0
    ensures 0.0 <= Mean(xs) <= 1.0
  {
    SumBounds(xs);
    if |xs| > 0 {
      RatioAtMostOne(Sum(xs), |xs| as real);
    }
  }

  /** A column summed over a list of categories. */
  function SumCounts(items: seq<Example>, categories: seq<string>, threshold: real, col: int): nat
  {
    if categories == [] then 0
    else SumCounts(items, categories[..|categories| - 1], threshold, col)
         + Count(items, categories[|categories| - 1], threshold, col)
  }

  /** How many of the listed categories put one item in a column. */
  function ItemHits(e: Example, categories: seq<string>, threshold: real, col: int): nat
  {
    if categories == [] then 0
    else ItemHits(e, categories[..|categories| - 1], threshold, col)
         + (if Outcome(e, categories[|categories| - 1], threshold, col) then 1 else 0)
  }

  /** The (item, category) pairs in a column, counted item by item. */
  function PairCount(items: seq<Example>, categories: seq<string>, threshold: real, col: int): nat
  {
    if items == [] then 0
    else PairCount(items[..|items| - 1], categories, threshold, col)
         + ItemHits(items[|items| - 1], categories, threshold, col)
  }

  lemma {:induction false} PairCountAddItem(items: seq<Example>, cs: seq<string>, threshold: real, col: int)
    requires cs != []
    ensures PairCount(items, cs, threshold, col)
      == PairCount(items, cs[..|cs| - 1], threshold, col) + Count(items, cs[|cs| - 1], threshold, col)
  {
    if items != [] {
      PairCountAddItem(items[..|items| - 1], cs, threshold, col);
    }
  }

  /** The micro totals count every (item, category) pair once: summing the per-category
    * counts equals counting, item by item, the categories the item falls in. */
  lemma {:induction false} MicroTotalIsPairCount(items: seq<Example>, categories: seq<string>, threshold: real, col: int)
    ensures SumCounts(items, categories, threshold, col) == PairCount(items, categories, threshold, col)
  {
    if categories == [] {
      EmptyPairCount(items, threshold, col);
    } else {
      MicroTotalIsPairCount(items, categories[..|categories| - 1], threshold, col);
      PairCountAddItem(items, categories, threshold, col);
    }
  }

  lemma {:induction false} EmptyPairCount(items: seq<Example>, threshold: real, col: int)
    ensures PairCount(items, [], threshold, col) == 0
  {
    if items != [] {
      EmptyPairCount(items[..|items| - 1], threshold, col);
    }
  }

  /** First index of x in s, or -1 (List.indexOf). */
  function IndexOf(s: seq<string>, x: string): (r: int)
    ensures r == -1 <==> x !in s
    ensures 0 <= r ==> r < |s| && s[r] == x && x !in s[..r]
  {
    if s == [] then -1
    else if s[0] == x then 0
    else
      var r := IndexOf(s[1..], x);
      assert s[1..][..if r < 0 then 0 else r] == s[1..if r < 0 then 1 else r + 1];
      if r < 0 then -1 else r + 1
  }

  /** The accuracy list of the constructor: one item accuracy per item, in item order. */
  predicate Accuracies(items: seq<Example>, threshold: real, acc: seq<real>)
  {
    |acc| == |items|
    && forall k :: 0 <= k < |items| ==>
         acc[k] == ItemAccuracy(items[k].trueCategories, Predictions(items[k].scores, threshold))
  }

  lemma AccuracyMeanInRange(items: seq<Example>, threshold: real, acc: seq<real>)
    requires Accuracies(items, threshold, acc)
    ensures 0.0 <= Mean(acc) <= 1.0
  {
    forall k | 0 <= k < |acc|
      ensures 0.0 <= acc[k] <= 1.0
    {
      ItemAccuracyRange(items[k].trueCategories, Predictions(items[k].scores, threshold));
    }
    MeanInRange(acc);
  }

  /** The per-category loop of the constructor for item n: one increment in the column the
    * item falls in, for every category. */
  method Tally(table: array2<int>, categories: seq<string>, threshold: real, examples: seq<Example>, n: nat)
    requires n < |examples|
    requires table.Length0 == |categories| && table.Length1 == 4
    requires forall i, col :: 0 <= i < |categories| && IsColumn(col) ==>
      table[i, col] == Count(examples[..n], categories[i], threshold, col)
    modifies table
    ensures forall i, col :: 0 <= i < |categories| && IsColumn(col) ==>
      table[i, col] == Count(examples[..n + 1], categories[i], threshold, col)
  {
    var e := examples[n];
    assert examples[..n + 1][..n] == examples[..n];
    assert examples[..n + 1][n] == e;
    var predictions := Predictions(e.scores, threshold);
    var i := 0;
    while i < |categories|
      invariant 0 <= i <= |categories|
      invariant forall i', col :: 0 <= i' < i && IsColumn(col) ==>
        table[i', col] == Count(examples[..n + 1], categories[i'], threshold, col)
      invariant forall i', col :: i <= i' < |categories| && IsColumn(col) ==>
        table[i', col] == Count(examples[..n], categories[i'], threshold, col)
    {
      var category := categories[i];
      if category in e.trueCategories {
        if category in predictions {
          table[i, TP_INDEX] := table[i, TP_INDEX] + 1;
        } else {
          table[i, FN_INDEX] := table[i, FN_INDEX] + 1;
        }
      } else {
        if category in predictions {
          table[i, FP_INDEX] := table[i, FP_INDEX] + 1;
        }
      }
      i := i + 1;
    }
  }

  /** The three getters for P, R and F1 of a category. */
  datatype Measure = P | R | F

  class ClassificationMetrics {
    var stats: array2<int>
    var threshold: real
    var categories: seq<string>
    var accuracies: seq<real>
    /** The items the counts were taken over. */
    ghost var items: seq<Example>

    ghost predicate Valid()
      reads this, stats
    {
      stats.Length0 == |categories| && stats.Length1 == 4
      && (forall i, col :: 0 <= i < |categories| && IsColumn(col) ==>
            stats[i, col] == Count(items, categories[i], threshold, col))
      && Accuracies(items, threshold, accuracies)
    }

    /** The constructor: one pass over the items, one increment per category that the item
      * is a true positive, a false negative or a false positive of. */
    constructor(threshold: real, categories: seq<string>, examples: seq<Example>)
      ensures Valid() && fresh(stats)
      ensures this.threshold == threshold && this.categories == categories && items == examples
    {
      var table := new int[|categories|, 4]((i, j) => 0);
      var acc: seq<real> := [];
      var n := 0;
      while n < |examples|
        invariant 0 <= n <= |examples|
        invariant table.Length0 == |categories| && table.Length1 == 4
        invariant forall i, col :: 0 <= i < |categories| && IsColumn(col) ==>
          table[i, col] == Count(examples[..n], categories[i], threshold, col)
        invariant |acc| == n
        invariant forall k :: 0 <= k < n ==>
          acc[k] == ItemAccuracy(examples[k].trueCategories, Predictions(examples[k].scores, threshold))
      {
        var e := examples[n];
        var predictions := Predictions(e.scores, threshold);
        acc := acc + [ItemAccuracy(e.trueCategories, predictions)];
        assert examples[..n + 1][..n] == examples[..n];
        Tally(table, categories, threshold, examples, n);
        n := n + 1;
      }
      assert examples[..n] == examples;
      stats := table;
      this.threshold := threshold;
      this.categories := categories;
      accuracies := acc;
      items := examples;
    }

    /** `getCategoryIndex`. */
    function CategoryIndex(category: string): int
      reads this
    {
      IndexOf(categories, category)
    }

    /** `getTp`, `getFp`, `getFn`: the column of the category's first position. */
    function Get(category: string, col: int): (r: int)
      reads this, stats
      requires Valid() && category in categories && IsColumn(col)
      ensures r == Count(items, category, threshold, col)
    {
      stats[CategoryIndex(category), col]
    }

    /** `getP`, `getR`, `getF1`. */
    function MeasureOf(m: Measure, category: string): (r: real)
      reads this, stats
      requires Valid() && category in categories
      ensures 0.0 <= r <= 1.0
    {
      var tp, fp, fn := Get(category, TP_INDEX), Get(category, FP_INDEX), Get(category, FN_INDEX);
      RatesInRange(tp, fp);
      RatesInRange(tp, fn);
      F1InRange(Precision(tp, fp), Recall(tp, fn));
      match m
      case P => Precision(tp, fp)
      case R => Recall(tp, fn)
      case F => F1(Precision(tp, fp), Recall(tp, fn))
    }

    /** The per-category measures, in category order. */
    ghost function Measures(m: Measure): seq<real>
      reads this, stats
      requires Valid()
    {
      seq(|categories|, i reads this, stats requires Valid() && 0 <= i < |categories| => MeasureOf(m, categories[i]))
    }

    /** `getMacroAvgP`, `getMacroAvgR`, `getMarcoAvgF1`: the plain mean over the categories. */
    method MacroAvg(m: Measure) returns (avg: real)
      requires Valid()
      ensures avg == Mean(Measures(m))
      ensures 0.0 <= avg <= 1.0
    {
      ghost var ms := Measures(m);
      var total := 0.0;
      var i := 0;
      while i < |categories|
        invariant 0 <= i <= |categories|
        invariant total == Sum(ms[..i])
      {
        var x := MeasureOf(m, categories[i]);
        assert x == ms[i];
        SumStep(ms, i);
        total := total + x;
        i := i + 1;
      }
      assert ms[..i] == ms;
      avg := if |categories| > 0 then total / (|categories| as real) else 0.0;
      MeanInRange(ms);
    }

    /** `getTp()`, `getFp()`, `getFn()`: a column summed over the categories, which is the
      * number of (item, category) pairs in that column. */
    method Total(col: int) returns (total: int)
      requires Valid() && IsColumn(col)
      ensures total == SumCounts(items, categories, threshold, col)
      ensures total == PairCount(items, categories, threshold, col)
    {
      total := 0;
      var i := 0;
      while i < |categories|
        invariant 0 <= i <= |categories|
        invariant total == SumCounts(items, categories[..i], threshold, col)
      {
        assert categories[..i + 1][..i] == categories[..i];
        total := total + stats[i, col];
        i := i + 1;
      }
      assert categories[..i] == categories;
      MicroTotalIsPairCount(items, categories, threshold, col);
    }

    /** `getMicroAvgP`, `getMicroAvgR`, `getMicroAvgF1`: the rates of the totals. */
    method MicroAvg(m: Measure) returns (r: real)
      requires Valid()
      ensures var tp, fp, fn := SumCounts(items, categories, threshold, TP_INDEX),
                                SumCounts(items, categories, threshold, FP_INDEX),
                                SumCounts(items, categories, threshold, FN_INDEX);
        r == match m
             case P => Precision(tp, fp)
             case R => Recall(tp, fn)
             case F => F1(Precision(tp, fp), Recall(tp, fn))
      ensures 0.0 <= r <= 1.0
    {
      var tp := Total(TP_INDEX);
      var fp := Total(FP_INDEX);
      var fn := Total(FN_INDEX);
      RatesInRange(tp, fp);
      RatesInRange(tp, fn);
      F1InRange(Precision(tp, fp), Recall(tp, fn));
      match m
      case P => r := Precision(tp, fp);
      case R => r := Recall(tp, fn);
      case F => r := F1(Precision(tp, fp), Recall(tp, fn));
    }

    /** `getAvgAccuracy`: the mean item accuracy, which lies in [0, 1]. */
    function AvgAccuracy(): (r: real)
      reads this, stats
      requires Valid()
      ensures 0.0 <= r <= 1.0
    {
      AccuracyMeanInRange(items, threshold, accuracies);
      Mean(accuracies)
    }
  }

  // ---------------------------------------------------------------------------
  // The example of the unit test: threshold 0.5, categories hotel, restaurant, golf_course.

  function TestItems(): seq<Example>
  {
    [ Example({"hotel"}, map["hotel" := 0.6, "restaurant" := 0.4, "golf_course" := 0.2]),
      Example({"restaurant"}, map["hotel" := 0.6, "restaurant" := 0.8, "golf_course" := 0.2]),
      Example({"golf_course"}, map["hotel" := 0.2, "restaurant" := 0.1, "golf_course" := 0.45]) ]
  }

  /** The counts and rates the unit test expects. */
  lemma TestExample()
    ensures Count(TestItems(), "hotel", 0.5, TP_INDEX) == 1
    ensures Count(TestItems(), "hotel", 0.5, FP_INDEX) == 1
    ensures Count(TestItems(), "hotel", 0.5, FN_INDEX) == 0
    ensures Count(TestItems(), "golf_course", 0.5, TP_INDEX) == 0
    ensures Count(TestItems(), "golf_course", 0.5, FN_INDEX) == 1
    ensures Precision(1, 1) == 0.5 && Recall(1, 0) == 1.0 && F1(0.5, 1.0) == 2.0 / 3.0
  {
    var items := TestItems();
    var e0, e1, e2 := items[0], items[1], items[2];
    assert items[..1] == [e0] && items[..2] == [e0, e1] && items[..3] == items;
    assert [e0][..0] == [] && [e0, e1][..1] == [e0] && items[..2] == [e0, e1];
    assert "hotel" in Predictions(e0.scores, 0.5) && "hotel" in Predictions(e1.scores, 0.5);
    assert "hotel" !in Predictions(e2.scores, 0.5);
    assert "golf_course" !in Predictions(e0.scores, 0.5) && "golf_course" !in Predictions(e1.scores, 0.5);
    assert "golf_course" !in Predictions(e2.scores, 0.5);
    assert "hotel" in e0.trueCategories && "hotel" !in e1.trueCategories && "hotel" !in e2.trueCategories;
    assert "golf_course" !in e0.trueCategories && "golf_course" !in e1.trueCategories;
    assert "golf_course" in e2.trueCategories;
    assert Count([e0], "hotel", 0.5, TP_INDEX) == 1 && Count([e0, e1], "hotel", 0.5, TP_INDEX) == 1;
    assert Count([e0], "hotel", 0.5, FP_INDEX) == 0;
    assert Outcome(e1, "hotel", 0.5, FP_INDEX);
    assert Count([e0, e1], "hotel", 0.5, FP_INDEX) == Count([e0], "hotel", 0.5, FP_INDEX) + 1;
    assert Count([e0], "hotel", 0.5, FN_INDEX) == 0 && Count([e0, e1], "hotel", 0.5, FN_INDEX) == 0;
    assert Count([e0, e1], "golf_course", 0.5, TP_INDEX) == 0 by {
      assert Count([e0], "golf_course", 0.5, TP_INDEX) == 0;
    }
    assert Count([e0, e1], "golf_course", 0.5, FN_INDEX) == 0 by {
      assert Count([e0], "golf_course", 0.5, FN_INDEX) == 0;
    }
  }
}
