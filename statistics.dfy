/**
 * Average, minimum and maximum of the temperature window.  The minimum and
 * maximum are folds that start from positive and negative infinity, and the
 * average divides the sum by the count, so an empty window yields NaN for
 * the average and the two infinities for the extrema.
 */
module Statistics {

  /** A real extended with the two infinities the folds start from. */
  datatype Extended = NegInfinity | Finite(value: real) | PosInfinity

  predicate AtMost(a: Extended, b: Extended)
  {
    match (a, b)
    case (NegInfinity, _) => true
    case (_, PosInfinity) => true
    case (Finite(x), Finite(y)) => x <= y
    case _ => false
  }

  function Lesser(a: Extended, b: Extended): Extended
  {
    if AtMost(a, b) then a else b
  }

  function Greater(a: Extended, b: Extended): Extended
  {
    if AtMost(a, b) then b else a
  }

  /** Left fold of Lesser over the values, starting from acc. */
  function FoldMin(acc: Extended, values: seq<real>): Extended
    decreases values
  {
    if values == [] then acc else FoldMin(Lesser(acc, Finite(values[0])), values[1..])
  }

  /** Left fold of Greater over the values, starting from acc. */
  function FoldMax(acc: Extended, values: seq<real>): Extended
    decreases values
  {
    if values == [] then acc else FoldMax(Greater(acc, Finite(values[0])), values[1..])
  }

  function Sum(values: seq<real>): real
  {
    if values == [] then 0.0 else values[0] + Sum(values[1..])
  }

  /** The quotient sum / count, which is NaN when the count is zero. */
  datatype Mean = NaN | Mean(value: real)

  datatype Stats = Stats(average: Mean, min: Extended, max: Extended)

  /** The statistics line printed after every combined tick. */
  function CalculateStatistics(values: seq<real>): (stats: Stats)
    ensures stats.average.NaN? <==> values == []
  {
    var average := if |values| == 0 then NaN else Mean(Sum(values) / (|values| as real));
    Stats(average, FoldMin(PosInfinity, values), FoldMax(NegInfinity, values))
  }

  /**
   * On a non-empty window both extrema are elements of the window, they bound
   * every element, and they bound the average.  On an empty window the result
   * is the NaN / +infinity / -infinity the float computation yields.
   */
  lemma StatisticsBounds(values: seq<real>)
    ensures var stats := CalculateStatistics(values);
      && (values == [] ==> stats == Stats(NaN, PosInfinity, NegInfinity))
      && (values != [] ==>
            && stats.average.Mean? && stats.min.Finite? && stats.max.Finite?
            && stats.min.value in values && stats.max.value in values
            && (forall x :: x in values ==> stats.min.value <= x <= stats.max.value)
            && stats.min.value <= stats.average.value <= stats.max.value)
  {
    if values != [] {
      FoldMinFinds(PosInfinity, values);
      FoldMaxFinds(NegInfinity, values);
      var stats := CalculateStatistics(values);
      MeanBetween(values, stats.min.value, stats.max.value);
    }
  }

  /**
   * The minimum fold is at most the start value and every element, and it is
   * either the start value or one of the elements.
   */
  lemma {:induction false} FoldMinFinds(acc: Extended, values: seq<real>)
    decreases values
    ensures AtMost(FoldMin(acc, values), acc)
    ensures forall x :: x in values ==> AtMost(FoldMin(acc, values), Finite(x))
    ensures FoldMin(acc, values) == acc || exists x :: x in values && FoldMin(acc, values) == Finite(x)
  {
    if values != [] {
      var next := Lesser(acc, Finite(values[0]));
      FoldMinFinds(next, values[1..]);
      assert forall x :: x in values ==> x == values[0] || x in values[1..];
    }
  }

  /**
   * The maximum fold is at least the start value and every element, and it
   * is either the start value or one of the elements.
   */
  lemma {:induction false} FoldMaxFinds(acc: Extended, values: seq<real>)
    decreases values
    ensures AtMost(acc, FoldMax(acc, values))
    ensures forall x :: x in values ==> AtMost(Finite(x), FoldMax(acc, values))
    ensures FoldMax(acc, values) == acc || exists x :: x in values && FoldMax(acc, values) == Finite(x)
  {
    if values != [] {
      var next := Greater(acc, Finite(values[0]));
      FoldMaxFinds(next, values[1..]);
      assert forall x :: x in values ==> x == values[0] || x in values[1..];
    }
  }

  /** count copies of x added together. */
  function Repeat(x: real, count: nat): real
  {
    if count == 0 then 0.0 else x + Repeat(x, count - 1)
  }

  lemma {:induction false} RepeatIsProduct(x: real, count: nat)
    ensures Repeat(x, count) == (count as real) * x
  {
    if count > 0 {
      RepeatIsProduct(x, count - 1);
    }
  }

  /** A sum of values between lo and hi lies between count copies of lo and count copies of hi. */
  lemma {:induction false} SumBetween(values: seq<real>, lo: real, hi: real)
    requires forall x :: x in values ==> lo <= x <= hi
    ensures Repeat(lo, |values|) <= Sum(values) <= Repeat(hi, |values|)
  {
    if values != [] {
      var rest := values[1..];
      assert forall x :: x in rest ==> x in values;
      SumBetween(rest, lo, hi);
      assert values[0] in values;
    }
  }

  /** The mean of a non-empty window lies between any bounds of its elements. */
  lemma MeanBetween(values: seq<real>, lo: real, hi: real)
    requires values != []
    requires forall x :: x in values ==> lo <= x <= hi
    ensures lo <= Sum(values) / (|values| as real) <= hi
  {
    SumBetween(values, lo, hi);
    RepeatIsProduct(lo, |values|);
    RepeatIsProduct(hi, |values|);
    QuotientBetween(Sum(values), |values| as real, lo, hi);
  }

  /** Dividing by a positive count keeps count * lo <= sum <= count * hi as lo <= sum / count <= hi. */
  lemma QuotientBetween(sum: real, count: real, lo: real, hi: real)
    requires count > 0.0
    requires count * lo <= sum <= count * hi
    ensures lo <= sum / count <= hi
  {
    assert sum / count - lo == (sum - count * lo) / count;
    assert hi - sum / count == (count * hi - sum) / count;
  }

  /** The window [20, 25, 30] has average 25, minimum 20, maximum 30. */
  lemma ThreeReadingsExample()
    ensures CalculateStatistics([20.0, 25.0, 30.0]) == Stats(Mean(25.0), Finite(20.0), Finite(30.0))
  {
    assert [20.0, 25.0, 30.0][1..] == [25.0, 30.0];
    assert [25.0, 30.0][1..] == [30.0];
  }
}
