/** The stake allocator: how to split a total stake over the outcomes of an
    arbitrable match so that every outcome pays out the same. */
module Allocator {
  import opened Odds
  import opened Rounding
  import opened Evaluator
  import opened RealArith

  /** One line of the allocation: the stake fraction (rounded to 4 decimals),
      the stake, the gross payout if the outcome wins and the net gain over
      the total stake (each rounded to 2 decimals). */
  datatype Rate = Rate(fraction: real, stake: real, gross: real, net: real)

  /** The stake fraction before rounding: the outcome's implied probability
      plus its proportional share of the margin. */
  function ExactFraction(price: real, total: real): real
    requires price != 0.0 && total != 0.0
  {
    1.0 / price + (1.0 - total) * (1.0 / price / total)
  }

  /** The allocation line of an outcome at `price`, rounding as the program
      does at each step. */
  function RateOf(price: real, total: real, betSize: real): Rate
    requires price != 0.0 && total != 0.0
  {
    var fraction := Round(ExactFraction(price, total), 4);
    var stake := Round(betSize * fraction, 2);
    var gross := Round(stake * price, 2);
    Rate(fraction, stake, gross, Round(gross - betSize, 2))
  }

  /** The allocation lines of a whole vector for a given total. */
  function RatesFor(data: seq<Best>, total: real, betSize: real): seq<Rate>
    requires NonZeroPrices(data) && total != 0.0
  {
    seq(|data|, i requires 0 <= i < |data| => RateOf(data[i].price, total, betSize))
  }

  /** Sum of the rounded stake fractions, added left to right. */
  function FractionSum(rates: seq<Rate>): real
    decreases |rates|
  {
    if rates == [] then 0.0
    else FractionSum(rates[..|rates| - 1]) + rates[|rates| - 1].fraction
  }

  /** Sum of the unrounded stake fractions for a given total. */
  function ExactFractionSum(data: seq<Best>, total: real): real
    requires NonZeroPrices(data) && total != 0.0
    decreases |data|
  {
    if data == [] then 0.0
    else ExactFractionSum(data[..|data| - 1], total) + ExactFraction(data[|data| - 1].price, total)
  }

  /** Computes the margin (as a fraction), the allocation line of every
      outcome and the sum of the stake fractions. */
  method GetRates(data: seq<Best>, betSize: real) returns (margin: real, rates: seq<Rate>, completeSum: real)
    requires NonZeroPrices(data)
    requires data != [] ==> ImpliedTotal(data) != 0.0
    ensures margin == 1.0 - ImpliedTotal(data)
    ensures data == [] ==> rates == [] && completeSum == 0.0
    ensures data != [] ==> rates == RatesFor(data, ImpliedTotal(data), betSize)
    ensures completeSum == FractionSum(rates)
  {
    var total := SumImplied(data);
    margin := 1.0 - total;
    rates := [];
    completeSum := 0.0;
    for k := 0 to |data|
      invariant |rates| == k
      invariant forall i :: 0 <= i < k ==> rates[i] == RateOf(data[i].price, total, betSize)
      invariant completeSum == FractionSum(rates)
    {
      var rate := RateOf(data[k].price, total, betSize);
      assert (rates + [rate])[..k] == rates;
      rates := rates + [rate];
      completeSum := completeSum + rate.fraction;
    }
    if data != [] {
      assert rates == RatesFor(data, total, betSize);
    }
  }

  /** Before rounding, the stake fraction is the outcome's implied
      probability divided by the total: the margin term only rescales it. */
  lemma FractionIsShare(price: real, total: real)
    requires price != 0.0 && total != 0.0
    ensures ExactFraction(price, total) == 1.0 / price / total
  {
    var q := 1.0 / price;
    assert total * (q / total) == q;
  }

  /** Before rounding, the stake fractions add up to the implied total over
      `total`. */
  lemma {:induction false} ExactFractionSumIsShare(data: seq<Best>, total: real)
    requires NonZeroPrices(data) && total != 0.0
    ensures ExactFractionSum(data, total) == ImpliedTotal(data) / total
  {
    if data != [] {
      var init := data[..|data| - 1];
      var price := data[|data| - 1].price;
      ExactFractionSumIsShare(init, total);
      FractionIsShare(price, total);
      assert ImpliedTotal(init) / total + 1.0 / price / total == (ImpliedTotal(init) + 1.0 / price) / total;
    }
  }

  /** Before rounding, the stake fractions of a vector add up to exactly one. */
  lemma ExactFractionsSumToOne(data: seq<Best>)
    requires NonZeroPrices(data) && data != [] && ImpliedTotal(data) != 0.0
    ensures ExactFractionSum(data, ImpliedTotal(data)) == 1.0
  {
    ExactFractionSumIsShare(data, ImpliedTotal(data));
  }

  /** Before rounding, every outcome pays out the same amount,
      betSize / total, whichever outcome wins. */
  lemma EqualPayout(price: real, total: real, betSize: real)
    requires price != 0.0 && total != 0.0
    ensures betSize * ExactFraction(price, total) * price == betSize / total
  {
    FractionIsShare(price, total);
    assert 1.0 / price / total * price == 1.0 / total;
  }

  /** The rounded stake fraction is within 0.00005 of the unrounded one. */
  lemma FractionNearExact(price: real, total: real, betSize: real)
    requires price != 0.0 && total != 0.0
    ensures ExactFraction(price, total) - 0.00005 <= RateOf(price, total, betSize).fraction
    ensures RateOf(price, total, betSize).fraction <= ExactFraction(price, total) + 0.00005
  {
    FourDigitBound(ExactFraction(price, total));
  }

  /** The rounded fractions drift from the unrounded ones by at most 0.00005
      per outcome. */
  lemma {:induction false} FractionSumNearExact(data: seq<Best>, total: real, betSize: real)
    requires NonZeroPrices(data) && total != 0.0
    ensures ExactFractionSum(data, total) - |data| as real * 0.00005 <= FractionSum(RatesFor(data, total, betSize))
    ensures FractionSum(RatesFor(data, total, betSize)) <= ExactFractionSum(data, total) + |data| as real * 0.00005
  {
    if data != [] {
      var init := data[..|data| - 1];
      var rates := RatesFor(data, total, betSize);
      assert rates[..|rates| - 1] == RatesFor(init, total, betSize);
      FractionSumNearExact(init, total, betSize);
      FractionNearExact(data[|data| - 1].price, total, betSize);
    }
  }

  /** The reported sum of the rounded stake fractions is within 0.00005 per
      outcome of one. */
  lemma CompleteSumNearOne(data: seq<Best>, betSize: real)
    requires NonZeroPrices(data) && data != [] && ImpliedTotal(data) != 0.0
    ensures 1.0 - |data| as real * 0.00005 <= FractionSum(RatesFor(data, ImpliedTotal(data), betSize))
    ensures FractionSum(RatesFor(data, ImpliedTotal(data), betSize)) <= 1.0 + |data| as real * 0.00005
  {
    FractionSumNearExact(data, ImpliedTotal(data), betSize);
    ExactFractionsSumToOne(data);
  }

  /** The earnings figure printed before the allocation lines: the stake
      times the margin, rounded to cents. */
  function ReportedEarnings(total: real, betSize: real): (r: real)
    ensures betSize * (1.0 - total) - 0.005 <= r <= betSize * (1.0 - total) + 0.005
  {
    CentBound(betSize * (1.0 - total));
    Round(betSize * (1.0 - total), 2)
  }

  /** The net gain that the exact allocation locks in on every outcome:
      the stake times the margin over the total. */
  function GuaranteedEarnings(total: real, betSize: real): real
    requires total != 0.0
  {
    betSize * (1.0 - total) / total
  }

  /** Before rounding, every outcome nets exactly the guaranteed earnings,
      whichever outcome wins. */
  lemma NetGainIsGuaranteedEarnings(price: real, total: real, betSize: real)
    requires price != 0.0 && total != 0.0
    ensures betSize * ExactFraction(price, total) * price - betSize == GuaranteedEarnings(total, betSize)
  {
    EqualPayout(price, total, betSize);
    GainOverStake(betSize, total);
  }

  /** With positive prices and a positive stake, the guaranteed earnings of a
      match are positive exactly when it is arbitrable. */
  lemma GuaranteedEarningsSign(data: seq<Best>, betSize: real)
    requires PositivePrices(data) && data != [] && betSize > 0.0
    ensures ImpliedTotal(data) > 0.0
    ensures GuaranteedEarnings(ImpliedTotal(data), betSize) > 0.0 <==> ImpliedTotal(data) < 1.0
  {
    ImpliedTotalPositive(data);
    QuotientSign(betSize, 1.0 - ImpliedTotal(data), ImpliedTotal(data));
  }

  /** The reported earnings are not what each outcome nets: before rounding
      they differ whenever the total is neither zero nor one. */
  lemma ReportedEarningsMissNetGain(total: real, betSize: real)
    requires betSize != 0.0 && total != 0.0 && total != 1.0
    ensures betSize * (1.0 - total) != GuaranteedEarnings(total, betSize)
  {
    DivisionChanges(betSize, total);
  }

  /** Two outcomes at 2.5 with a stake of 100: the program reports earnings
      of 20.00, while each outcome's allocation line nets 25.00. */
  lemma ReportedEarningsExample()
    ensures var data := [Best("X", 2.5), Best("Y", 2.5)];
      && NonZeroPrices(data) && ImpliedTotal(data) == 0.8
      && ReportedEarnings(0.8, 100.0) == 20.0
      && GuaranteedEarnings(0.8, 100.0) == 25.0
      && RateOf(2.5, 0.8, 100.0) == Rate(0.5, 50.0, 125.0, 25.0)
  {
    var data := [Best("X", 2.5), Best("Y", 2.5)];
    assert data[..1][..0] == [];
    assert ImpliedTotal(data[..1]) == 0.4;
    assert Pow10(2) == 100.0;
    assert Pow10(4) == 10000.0;
    assert NearestInt(2000.0) == 2000;
    assert ExactFraction(2.5, 0.8) == 0.5;
    assert NearestInt(5000.0) == 5000;
    assert NearestInt(5000.0 * 1.0) == 5000;
    assert NearestInt(12500.0) == 12500;
    assert NearestInt(2500.0) == 2500;
  }
}
