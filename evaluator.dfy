/** The arbitrage evaluator: the total implied probability of a best-price
    vector, whether the match is arbitrable, and its margin in percent. */
module Evaluator {
  import opened Odds
  import opened Rounding

  /** Sum of the implied probabilities 1/price, added left to right. */
  function ImpliedTotal(data: seq<Best>): real
    requires NonZeroPrices(data)
    decreases |data|
  {
    if data == [] then 0.0
    else ImpliedTotal(data[..|data| - 1]) + 1.0 / data[|data| - 1].price
  }

  /** The accumulation loop that opens `is_arbitrable`, `get_margin` and
      `get_rates`. */
  method SumImplied(data: seq<Best>) returns (total: real)
    requires NonZeroPrices(data)
    ensures total == ImpliedTotal(data)
  {
    total := 0.0;
    for k := 0 to |data|
      invariant total == ImpliedTotal(data[..k])
    {
      assert data[..k + 1][..k] == data[..k];
      total := total + 1.0 / data[k].price;
    }
    assert data[..|data|] == data;
  }

  /** A match is arbitrable exactly when its implied probabilities add up to
      strictly less than one; a total of exactly one is not arbitrable. */
  method IsArbitrable(data: seq<Best>) returns (arbitrable: bool)
    requires NonZeroPrices(data)
    ensures arbitrable <==> ImpliedTotal(data) < 1.0
  {
    var total := SumImplied(data);
    arbitrable := total < 1.0;
  }

  /** The margin 1 - total as a percentage, rounded to two decimals. */
  method GetMargin(data: seq<Best>) returns (margin: real)
    requires NonZeroPrices(data)
    ensures margin == Round((1.0 - ImpliedTotal(data)) * 100.0, 2)
  {
    var total := SumImplied(data);
    margin := Round((1.0 - total) * 100.0, 2);
  }

  /** With every price positive the total of a non-empty vector is positive,
      so the allocator's division by it is defined. */
  lemma {:induction false} ImpliedTotalPositive(data: seq<Best>)
    requires PositivePrices(data)
    ensures data != [] ==> ImpliedTotal(data) > 0.0
  {
    if data != [] {
      var init := data[..|data| - 1];
      ImpliedTotalPositive(init);
      assert 1.0 / data[|data| - 1].price > 0.0;
    }
  }

  /** The unrounded margin is positive exactly when the match is arbitrable;
      a positive rounded margin also implies arbitrable. */
  lemma MarginSign(data: seq<Best>)
    requires NonZeroPrices(data)
    ensures (1.0 - ImpliedTotal(data)) * 100.0 > 0.0 <==> ImpliedTotal(data) < 1.0
    ensures Round((1.0 - ImpliedTotal(data)) * 100.0, 2) > 0.0 ==> ImpliedTotal(data) < 1.0
  {
  }

  /** The converse fails after rounding: a match whose total is 0.99999 is
      arbitrable, yet its margin rounds to 0.0. */
  lemma ArbitrableMarginRoundsToZero()
    ensures var data := [Best("a", 2.0), Best("b", 100000.0 / 49999.0)];
      NonZeroPrices(data) && ImpliedTotal(data) < 1.0 && Round((1.0 - ImpliedTotal(data)) * 100.0, 2) == 0.0
  {
    var data := [Best("a", 2.0), Best("b", 100000.0 / 49999.0)];
    assert data[..1][..0] == [];
    assert ImpliedTotal(data[..1]) == 0.5;
    assert ImpliedTotal(data) == 0.99999;
    assert Pow10(2) == 100.0;
    assert NearestInt(0.1) == 0;
  }
}
