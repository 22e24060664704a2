/** Values shared by the arbitrage engine.

    Prices are decimal odds. The model takes them as Dafny `real`s, which are
    exact rationals: every sum, reciprocal and comparison below is the exact
    one, not the IEEE-754 double that the program computes. */
module Odds {

  /** One bookmaker's quote for a match: its title and the price of each
      outcome of the match's first market, in the order the feed lists them. */
  datatype Bookmaker = Bookmaker(title: string, prices: seq<real>)

  /** One entry of the best-price vector: who offers the best price seen so far
      for an outcome, and that price. */
  datatype Best = Best(platform: string, price: real)

  /** The entry before any bookmaker has offered a price for the outcome. */
  const Sentinel: Best := Best("undefined", 0.0)

  /** No price of the vector is zero, so every implied probability is defined. */
  predicate NonZeroPrices(v: seq<Best>)
  {
    forall i :: 0 <= i < |v| ==> v[i].price != 0.0
  }

  /** Every price of the vector is positive. */
  predicate PositivePrices(v: seq<Best>)
  {
    forall i :: 0 <= i < |v| ==> v[i].price > 0.0
  }
}
