/** The best-price selector: for one match, the highest price offered for each
    outcome across the bookmakers, and the bookmaker that offered it first. */
module Selector {
  import opened Odds

  /** Entry `i` of an `n`-outcome best-price vector after the bookmakers of
      `bs` have been scanned in order. A bookmaker that quotes a different
      number of outcomes is passed over; otherwise its price replaces the
      entry only when it is strictly higher. */
  function BestAt(bs: seq<Bookmaker>, n: nat, i: nat): Best
    requires i < n
    decreases |bs|
  {
    if bs == [] then Sentinel
    else
      var prev := BestAt(bs[..|bs| - 1], n, i);
      var last := bs[|bs| - 1];
      if |last.prices| == n && last.prices[i] > prev.price
      then Best(last.title, last.prices[i])
      else prev
  }

  /** Bookmaker `j` quotes `n` outcomes, offers a positive price at position
      `i`, no bookmaker quoting `n` outcomes offers more there, and every such
      bookmaker before `j` offers strictly less. */
  ghost predicate IsFirstMax(bs: seq<Bookmaker>, n: nat, i: nat, j: int)
    requires i < n
  {
    && 0 <= j < |bs|
    && |bs[j].prices| == n
    && bs[j].prices[i] > 0.0
    && (forall k :: 0 <= k < |bs| && |bs[k].prices| == n ==> bs[k].prices[i] <= bs[j].prices[i])
    && (forall k :: 0 <= k < j && |bs[k].prices| == n ==> bs[k].prices[i] < bs[j].prices[i])
  }

  /** The bookmakers of `bs` that quote exactly `n` outcomes, in order. */
  function Matching(bs: seq<Bookmaker>, n: nat): (m: seq<Bookmaker>)
    ensures forall k :: 0 <= k < |m| ==> |m[k].prices| == n
    decreases |bs|
  {
    if bs == [] then []
    else
      var last := bs[|bs| - 1];
      Matching(bs[..|bs| - 1], n) + (if |last.prices| == n then [last] else [])
  }

  /** The filter keeps exactly the bookmakers that quote `n` outcomes. */
  lemma {:induction false} MatchingComplete(bs: seq<Bookmaker>, n: nat)
    ensures forall b :: b in Matching(bs, n) <==> b in bs && |b.prices| == n
  {
    if bs != [] {
      MatchingComplete(bs[..|bs| - 1], n);
      assert bs == bs[..|bs| - 1] + [bs[|bs| - 1]];
    }
  }

  /** Builds the best-price vector of one match. Its length is the number of
      outcomes the first bookmaker quotes; each entry starts as the sentinel
      and keeps a running maximum over the bookmakers that quote that many
      outcomes, updated in place. */
  method ProcessMatch(bookmakers: seq<Bookmaker>) returns (results: seq<Best>)
    ensures bookmakers == [] ==> results == []
    ensures bookmakers != [] ==> |results| == |bookmakers[0].prices|
    ensures forall i :: 0 <= i < |results| ==> results[i] == BestAt(bookmakers, |results|, i)
  {
    if bookmakers == [] {
      return [];
    }
    var n := |bookmakers[0].prices|;
    var best := new Best[n](_ => Sentinel);
    for k := 0 to |bookmakers|
      invariant forall i :: 0 <= i < n ==> best[i] == BestAt(bookmakers[..k], n, i)
    {
      var bookmaker := bookmakers[k];
      assert bookmakers[..k + 1][..k] == bookmakers[..k];
      if |bookmaker.prices| == n {
        for i := 0 to n
          invariant forall j :: 0 <= j < i ==> best[j] == BestAt(bookmakers[..k + 1], n, j)
          invariant forall j :: i <= j < n ==> best[j] == BestAt(bookmakers[..k], n, j)
        {
          if bookmaker.prices[i] > best[i].price {
            best[i] := Best(bookmaker.title, bookmaker.prices[i]);
          }
        }
      }
    }
    assert bookmakers[..|bookmakers|] == bookmakers;
    results := best[..];
  }

  /** Every entry's price is at least zero and at least the price at that
      position of every bookmaker quoting `n` outcomes. */
  lemma {:induction false} BestAtBound(bs: seq<Bookmaker>, n: nat, i: nat)
    requires i < n
    ensures BestAt(bs, n, i).price >= 0.0
    ensures forall k :: 0 <= k < |bs| && |bs[k].prices| == n ==> bs[k].prices[i] <= BestAt(bs, n, i).price
  {
    if bs != [] {
      BestAtBound(bs[..|bs| - 1], n, i);
    }
  }

  /** An entry is either the untouched sentinel, and then no bookmaker quoting
      `n` outcomes offers a positive price there, or the title and price of
      the first bookmaker offering the maximal price there. */
  lemma {:induction false} BestAtOrigin(bs: seq<Bookmaker>, n: nat, i: nat)
    requires i < n
    ensures BestAt(bs, n, i) == Sentinel ==>
              forall k :: 0 <= k < |bs| && |bs[k].prices| == n ==> bs[k].prices[i] <= 0.0
    ensures BestAt(bs, n, i) == Sentinel ||
              exists j :: IsFirstMax(bs, n, i, j) && BestAt(bs, n, i) == Best(bs[j].title, bs[j].prices[i])
  {
    if bs != [] {
      var init := bs[..|bs| - 1];
      var last := bs[|bs| - 1];
      BestAtOrigin(init, n, i);
      BestAtBound(init, n, i);
      var prev := BestAt(init, n, i);
      if |last.prices| == n && last.prices[i] > prev.price {
        assert IsFirstMax(bs, n, i, |bs| - 1);
      } else if prev != Sentinel {
        var j :| IsFirstMax(init, n, i, j) && prev == Best(init[j].title, init[j].prices[i]);
        assert bs[j] == init[j];
        assert |last.prices| == n ==> last.prices[i] <= init[j].prices[i];
        assert IsFirstMax(bs, n, i, j);
      }
    }
  }

  /** Tie-break: whenever some bookmaker is the first to offer the maximal
      positive price at `i`, the entry is that bookmaker's title and price;
      the sentinel survives exactly when no bookmaker quoting `n` outcomes
      offers a positive price at `i`. */
  lemma BestAtIsFirstMax(bs: seq<Bookmaker>, n: nat, i: nat)
    requires i < n
    ensures forall j :: IsFirstMax(bs, n, i, j) ==> BestAt(bs, n, i) == Best(bs[j].title, bs[j].prices[i])
    ensures BestAt(bs, n, i) == Sentinel <==>
              forall k :: 0 <= k < |bs| && |bs[k].prices| == n ==> bs[k].prices[i] <= 0.0
  {
    BestAtOrigin(bs, n, i);
    forall j | IsFirstMax(bs, n, i, j)
      ensures BestAt(bs, n, i) == Best(bs[j].title, bs[j].prices[i])
    {
      var j' :| IsFirstMax(bs, n, i, j') && BestAt(bs, n, i) == Best(bs[j'].title, bs[j'].prices[i]);
      assert j == j';
    }
  }

  /** Bookmakers that quote a different number of outcomes affect no entry:
      scanning only the matching ones gives the same entry. */
  lemma {:induction false} MismatchedIgnored(bs: seq<Bookmaker>, n: nat, i: nat)
    requires i < n
    ensures BestAt(Matching(bs, n), n, i) == BestAt(bs, n, i)
  {
    if bs != [] {
      var init := bs[..|bs| - 1];
      var last := bs[|bs| - 1];
      var m := Matching(init, n);
      MismatchedIgnored(init, n, i);
      if |last.prices| == n {
        assert Matching(bs, n) == m + [last];
        assert (m + [last])[..|m|] == m;
      } else {
        assert Matching(bs, n) == m + [];
        assert m + [] == m;
      }
    }
  }

  /** The first bookmaker always quotes the vector's length, so each entry is
      at least its price; when that price is positive the sentinel is gone. */
  lemma FirstBookmakerFloor(bs: seq<Bookmaker>, i: nat)
    requires bs != [] && i < |bs[0].prices|
    ensures BestAt(bs, |bs[0].prices|, i).price >= bs[0].prices[i]
    ensures bs[0].prices[i] > 0.0 ==> BestAt(bs, |bs[0].prices|, i) != Sentinel
  {
    BestAtBound(bs, |bs[0].prices|, i);
  }
}
