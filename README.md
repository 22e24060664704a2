# Arbitrage betting: best prices, arbitrage test and stake allocation

This project models the decision core of `parser.py` of the arbitrage-betting
scanner. That script downloads head-to-head odds (decimal prices) from several
bookmakers and, for each match:

1. builds the **best-price vector**: for every outcome, the highest price any
   bookmaker offers, together with the bookmaker that offered it first
   (`process_match`);
2. sums the **implied probabilities** `1/price` of that vector. A total below
   one means the match is **arbitrable** (`is_arbitrable`), and `1 - total`,
   as a rounded percentage, is its **margin** (`get_margin`);
3. **allocates a stake** over the outcomes so that every outcome pays out the
   same. Each outcome receives its implied probability plus a proportional
   share of the margin (`get_rates`). The results are rounded to 4 decimals
   for fractions and 2 for money.

Modules:

- `Odds` (odds.dfy): the values the core works on. A bookmaker is a title and
  its price list for the match's first market. A best-price entry is a
  platform title and a price. The sentinel entry is `("undefined", 0.0)`.
- `Rounding` (rounding.dfy): Python's `round(x, d)`, modelled as rounding to
  the nearest multiple of `10^-d` with ties to even, computed on the exact
  value. Its contract gives the error bound `0.5 * 10^-d`.
- `RealArith` (arith.dfy): small facts of real arithmetic used by the proofs.
- `Selector` (selector.dfy): `process_match` as an imperative method. It fills
  a local array in place with nested loops and is proved against `BestAt`, the
  specification of each entry by recursion over the bookmakers scanned so far.
- `Evaluator` (evaluator.dfy): the accumulation loop that sums `1/price`. It is
  written once and shared by `is_arbitrable`, `get_margin` and `get_rates`,
  which repeat it verbatim in the source.
- `Allocator` (allocator.dfy): `get_rates`. Instead of printing, it returns the
  margin, every outcome's allocation line (fraction, stake, gross payout, net
  gain) and the sum of the rounded fractions.

Prices are Dafny `real`s, i.e. exact rationals, not IEEE doubles.

## Model

| member | source | states |
|---|---|---|
| Selector.ProcessMatch | parser.py:87-117 | With no bookmakers the result is empty. Otherwise it has one entry per outcome quoted by the first bookmaker, and entry `i` is the running maximum `BestAt` over all bookmakers in order: mismatched bookmakers are skipped and only a strictly higher price replaces the entry. |
| Selector.Matching | parser.py:103-104 | Every bookmaker kept by the outcome-count filter quotes exactly `n` outcomes. |
| Selector.MatchingComplete | parser.py:103-104 | A bookmaker is kept by the filter if and only if it is one of the match's bookmakers and quotes exactly `n` outcomes: only mismatched bookmakers are skipped. |
| Selector.BestAtBound | parser.py:95-109 | Every entry's price is an upper bound of 0 (the sentinel's price) and of the price of every bookmaker that quotes `n` outcomes. `BestAtOrigin` shows the bound is attained, so the entry is their maximum. |
| Selector.BestAtOrigin | parser.py:95-109 | An entry is either the untouched sentinel, in which case no matching bookmaker offers a positive price there, or the title and price of a bookmaker that offers the maximum and is the first to do so. |
| Selector.BestAtIsFirstMax | parser.py:106-109 | Tie-break: the entry is the title and price of the first bookmaker that offers the maximal positive price. The sentinel survives if and only if no matching bookmaker offers a positive price. |
| Selector.MismatchedIgnored | parser.py:103-104 | Bookmakers quoting a different number of outcomes do not change any entry: scanning only the matching ones gives the same vector. |
| Selector.FirstBookmakerFloor | parser.py:95-109 | The first bookmaker always qualifies, so each entry is at least its price. A positive first price rules out the sentinel. |
| Evaluator.SumImplied | parser.py:121-124 | The accumulation loop returns the left-to-right sum of `1/price` over the vector. |
| Evaluator.IsArbitrable | parser.py:120-128 | True if and only if the implied total is strictly below 1. A total of exactly 1 is not arbitrable. |
| Evaluator.GetMargin | parser.py:131-138 | The result is `(1 - total) * 100` rounded to two decimals. |
| Evaluator.ImpliedTotalPositive | parser.py:120-124 | With positive prices, a non-empty vector has a positive total, so the allocator's division by the total is defined. |
| Evaluator.MarginSign | parser.py:126-138 | The unrounded margin is positive if and only if the match is arbitrable. A positive rounded margin implies arbitrable. |
| Evaluator.ArbitrableMarginRoundsToZero | parser.py:137-138 | The converse fails after rounding: prices 2 and 100000/49999 give a total of 0.99999, which is arbitrable, yet the margin rounds to 0.0. |
| Rounding.Round | parser.py:138 | `round(x, d)` is within `0.5 * 10^-d` of `x`, and a non-positive `x` never rounds to a positive value. |
| Allocator.GetRates | parser.py:140-161 | Returns the margin `1 - total`. It returns one allocation line per outcome: fraction rounded to 4 decimals, stake, gross and net each rounded to 2, in the source's order of rounding. It also returns the sum of the rounded fractions. An empty vector gives no lines and a sum of 0. |
| Allocator.FractionIsShare | parser.py:152-153 | Before rounding, an outcome's fraction `1/price + margin * (1/price/total)` equals its implied probability divided by the total. |
| Allocator.ExactFractionSumIsShare | parser.py:149-158 | Before rounding, the fractions add up to the implied total divided by the divisor. |
| Allocator.ExactFractionsSumToOne | parser.py:149-158 | Before rounding, the fractions of a vector add up to exactly 1: the whole stake is placed. |
| Allocator.EqualPayout | parser.py:152-155 | Before rounding, stake times price is `bet_size / total` for every outcome, so every outcome pays the same. |
| Allocator.FractionNearExact | parser.py:153 | The rounded fraction of one outcome is within 0.00005 of the exact one. |
| Allocator.FractionSumNearExact | parser.py:149-158 | The sum of the rounded fractions is within 0.00005 per outcome of the exact sum. |
| Allocator.CompleteSumNearOne | parser.py:158-161 | The reported `complete_sum` is within 0.00005 per outcome of 1. |
| Allocator.NetGainIsGuaranteedEarnings | parser.py:146-156 | Before rounding, every outcome nets `bet_size * margin / total` over the total stake. |
| Allocator.GuaranteedEarningsSign | parser.py:146-156 | With positive prices and a positive stake, the total is positive. The net gain locked in is positive if and only if the match is arbitrable. |
| Allocator.ReportedEarnings | parser.py:147 | The earnings figure printed before the allocation lines is `bet_size * margin` rounded to cents: within half a cent of `bet_size * (1 - total)`. |
| Allocator.ReportedEarningsMissNetGain | parser.py:147 | The earnings figure `bet_size * margin` differs from the net gain of every outcome whenever the stake is non-zero and the total is neither 0 nor 1. |
| Allocator.ReportedEarningsExample | parser.py:147-156 | Two outcomes at 2.5 with a stake of 100 give a total of 0.8 and reported earnings of 20.00. Yet every allocation line is (0.5, 50.00, 125.00, 25.00), so each outcome nets 25.00. |

## Left out

- Fetching sports and odds over HTTP, the API key, writing and reading the JSON files, and the request-quota headers: these are I/O. The model starts from a match's bookmakers and prices as values.
- `process_sport` (parser.py:164-187) and the `__main__` block: they only sequence the modelled operations over files and print the results. The margin-versus-threshold choice of verbosity is printing only.
- `pretty_print`, `VERBOSITY`, `THRESHOLD` and every printed string. Outcome names and team names appear only in printed text, so a bookmaker is modelled as its title and price list.
- Only the first market of each bookmaker is used, as in the source. A bookmaker without markets or outcomes (a `KeyError`/`IndexError` in Python) is not modelled: input is assumed well formed.
- Floating point: prices and sums are exact rationals. Sums are exact, and `round` works on the exact value. Python rounds the binary double, so for example `round(2.675, 2)` gives 2.67 in Python but 2.68 here.
- Division by zero: `Evaluator.SumImplied`, `Evaluator.IsArbitrable`, `Evaluator.GetMargin` and `Allocator.GetRates` require non-zero prices. `Allocator.GetRates` also requires a non-zero total for a non-empty vector. Where these fail, Python raises `ZeroDivisionError` and the script stops, a path the model does not represent.
- Allocator.GetRates: two bounds after cent rounding are not proved. One is stake conservation: each stake `round(bet_size*value, 2)` is within `|bet_size|*0.00005 + 0.005` of its exact share, so the stakes sum to `bet_size` up to that much per outcome. The other is how far the rounded payouts of different outcomes drift apart, which grows with the prices. The solver could not close either proof through the nested roundings, so only the fraction-level bounds (`FractionSumNearExact`, `CompleteSumNearOne`) are stated.
- The default `bet_size` of 100.0 in `get_rates` (parser.py:140) is not modelled: `GetRates` always takes the stake as an argument, and the only caller (parser.py:186) always passes `BET_SIZE`.
- The percentage `round(value*100, 2)` and `round(complete_sum, 2)` are formatted only for printing. The model returns the unformatted fraction and sum.

## Findings

| source | as written | input that shows it | evidently intended | confidence | as-written member | corrected member |
|---|---|---|---|---|---|---|
| parser.py:147 | The earnings in brackets are printed as `round(bet_size*margin, 2)` | Two outcomes at 2.5 with `bet_size` 100: total 0.8, printed earnings 20.0, while each allocation line at lines 153-156 nets 25.0 | The guaranteed earnings `bet_size*margin/total`, which the allocation locks in on every outcome | medium, not executed | Allocator.ReportedEarningsExample | Allocator.NetGainIsGuaranteedEarnings |

`Allocator.ReportedEarnings` defines the figure as written, and `Allocator.ReportedEarningsExample` exhibits the input on which it misses the net gain (`Allocator.ReportedEarningsMissNetGain` states the gap for every total other than 0 and 1). `Allocator.GuaranteedEarnings` defines the intended figure. `Allocator.NetGainIsGuaranteedEarnings` proves every outcome nets it, and `Allocator.GuaranteedEarningsSign` proves it positive exactly for arbitrable matches.
