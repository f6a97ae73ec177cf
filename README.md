# Order book model

A Dafny model of a small Rust order-book library. The library has two books.

- **The L2 book** (`src/l2.rs`) keeps two ordered maps, bids and asks. Each map goes from a scaled integer price to a scaled integer quantity. The book is updated by snapshots, which replace both sides, and by deltas, which upsert levels. It answers these queries:
  - best bid and best ask;
  - a quantity-weighted mid price;
  - full-depth weighted bid and ask prices;
  - total depth per side;
  - simulated taker buys and sells, which walk the asks upward or the bids downward.
- **The priority-queue book** (`src/orderbook.rs`) keeps each side as a priority queue of price levels. Bids are prioritised by their integer key and asks by the negated key. The queue head is the best level. A market-order simulation pops a copy of one side until the order is filled.

Modules:

- `Wrappers` holds `Option`.
- `Numeric` holds `u8`, `Pow10` and the `u32` bound.
- `Levels` holds the ordered-key view of an integer side: the keys in ascending or descending order, depth, notional, and the reference fill notional of a walk.
- `L2` models `src/l2.rs` as the class `L2.Book` over two `map<nat, nat>` fields.
- `Orderbook` models `src/orderbook.rs` as the class `Orderbook.Book` over two queues. Each queue is written as the sequence of its entries in pop order.

The iteration order of the Rust `BTreeMap` is modelled as follows. Each loop picks the least (or greatest) key that it has not yet visited. A ghost sorted sequence of the keys ties the loop to the reference sums.

Updates arrive as `Quote(positive, price, quantity)` values. `positive` says whether the raw float quantity was above zero. `price` and `quantity` are the already-scaled, truncated integers.

## Model

| member | source | states |
|---|---|---|
| Numeric.Pow10 | src/l2.rs:27-40 | 10^n is at least 1 |
| L2.ScaleFactor | src/l2.rs:19-56 | The result is absent exactly when a supplied decimal count exceeds 8 (the panic). With no count the factor is 10^6, otherwise 10^d. Every factor lies in [1, 10^8]. |
| L2.Book.constructor | src/l2.rs:23-56 | A new book has empty sides, and its two factors are the scale factors of the two decimal counts |
| L2.Book.Process | src/l2.rs:62-81 | After an update, bids are the bid quotes applied in order to the old bids (or to an empty side for a snapshot). The same holds for asks with the ask quotes. The bid list touches only bids and the ask list only asks. |
| L2.ApplyAllOverlays | src/l2.rs:67-80 | Applying quotes to a side equals the side overlaid with what the same quotes build from an empty side |
| L2.AppliedLevels | src/l2.rs:67-80 | The levels after an update are exactly the old levels plus the prices of the positive quotes. A delta never removes a level, and non-positive quotes add none. |
| L2.SnapshotLevels | src/l2.rs:63-80 | After a snapshot, a side holds exactly the prices of its positive quotes |
| L2.LastQuoteWins | src/l2.rs:67-80 | A price takes the quantity of the last positive quote naming it |
| L2.UnquotedLevel | src/l2.rs:67-80 | A price that no positive quote names keeps its presence and its quantity |
| L2.ReapplyIdempotent | src/l2.rs:62-81 | Applying the same quotes twice gives the same side as applying them once. This covers the same snapshot twice. |
| L2.Book.BestBid | src/l2.rs:83-88 | Absent exactly when bids are empty; otherwise a held level whose price is the maximum bid key, with that level's quantity |
| L2.Book.BestAsk | src/l2.rs:90-95 | Absent exactly when asks are empty; otherwise a held level whose price is the minimum ask key, with that level's quantity |
| L2.Book.WeightedMidPrice | src/l2.rs:97-109 | Absent exactly when either side is empty; otherwise the ratio (bp*bq + ap*aq) / (bq + aq) of the best levels |
| L2.WeightedMidWithinTouch | src/l2.rs:97-109 | The weighted mid ratio lies between the lower and the higher of the best bid and best ask prices |
| L2.SideSums | src/l2.rs:115-120 | The accumulation loop in key order yields the side's notional (sum of price*qty) and its depth (sum of qty) |
| L2.Book.WeightedBid | src/l2.rs:111-122 | Absent exactly when bids are empty; otherwise notional over depth of the whole bid side |
| L2.Book.WeightedAsk | src/l2.rs:124-135 | Absent exactly when asks are empty; otherwise notional over depth of the whole ask side |
| Levels.WeightedWithinRange | src/l2.rs:115-120 | If every price of a side lies in [lo, hi], then lo*depth <= notional <= hi*depth |
| L2.WeightedWithinBook | src/l2.rs:111-135 | The full-depth weighted bid lies between the lowest bid and the best bid. The weighted ask lies between the best ask and the highest ask. |
| L2.Book.TotalBidQuantity | src/l2.rs:137-143 | The ratio of bid depth to the quantity factor. It is never absent, and its numerator is 0 on an empty side. |
| L2.Book.TotalAskQuantity | src/l2.rs:145-151 | The ratio of ask depth to the quantity factor. It is never absent, and its numerator is 0 on an empty side. |
| L2.Walk | src/l2.rs:155-165 | The walk leaves max(0, scaled - depth) units unfilled. Its numerator equals the reference fill notional over the keys in walk order. That reference takes min(level, remaining) at each level, so the `>` boundary and the equal case contribute alike. |
| Levels.DescendingSums | src/l2.rs:176 | Walking bids in descending order sees the same depth and notional as the ascending order |
| Levels.FillBeyondDepth | src/l2.rs:157-165 | When the request reaches the whole depth, the fill notional is the whole side's notional |
| L2.Book.SimulateTakerBuy | src/l2.rs:153-170 | As written: absent exactly when the asks hold at least the requested units. When present, the value is the notional of every ask. Both maps stay unchanged. |
| L2.Book.SimulateTakerSell | src/l2.rs:172-189 | As written: absent exactly when the bids hold at least the requested units. When present, the value is the notional of every bid. Both maps stay unchanged. |
| L2.Book.FillTakerBuy | src/l2.rs:153-170 | Corrected: present exactly when the asks can fill the order. The value is the notional of the cheapest `scaled` units. |
| L2.Book.FillTakerSell | src/l2.rs:172-189 | Corrected: present exactly when the bids can fill the order. The value is the notional of the dearest `scaled` units. |
| L2.InvertedOutcomeWitness | src/l2.rs:166-167 | For asks {100: 5}, the depth is 5, the notional 500, and a 3-unit fill costs 300. The as-written outcome is therefore None for 3 units and Some(500) for 10. |
| Orderbook.KeyOf | src/orderbook.rs:49-50 | The key is the price times the factor rounded to nearest, then saturated into u32: 0 at or below zero, within 0.5 of the product in range, and the u32 maximum above the range |
| Orderbook.Push | src/orderbook.rs:57-60 | Pushing an entry whose priority is new keeps pop order (strictly decreasing priority). The queue then holds the old entries plus the new one. |
| Orderbook.Book.constructor | src/orderbook.rs:38-45 | The key factor is 10^decimals and both queues start empty |
| Orderbook.Book.Add | src/orderbook.rs:47-62 | Side 1 pushes the level on the bids with priority key. Any other side value pushes it on the asks with priority -key. The other queue is unchanged, and the queue invariant is kept. |
| Orderbook.Book.BestBid | src/orderbook.rs:68-74 | Absent exactly when bids are empty; otherwise a queued bid with the highest key |
| Orderbook.Book.BestAsk | src/orderbook.rs:76-82 | Absent exactly when asks are empty; otherwise a queued ask with the lowest key |
| Orderbook.Book.MidPrice | src/orderbook.rs:84-96 | Absent exactly when either side is empty; otherwise (bid.price + ask.price) / 2 |
| Orderbook.MidWithinTouch | src/orderbook.rs:84-96 | The mid price lies between the best bid and best ask prices |
| Orderbook.Book.SimulateMarketOrder | src/orderbook.rs:98-131 | Side 1 walks the asks and any other side the bids, in pop order. The result is present exactly when the walk stops at some level, i.e. the first level at which the cumulative quantity reaches the amount (`>=`). It is then the fill at that level: notional = what earlier levels cost plus that level's price times what remained; worst price = that level's price. The queues are unchanged. |
| Orderbook.FilledIffDepth | src/orderbook.rs:107-130 | With non-negative quantities, the walk stops somewhere exactly when the side is non-empty and holds at least the amount. It fails closed when depth runs out. |
| Orderbook.StopIsUnique | src/orderbook.rs:113-122 | The walk stops at one level at most, so the fill is determined |
| Orderbook.ExactDepthFill | src/orderbook.rs:113-130 | With positive quantities, an order for the exact depth stops at the last level and costs the side's whole notional |
| Orderbook.SideSums | src/orderbook.rs:137-143 | The accumulation loop yields the total quantity and the total quantity*price of the queue |
| Orderbook.Book.WeightedBid | src/orderbook.rs:133-145 | Absent exactly when bids are empty; otherwise sum of q*p over sum of q for all bids |
| Orderbook.Book.WeightedAsk | src/orderbook.rs:147-159 | Absent exactly when asks are empty; otherwise sum of q*p over sum of q for all asks |
| Orderbook.WeightedWithinPrices | src/orderbook.rs:137-144 | With non-negative quantities and prices in [lo, hi], the weighted sum lies between lo and hi times the quantity |

## Left out

- Float conversions in `src/l2.rs` are not modelled:
  - the `f64` scale-and-truncate casts of prices, quantities and requested amounts, because an update is given as already scaled integers (`Quote`) and a request as its scaled amount;
  - the final `as f64` divisions, because queries return the integer numerator and denominator (`Ratio`);
  - `f64::powf`, because the factor is the exact integer 10^d.
- L2.Book.SimulateTakerBuy and the other simulators return the price numerator only. The division by `quantity_factor * quantity` is left out, because it is float arithmetic.
- `u64` overflow or panic in the `price * quantity` and quantity sums is not modelled, because integers are unbounded.
- `f32` arithmetic in `src/orderbook.rs` is replaced by exact reals, including the 0.5 midpoint factor and the running `amount_remaining`. Rounding errors, NaN and infinities are therefore not modelled. In particular, `amount_remaining != 0.0` after an exhausted walk is exact here.
- The divisions `execution_price / simulation_amount` and `sum / quantity` are left out: a fill is returned as (notional, amount, worst price) and a weighted price as (sum, quantity). A 0/0 NaN (zero quantities, or a zero amount) is not modelled.
- Orderbook.Book.Add: models only a key that the target side does not yet hold. What the priority-queue crate's `push` does with an equal key lives in that crate, which is not part of this model.
- Orderbook.Book.constructor: requires decimals <= 9, because `10u32.pow` overflows beyond that.
- `Orderbook.Book.WeightedBid` and `WeightedAsk` sum in pop order. The crate's `iter()` order is arbitrary, which does not change an exact sum.
- The `Hash`/`PartialEq` impls of `PriceLevel` are not modelled beyond identity by key: distinct queued levels have distinct keys.
- The `get_bids`/`get_asks` accessors are not modelled; they only return the queues.
- `src/main.rs` is a printing demo and is not part of this model.
- The model follows the code in two behaviours an order book might be expected not to have:
  - a non-positive quantity is skipped rather than deleting its level;
  - a positive quantity that truncates to 0 is stored as a zero level.

## Findings

| source | as written | input that shows it | evidently intended | confidence | as-written member | corrected member |
|---|---|---|---|---|---|---|
| src/l2.rs:166-169, 185-188 | The result is `None` when `amount_remaining` is 0, i.e. when the order was filled; it is `Some` when the side ran out | With asks {100: 5}, a buy of 3 scaled units fills for 300 but answers None; a buy of 10 answers Some(500) although only 5 units exist | `Some` with the fill's notional when the order is filled, `None` when depth runs out | not executed | L2.Book.SimulateTakerBuy | L2.Book.FillTakerBuy |
