/**
 * The integer-keyed L2 order book: two ordered maps from scaled price to
 * scaled quantity, updated by snapshots and deltas, queried for top of
 * book, depth-weighted prices and total depth, and walked to price a
 * hypothetical market order.
 *
 * Prices and quantities are the already-scaled integers (`u64` in the
 * program, unbounded here). The float divisions that end most queries are
 * not modelled: a query returns the integer numerator and denominator it
 * would divide.
 */
module L2 {
  import opened Wrappers
  import opened Numeric
  import opened Levels

  const MAX_DECIMALS: u8 := 8
  const DEFAULT_DECIMALS: u8 := 6

  /** The two integers a query divides (as floats) to obtain its answer. */
  datatype Ratio = Ratio(num: nat, den: nat)

  /**
   * One (price, quantity) entry of an update list, after scaling:
   * `positive` says whether the raw float quantity was greater than 0.0,
   * `price` and `quantity` are the raw values times their scale factor,
   * truncated to integers.
   */
  datatype Quote = Quote(positive: bool, price: nat, quantity: nat)

  /**
   * The scale factor fixed for a number of decimals: 10^6 when none is
   * given, 10^d for d up to 8, and no factor at all (construction panics)
   * beyond 8.
   */
  function ScaleFactor(decimals: Option<u8>): (r: Option<nat>)
    ensures r.None? <==> decimals.Some? && decimals.value > MAX_DECIMALS
    ensures decimals.None? ==> r == Some(1_000_000)
    ensures decimals.Some? && r.Some? ==> r.value == Pow10(decimals.value)
    ensures r.Some? ==> 1 <= r.value <= 100_000_000
  {
    match decimals
    case None => Some(Pow10(DEFAULT_DECIMALS))
    case Some(d) =>
      if d > MAX_DECIMALS then None
      else
        Pow10Monotone(d, 8);
        Some(Pow10(d))
  }

  /** The effect of one quote on its side: a positive quote sets its level, any other is skipped. */
  function Apply(side: Side, q: Quote): Side {
    if q.positive then side[q.price := q.quantity] else side
  }

  /** The effect of a list of quotes, applied in order. */
  function ApplyAll(side: Side, quotes: seq<Quote>): Side
    decreases |quotes|
  {
    if quotes == [] then side
    else Apply(ApplyAll(side, quotes[..|quotes| - 1]), quotes[|quotes| - 1])
  }

  /** The prices the positive quotes of a list name. */
  ghost function Prices(quotes: seq<Quote>): set<nat> {
    set i | 0 <= i < |quotes| && quotes[i].positive :: quotes[i].price
  }

  class Book {
    var bids: Side
    var asks: Side
    const priceFactor: nat
    const quantityFactor: nat

    /** An empty book; both decimal counts must be at most 8 (the program panics otherwise). */
    constructor (priceDecimals: Option<u8>, quantityDecimals: Option<u8>)
      requires ScaleFactor(priceDecimals).Some? && ScaleFactor(quantityDecimals).Some?
      ensures bids == map[] && asks == map[]
      ensures priceFactor == ScaleFactor(priceDecimals).value
      ensures quantityFactor == ScaleFactor(quantityDecimals).value
    {
      bids := map[];
      asks := map[];
      priceFactor := ScaleFactor(priceDecimals).value;
      quantityFactor := ScaleFactor(quantityDecimals).value;
    }

    /**
     * Applies an update: a snapshot first empties both sides; then each
     * positive bid quote sets its bid level and each positive ask quote
     * sets its ask level, later quotes overwriting earlier ones.
     */
    method Process(bidQuotes: seq<Quote>, askQuotes: seq<Quote>, isSnapshot: bool)
      modifies this
      ensures bids == ApplyAll(if isSnapshot then map[] else old(bids), bidQuotes)
      ensures asks == ApplyAll(if isSnapshot then map[] else old(asks), askQuotes)
    {
      if isSnapshot {
        bids := map[];
        asks := map[];
      }
      ghost var bids0, asks0 := bids, asks;
      for i := 0 to |bidQuotes|
        invariant bids == ApplyAll(bids0, bidQuotes[..i])
        invariant asks == asks0
      {
        assert bidQuotes[..i + 1][..i] == bidQuotes[..i];
        var q := bidQuotes[i];
        if q.positive {
          bids := bids[q.price := q.quantity];
        }
      }
      assert bidQuotes[..|bidQuotes|] == bidQuotes;
      for i := 0 to |askQuotes|
        invariant asks == ApplyAll(asks0, askQuotes[..i])
        invariant bids == ApplyAll(bids0, bidQuotes)
      {
        assert askQuotes[..i + 1][..i] == askQuotes[..i];
        var q := askQuotes[i];
        if q.positive {
          asks := asks[q.price := q.quantity];
        }
      }
      assert askQuotes[..|askQuotes|] == askQuotes;
    }

    /** The highest bid level, if any. */
    function BestBid(): (r: Option<(nat, nat)>)
      reads this
      ensures r.None? <==> bids == map[]
      ensures r.Some? ==> r.value.0 in bids && r.value.1 == bids[r.value.0]
      ensures r.Some? ==> forall k :: k in bids ==> k <= r.value.0
    {
      if bids == map[] then None
      else
        ExtremeExists(bids.Keys, true);
        var p :| p in bids.Keys && IsNext(bids.Keys, p, true);
        Some((p, bids[p]))
    }

    /** The lowest ask level, if any. */
    function BestAsk(): (r: Option<(nat, nat)>)
      reads this
      ensures r.None? <==> asks == map[]
      ensures r.Some? ==> r.value.0 in asks && r.value.1 == asks[r.value.0]
      ensures r.Some? ==> forall k :: k in asks ==> r.value.0 <= k
    {
      if asks == map[] then None
      else
        ExtremeExists(asks.Keys, false);
        var p :| p in asks.Keys && IsNext(asks.Keys, p, false);
        Some((p, asks[p]))
    }

    /**
     * Top-of-book prices weighted by their quantities: absent when either
     * side is empty, else (bp * bq + ap * aq) over (bq + aq).
     */
    function WeightedMidPrice(): (r: Option<Ratio>)
      reads this
      ensures r.None? <==> bids == map[] || asks == map[]
      ensures r.Some? ==> BestBid().Some? && BestAsk().Some?
      ensures r.Some? ==>
        var bid, ask := BestBid().value, BestAsk().value;
        r.value == Ratio(Cost(bid.0, bid.1) + Cost(ask.0, ask.1), bid.1 + ask.1)
    {
      match BestBid()
      case None => None
      case Some(bid) =>
        match BestAsk()
        case None => None
        case Some(ask) => Some(Ratio(Cost(bid.0, bid.1) + Cost(ask.0, ask.1), bid.1 + ask.1))
    }

    /** Full-depth weighted bid: absent on an empty side, else notional over depth. */
    method WeightedBid() returns (r: Option<Ratio>)
      ensures r.None? <==> bids == map[]
      ensures r.Some? ==> r.value == Ratio(Notional(bids), Depth(bids))
    {
      if bids == map[] {
        return None;
      }
      var numerator, totalQuantity := SideSums(bids);
      r := Some(Ratio(numerator, totalQuantity));
    }

    /** Full-depth weighted ask: absent on an empty side, else notional over depth. */
    method WeightedAsk() returns (r: Option<Ratio>)
      ensures r.None? <==> asks == map[]
      ensures r.Some? ==> r.value == Ratio(Notional(asks), Depth(asks))
    {
      if asks == map[] {
        return None;
      }
      var numerator, totalQuantity := SideSums(asks);
      r := Some(Ratio(numerator, totalQuantity));
    }

    /** Total bid depth over the quantity factor (0 for an empty side, never absent). */
    method TotalBidQuantity() returns (r: Ratio)
      ensures r == Ratio(Depth(bids), quantityFactor)
      ensures bids == map[] ==> r.num == 0
    {
      var _, totalQuantity := SideSums(bids);
      r := Ratio(totalQuantity, quantityFactor);
    }

    /** Total ask depth over the quantity factor (0 for an empty side, never absent). */
    method TotalAskQuantity() returns (r: Ratio)
      ensures r == Ratio(Depth(asks), quantityFactor)
      ensures asks == map[] ==> r.num == 0
    {
      var _, totalQuantity := SideSums(asks);
      r := Ratio(totalQuantity, quantityFactor);
    }

    /**
     * A taker buy of `scaled` units against the asks, as the program has
     * it: the walk ends with nothing left exactly when the asks hold at
     * least `scaled` units, and that is when the result is absent; when
     * the asks run out, the result is the notional of the whole side.
     */
    method SimulateTakerBuy(scaled: nat) returns (r: Option<nat>)
      ensures r.None? <==> scaled <= Depth(asks)
      ensures r.Some? ==> r.value == Notional(asks)
    {
      var remaining, numerator := Walk(asks, false, scaled);
      r := if remaining == 0 then None else Some(numerator);
      if remaining > 0 {
        FillBeyondDepth(asks, Order(asks, false), scaled);
      }
    }

    /** A taker sell of `scaled` units against the bids, as the program has it. */
    method SimulateTakerSell(scaled: nat) returns (r: Option<nat>)
      ensures r.None? <==> scaled <= Depth(bids)
      ensures r.Some? ==> r.value == Notional(bids)
    {
      var remaining, numerator := Walk(bids, true, scaled);
      r := if remaining == 0 then None else Some(numerator);
      if remaining > 0 {
        DescendingSums(bids);
        FillBeyondDepth(bids, Order(bids, true), scaled);
      }
    }

    /**
     * A taker buy with the outcome the walk evidently intends: present
     * exactly when the asks can fill the order, carrying the notional of
     * the cheapest `scaled` units.
     */
    method FillTakerBuy(scaled: nat) returns (r: Option<nat>)
      ensures r.Some? <==> scaled <= Depth(asks)
      ensures r.Some? ==> r.value == FillNotional(asks, Ascending(asks.Keys), scaled)
    {
      var remaining, numerator := Walk(asks, false, scaled);
      r := if remaining == 0 then Some(numerator) else None;
    }

    /** A taker sell with the intended outcome: the notional of the dearest `scaled` bid units. */
    method FillTakerSell(scaled: nat) returns (r: Option<nat>)
      ensures r.Some? <==> scaled <= Depth(bids)
      ensures r.Some? ==> r.value == FillNotional(bids, Descending(bids.Keys), scaled)
    {
      var remaining, numerator := Walk(bids, true, scaled);
      r := if remaining == 0 then Some(numerator) else None;
    }
  }

  /**
   * One pass over a side in ascending key order, summing price * quantity
   * and quantity, as the weighted and total queries do.
   */
  method SideSums(side: Side) returns (numerator: nat, totalQuantity: nat)
    ensures numerator == Notional(side)
    ensures totalQuantity == Depth(side)
  {
    ghost var rest := Order(side, false);
    ghost var notional, depth := NotionalOf(side, rest), DepthOf(side, rest);
    var unseen := side.Keys;
    numerator, totalQuantity := 0, 0;
    while unseen != {}
      invariant unseen == Elems(rest) && Ordered(rest, false) && Within(side, rest)
      invariant numerator + NotionalOf(side, rest) == notional
      invariant totalQuantity + DepthOf(side, rest) == depth
      decreases |rest|
    {
      NextInOrder(rest, false, unseen);
      var price: nat :| price in unseen && IsNext(unseen, price, false);
      var quantity := side[price];
      SumsStep(side, rest);
      numerator := numerator + Cost(price, quantity);
      totalQuantity := totalQuantity + quantity;
      unseen := unseen - {price};
      rest := rest[1..];
    }
    NoElems(rest);
  }

  /**
   * The walk of a taker order of `scaled` units over a side, ascending for
   * a buy and descending (`descending`) for a sell. A level holding more
   * than what remains fills the rest and ends the walk; any other level is
   * taken whole. What remains is the shortfall of the side's depth, and the
   * numerator is the reference fill notional of the walk order; a level
   * exactly equal to what remains is taken whole and contributes the same
   * as a partial take would.
   */
  method Walk(side: Side, descending: bool, scaled: nat) returns (remaining: nat, numerator: nat)
    ensures remaining == if scaled <= Depth(side) then 0 else scaled - Depth(side)
    ensures numerator == FillNotional(side, Order(side, descending), scaled)
  {
    ghost var order := Order(side, descending);
    ghost var depth := DepthOf(side, order);
    assert depth == Depth(side) by {
      if descending { DescendingSums(side); }
    }
    ghost var fill := FillNotional(side, order, scaled);
    ghost var rest := order;
    var unseen := side.Keys;
    remaining, numerator := scaled, 0;
    while unseen != {}
      invariant unseen == Elems(rest) && Ordered(rest, descending) && Within(side, rest)
      invariant numerator + FillNotional(side, rest, remaining) == fill
      invariant remaining + depth == scaled + DepthOf(side, rest)
      decreases |rest|
    {
      NextInOrder(rest, descending, unseen);
      var price: nat :| price in unseen && IsNext(unseen, price, descending);
      var quantity := side[price];
      SumsStep(side, rest);
      FillStep(side, rest, remaining);
      if quantity > remaining {
        numerator := numerator + Cost(price, remaining);
        remaining := 0;
        break;
      }
      numerator := numerator + Cost(price, quantity);
      remaining := remaining - quantity;
      unseen := unseen - {price};
      rest := rest[1..];
    }
    NoElems(rest);
  }

  // Properties of updates

  /** Applying quotes to a side overlays the side with what the same quotes build from nothing. */
  lemma {:induction false} ApplyAllOverlays(side: Side, quotes: seq<Quote>)
    ensures ApplyAll(side, quotes) == side + ApplyAll(map[], quotes)
  {
    if quotes != [] {
      var init, q := quotes[..|quotes| - 1], quotes[|quotes| - 1];
      ApplyAllOverlays(side, init);
      if q.positive {
        var built := ApplyAll(map[], init);
        assert (side + built)[q.price := q.quantity] == side + built[q.price := q.quantity];
      }
    }
  }

  lemma PricesOfPrefix(quotes: seq<Quote>)
    requires quotes != []
    ensures var init, q := quotes[..|quotes| - 1], quotes[|quotes| - 1];
      Prices(quotes) == Prices(init) + (if q.positive then {q.price} else {})
  {
    var init, q := quotes[..|quotes| - 1], quotes[|quotes| - 1];
    forall k | k in Prices(quotes) ensures k in Prices(init) || (q.positive && k == q.price) {
      var i :| 0 <= i < |quotes| && quotes[i].positive && quotes[i].price == k;
      if i < |init| {
        assert init[i] == quotes[i];
      }
    }
    forall k | k in Prices(init) ensures k in Prices(quotes) {
      var i :| 0 <= i < |init| && init[i].positive && init[i].price == k;
      assert quotes[i] == init[i];
    }
    if q.positive {
      assert quotes[|quotes| - 1] == q;
    }
  }

  /**
   * The levels after an update are the levels before it plus the prices of
   * its positive quotes: an update never removes a level, and non-positive
   * quotes add none.
   */
  lemma {:induction false} AppliedLevels(side: Side, quotes: seq<Quote>)
    ensures ApplyAll(side, quotes).Keys == side.Keys + Prices(quotes)
  {
    if quotes != [] {
      AppliedLevels(side, quotes[..|quotes| - 1]);
      PricesOfPrefix(quotes);
    }
  }

  /** After a snapshot a side holds exactly the prices of its positive quotes. */
  lemma SnapshotLevels(quotes: seq<Quote>)
    ensures ApplyAll(map[], quotes).Keys == Prices(quotes)
  {
    AppliedLevels(map[], quotes);
  }

  /** A level set by a positive quote that no later positive quote re-prices holds that quote's quantity. */
  lemma {:induction false} LastQuoteWins(side: Side, quotes: seq<Quote>, i: nat)
    requires i < |quotes| && quotes[i].positive
    requires forall j :: i < j < |quotes| && quotes[j].positive ==> quotes[j].price != quotes[i].price
    ensures quotes[i].price in ApplyAll(side, quotes)
    ensures ApplyAll(side, quotes)[quotes[i].price] == quotes[i].quantity
  {
    var init := quotes[..|quotes| - 1];
    if i < |init| {
      assert init[i] == quotes[i];
      LastQuoteWins(side, init, i);
    }
  }

  /** A level no positive quote names keeps its quantity, and an absent one stays absent. */
  lemma {:induction false} UnquotedLevel(side: Side, quotes: seq<Quote>, k: nat)
    requires k !in Prices(quotes)
    ensures k in ApplyAll(side, quotes) <==> k in side
    ensures k in side ==> ApplyAll(side, quotes)[k] == side[k]
  {
    if quotes != [] {
      PricesOfPrefix(quotes);
      UnquotedLevel(side, quotes[..|quotes| - 1], k);
    }
  }

  /** Re-applying the quotes of an update changes nothing. */
  lemma ReapplyIdempotent(side: Side, quotes: seq<Quote>)
    ensures ApplyAll(ApplyAll(side, quotes), quotes) == ApplyAll(side, quotes)
  {
    var built := ApplyAll(map[], quotes);
    ApplyAllOverlays(side, quotes);
    ApplyAllOverlays(side + built, quotes);
    assert side + built + built == side + built;
  }

  // Properties of the queries

  /** Each full-depth weighted price lies between the lowest and highest price of its side. */
  lemma WeightedWithinBook(b: Book)
    ensures b.bids != map[] ==>
      Least(b.bids.Keys) * Depth(b.bids) <= Notional(b.bids) <= b.BestBid().value.0 * Depth(b.bids)
    ensures b.asks != map[] ==>
      b.BestAsk().value.0 * Depth(b.asks) <= Notional(b.asks) <= Greatest(b.asks.Keys) * Depth(b.asks)
  {
    if b.bids != map[] {
      WeightedWithinRange(b.bids, Least(b.bids.Keys), b.BestBid().value.0);
    }
    if b.asks != map[] {
      WeightedWithinRange(b.asks, b.BestAsk().value.0, Greatest(b.asks.Keys));
    }
  }

  /** The weighted mid price lies between the best bid and the best ask prices. */
  lemma WeightedMidWithinTouch(b: Book)
    requires b.WeightedMidPrice().Some?
    ensures var r, bp, ap := b.WeightedMidPrice().value, b.BestBid().value.0, b.BestAsk().value.0;
      Min(bp, ap) * r.den <= r.num <= Max(bp, ap) * r.den
  {
    var bid, ask := b.BestBid().value, b.BestAsk().value;
    var lo, hi := Min(bid.0, ask.0), Max(bid.0, ask.0);
    MulMonotone(lo, bid.0, bid.1);
    MulMonotone(lo, ask.0, ask.1);
    MulMonotone(bid.0, hi, bid.1);
    MulMonotone(ask.0, hi, ask.1);
    assert lo * (bid.1 + ask.1) == lo * bid.1 + lo * ask.1;
    assert hi * (bid.1 + ask.1) == hi * bid.1 + hi * ask.1;
  }

  /**
   * One resting ask of 5 units at price 100. A buy of 3 units is filled by
   * it for a notional of 300, yet lies within the side's depth, which is
   * exactly when SimulateTakerBuy answers None; a buy of 10 units exceeds
   * the depth, and SimulateTakerBuy answers Some(500), the cost of the 5
   * units that exist. FillTakerBuy answers Some(300) and None.
   */
  lemma InvertedOutcomeWitness()
    ensures var asks := map[100 := 5];
      && Depth(asks) == 5 && Notional(asks) == 500
      && FillNotional(asks, Ascending(asks.Keys), 3) == 300
  {
    var asks := map[100 := 5];
    assert asks.Keys == {100};
    assert Least({100}) == 100;
    var one: set<nat> := {100};
    assert one - {100} == {};
    assert Ascending({100}) == [100];
    assert [100][1..] == [];
  }
}
