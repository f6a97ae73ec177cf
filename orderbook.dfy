/**
 * The priority-queue order book: each side is a queue of price levels whose
 * priority is the level's integer key (bids) or its negation (asks), so that
 * the head of either queue is the best level. Queries read the heads; a
 * market-order simulation pops a copy of one side until the order is filled.
 *
 * Prices and quantities are exact reals here; the program computes them in
 * `f32`. A queue is modelled as the sequence of its entries in the order it
 * pops them (strictly decreasing priority), and results that the program
 * divides are returned as their two operands.
 */
module Orderbook {
  import opened Wrappers
  import opened Numeric

  /**
   * A price level. The program compares levels by key only; the model keeps
   * the keys of one side distinct (see `Add`), so that comparison never has
   * to tell two levels with the same key apart.
   */
  datatype Level = Level(key: nat, price: real, quantity: real)

  /** A queued level and the priority it was pushed with. */
  datatype Entry = Entry(level: Level, priority: int)

  /** A simulated fill: average price notional / amount, and the price of the last level touched. */
  datatype Fill = Fill(notional: real, amount: real, worstPrice: real)

  /** A depth-weighted price: sum / quantity. */
  datatype Weighted = Weighted(sum: real, quantity: real)

  /**
   * The key of a price: price times the key factor, rounded half away from
   * zero, then cast to `u32` (negative values become 0, values past the
   * range become the largest `u32`).
   */
  function KeyOf(price: real, factor: nat): (k: nat)
    ensures k <= U32_MAX
    ensures var x := price * (factor as real);
      && (x <= 0.0 ==> k == 0)
      && (0.0 <= x < U32_MAX as real ==> x - 0.5 < k as real <= x + 0.5)
      && (x >= U32_MAX as real ==> k == U32_MAX)
  {
    var x := price * (factor as real);
    if x <= 0.0 then 0
    else
      var n := (x + 0.5).Floor;
      if n >= U32_MAX then U32_MAX else n
  }

  /** A queue in pop order: strictly decreasing priority. */
  ghost predicate Ordered(q: seq<Entry>) {
    forall i, j :: 0 <= i < j < |q| ==> q[i].priority > q[j].priority
  }

  /**
   * Pushing an entry whose priority is not yet queued: the queue holds the
   * old entries and the new one, still in pop order.
   */
  function Push(q: seq<Entry>, e: Entry): (r: seq<Entry>)
    requires Ordered(q)
    requires forall x :: x in q ==> x.priority != e.priority
    ensures Ordered(r)
    ensures multiset(r) == multiset(q) + multiset{e}
  {
    if q == [] || e.priority > q[0].priority then
      HeadAbove(q, e);
      ConsOrdered(e, q);
      [e] + q
    else
      var tail := Push(q[1..], e);
      TailBelow(q, e, tail);
      ConsOrdered(q[0], tail);
      assert q == [q[0]] + q[1..];
      [q[0]] + tail
  }

  /** An entry placed before a queue of lower priorities keeps the pop order. */
  lemma ConsOrdered(h: Entry, t: seq<Entry>)
    requires Ordered(t)
    requires forall x :: x in t ==> x.priority < h.priority
    ensures Ordered([h] + t)
  {
    forall i, j | 0 <= i < j < |[h] + t|
      ensures ([h] + t)[i].priority > ([h] + t)[j].priority
    {
      assert ([h] + t)[j] == t[j - 1];
      if i > 0 {
        assert ([h] + t)[i] == t[i - 1];
      }
    }
  }

  /** An entry above the head of a queue is above every entry of it. */
  lemma HeadAbove(q: seq<Entry>, e: Entry)
    requires Ordered(q)
    requires q == [] || e.priority > q[0].priority
    ensures forall x :: x in q ==> x.priority < e.priority
  {
    forall x | x in q ensures x.priority < e.priority {
      var k :| 0 <= k < |q| && q[k] == x;
    }
  }

  /** The head of a queue stays above the rest after a lower entry joins it. */
  lemma TailBelow(q: seq<Entry>, e: Entry, tail: seq<Entry>)
    requires Ordered(q) && q != [] && e.priority < q[0].priority
    requires multiset(tail) == multiset(q[1..]) + multiset{e}
    ensures forall x :: x in tail ==> x.priority < q[0].priority
  {
    forall x | x in tail ensures x.priority < q[0].priority {
      assert x in multiset(tail);
      if x != e {
        assert x in multiset(q[1..]);
        var k :| 0 <= k < |q[1..]| && q[1..][k] == x;
        assert q[k + 1] == x;
      }
    }
  }

  /** Total quantity of the first `n` entries. */
  ghost function Cum(q: seq<Entry>, n: nat): real
    requires n <= |q|
  {
    if n == 0 then 0.0 else Cum(q, n - 1) + q[n - 1].level.quantity
  }

  /** Sum of price * quantity over the first `n` entries. */
  ghost function Spent(q: seq<Entry>, n: nat): real
    requires n <= |q|
  {
    if n == 0 then 0.0 else Spent(q, n - 1) + q[n - 1].level.price * q[n - 1].level.quantity
  }

  /**
   * A walk for `amount` units stops at entry `i`: the entries before it
   * together hold less than the amount at every step, and with entry `i`
   * they hold at least the amount.
   */
  ghost predicate StopsAt(q: seq<Entry>, amount: real, i: nat) {
    && i < |q|
    && amount <= Cum(q, i + 1)
    && forall j :: 1 <= j <= i ==> Cum(q, j) < amount
  }

  /** The fill of a walk for `amount` units that stops at entry `i`. */
  ghost function FillAt(q: seq<Entry>, amount: real, i: nat): Fill
    requires i < |q|
  {
    Fill(Spent(q, i) + q[i].level.price * (amount - Cum(q, i)), amount, q[i].level.price)
  }

  class Book {
    const keyFactor: nat
    var bids: seq<Entry>
    var asks: seq<Entry>

    /** Both queues in pop order; bids keyed by key, asks by its negation. */
    ghost predicate Valid()
      reads this
    {
      && Ordered(bids) && Ordered(asks)
      && (forall x :: x in bids ==> x.priority == x.level.key)
      && (forall x :: x in asks ==> x.priority == -(x.level.key as int))
    }

    /** An empty book whose key factor is 10^decimals (the `u32` power overflows past 9). */
    constructor (decimals: u8)
      requires decimals <= 9
      ensures Valid()
      ensures keyFactor == Pow10(decimals)
      ensures bids == [] && asks == []
    {
      keyFactor := Pow10(decimals);
      bids := [];
      asks := [];
    }

    /**
     * Adds a level: side 1 pushes it on the bids with priority key, any
     * other side on the asks with priority -key. Only a key the target side
     * does not hold yet is modelled.
     */
    method Add(side: u8, price: real, quantity: real)
      requires Valid()
      requires side == 1 ==> forall x :: x in bids ==> x.level.key != KeyOf(price, keyFactor)
      requires side != 1 ==> forall x :: x in asks ==> x.level.key != KeyOf(price, keyFactor)
      modifies this
      ensures Valid()
      ensures var level := Level(KeyOf(price, keyFactor), price, quantity);
        if side == 1 then bids == Push(old(bids), Entry(level, level.key)) && asks == old(asks)
        else asks == Push(old(asks), Entry(level, -(level.key as int))) && bids == old(bids)
    {
      var key := KeyOf(price, keyFactor);
      var level := Level(key, price, quantity);
      if side == 1 {
        bids := Push(bids, Entry(level, key));
        assert forall x :: x in bids ==> x in old(bids) || x == Entry(level, key) by {
          forall x | x in bids ensures x in old(bids) || x == Entry(level, key) {
            assert x in multiset(bids);
          }
        }
      } else {
        asks := Push(asks, Entry(level, -(key as int)));
        assert forall x :: x in asks ==> x in old(asks) || x == Entry(level, -(key as int)) by {
          forall x | x in asks ensures x in old(asks) || x == Entry(level, -(key as int)) {
            assert x in multiset(asks);
          }
        }
      }
    }

    /** The head of the bids: the bid with the highest key. */
    function BestBid(): (r: Option<Level>)
      reads this
      requires Valid()
      ensures r.None? <==> bids == []
      ensures r.Some? ==> Entry(r.value, r.value.key) in bids
      ensures r.Some? ==> forall x :: x in bids ==> x.level.key <= r.value.key
    {
      if bids == [] then None else Some(bids[0].level)
    }

    /** The head of the asks: the ask with the lowest key. */
    function BestAsk(): (r: Option<Level>)
      reads this
      requires Valid()
      ensures r.None? <==> asks == []
      ensures r.Some? ==> Entry(r.value, -(r.value.key as int)) in asks
      ensures r.Some? ==> forall x :: x in asks ==> r.value.key <= x.level.key
    {
      if asks == [] then None else Some(asks[0].level)
    }

    /** The plain midpoint of the best bid and best ask prices. */
    function MidPrice(): (r: Option<real>)
      reads this
      requires Valid()
      ensures r.None? <==> bids == [] || asks == []
      ensures r.Some? ==> r.value == (BestBid().value.price + BestAsk().value.price) / 2.0
    {
      match BestBid()
      case None => None
      case Some(bid) =>
        match BestAsk()
        case None => None
        case Some(ask) => Some((bid.price + ask.price) * 0.5)
    }

    /**
     * Simulates a market order for `amount` units: side 1 walks a copy of
     * the asks, any other side a copy of the bids. The result is absent
     * exactly when the walk stops nowhere (an empty side, or every prefix of
     * the side holds less than the amount); otherwise it is the fill at the
     * entry where the walk stops, priced at that entry for what remained.
     */
    method SimulateMarketOrder(side: u8, amount: real) returns (r: Option<Fill>)
      ensures var q := if side == 1 then asks else bids;
        r.Some? <==> exists i: nat :: StopsAt(q, amount, i)
      ensures var q := if side == 1 then asks else bids;
        r.Some? ==> exists i: nat :: StopsAt(q, amount, i) && r.value == FillAt(q, amount, i)
    {
      var clone := if side == 1 then asks else bids;
      ghost var q := clone;
      if clone == [] {
        return None;
      }
      var remaining := amount;
      var execution := 0.0;
      var worst: Option<real> := None;
      ghost var n := 0;
      while clone != []
        invariant n <= |q| && clone == q[n..]
        invariant remaining == amount - Cum(q, n)
        invariant execution == Spent(q, n)
        invariant forall j :: 1 <= j <= n ==> Cum(q, j) < amount
        invariant worst.None?
        invariant n > 0 ==> remaining > 0.0
      {
        var level := clone[0].level;
        assert level == q[n].level;
        if level.quantity >= remaining {
          execution := execution + level.price * remaining;
          remaining := 0.0;
          worst := Some(level.price);
          assert StopsAt(q, amount, n);
          break;
        }
        execution := execution + level.price * level.quantity;
        remaining := remaining - level.quantity;
        clone := clone[1..];
        n := n + 1;
      }
      if remaining != 0.0 {
        assert forall i: nat :: !StopsAt(q, amount, i) by {
          forall i: nat | i < |q| ensures !StopsAt(q, amount, i) {
            assert Cum(q, i + 1) < amount;
          }
        }
        return None;
      }
      r := Some(Fill(execution, amount, worst.value));
    }

    /** Depth-weighted bid price over every bid: absent on an empty side. */
    method WeightedBid() returns (r: Option<Weighted>)
      ensures r.None? <==> bids == []
      ensures r.Some? ==> r.value == Weighted(Spent(bids, |bids|), Cum(bids, |bids|))
    {
      if bids == [] {
        return None;
      }
      var quantity, sum := SideSums(bids);
      r := Some(Weighted(sum, quantity));
    }

    /** Depth-weighted ask price over every ask: absent on an empty side. */
    method WeightedAsk() returns (r: Option<Weighted>)
      ensures r.None? <==> asks == []
      ensures r.Some? ==> r.value == Weighted(Spent(asks, |asks|), Cum(asks, |asks|))
    {
      if asks == [] {
        return None;
      }
      var quantity, sum := SideSums(asks);
      r := Some(Weighted(sum, quantity));
    }
  }

  /** The accumulation loop of the weighted queries: total quantity and total quantity * price. */
  method SideSums(q: seq<Entry>) returns (quantity: real, sum: real)
    ensures quantity == Cum(q, |q|)
    ensures sum == Spent(q, |q|)
  {
    quantity, sum := 0.0, 0.0;
    for i := 0 to |q|
      invariant quantity == Cum(q, i)
      invariant sum == Spent(q, i)
    {
      var level := q[i].level;
      quantity := quantity + level.quantity;
      sum := sum + level.quantity * level.price;
    }
  }

  /** The midpoint lies between the best bid and best ask prices, whichever is lower. */
  lemma MidWithinTouch(b: Book)
    requires b.Valid() && b.MidPrice().Some?
    ensures var bid, ask, mid := b.BestBid().value.price, b.BestAsk().value.price, b.MidPrice().value;
      && (bid <= ask ==> bid <= mid <= ask)
      && (ask <= bid ==> ask <= mid <= bid)
  {
  }

  // Properties of the walk

  lemma {:induction false} CumMonotone(q: seq<Entry>, a: nat, b: nat)
    requires a <= b <= |q|
    requires forall x :: x in q ==> x.level.quantity >= 0.0
    ensures Cum(q, a) <= Cum(q, b)
  {
    if a < b {
      assert q[b - 1] in q;
      CumMonotone(q, a, b - 1);
    }
  }

  lemma {:induction false} FindStop(q: seq<Entry>, amount: real, i: nat)
    requires i < |q|
    requires forall j :: 1 <= j <= i ==> Cum(q, j) < amount
    requires amount <= Cum(q, |q|)
    ensures exists s: nat :: StopsAt(q, amount, s)
    decreases |q| - i
  {
    if amount <= Cum(q, i + 1) {
      assert StopsAt(q, amount, i);
    } else {
      FindStop(q, amount, i + 1);
    }
  }

  /**
   * With no negative quantities, a market order can be filled exactly when
   * the side is not empty and holds at least the amount: it fails closed
   * on insufficient depth.
   */
  lemma FilledIffDepth(q: seq<Entry>, amount: real)
    requires forall x :: x in q ==> x.level.quantity >= 0.0
    ensures (exists i: nat :: StopsAt(q, amount, i)) <==> q != [] && amount <= Cum(q, |q|)
  {
    if exists i: nat :: StopsAt(q, amount, i) {
      var i: nat :| StopsAt(q, amount, i);
      CumMonotone(q, i + 1, |q|);
    }
    if q != [] && amount <= Cum(q, |q|) {
      FindStop(q, amount, 0);
    }
  }

  /** The walk stops at one entry at most, so a fill is determined by the side and the amount. */
  lemma StopIsUnique(q: seq<Entry>, amount: real, i: nat, j: nat)
    requires StopsAt(q, amount, i) && StopsAt(q, amount, j)
    ensures i == j
  {
  }

  lemma {:induction false} CumBelowTotal(q: seq<Entry>, j: nat)
    requires j < |q|
    requires forall x :: x in q ==> x.level.quantity > 0.0
    ensures Cum(q, j) < Cum(q, |q|)
  {
    if j < |q| - 1 {
      CumBelowTotal(q[..|q| - 1], j);
      assert q[|q| - 1] in q;
      assert forall k: nat :: k <= |q| - 1 ==> Cum(q[..|q| - 1], k) == Cum(q, k) by {
        forall k: nat | k <= |q| - 1 ensures Cum(q[..|q| - 1], k) == Cum(q, k) {
          CumOfPrefix(q, |q| - 1, k);
        }
      }
    } else {
      assert q[j] in q;
    }
  }

  lemma {:induction false} CumOfPrefix(q: seq<Entry>, m: nat, k: nat)
    requires k <= m <= |q|
    ensures Cum(q[..m], k) == Cum(q, k)
  {
    if k > 0 {
      CumOfPrefix(q, m, k - 1);
    }
  }

  /**
   * With positive quantities, an order for exactly the side's depth stops
   * at the last entry and costs the side's whole notional: its average
   * price is the side's depth-weighted price.
   */
  lemma ExactDepthFill(q: seq<Entry>)
    requires q != []
    requires forall x :: x in q ==> x.level.quantity > 0.0
    ensures StopsAt(q, Cum(q, |q|), |q| - 1)
    ensures var last := q[|q| - 1].level;
      Spent(q, |q| - 1) + last.price * (Cum(q, |q|) - Cum(q, |q| - 1)) == Spent(q, |q|)
  {
    forall j | 1 <= j <= |q| - 1 ensures Cum(q, j) < Cum(q, |q|) {
      CumBelowTotal(q, j);
    }
  }

  /**
   * With no negative quantities and every price in [lo, hi], the weighted
   * sum lies between lo and hi times the quantity: a depth-weighted price
   * stays within the range of the prices it averages.
   */
  lemma {:induction false} WeightedWithinPrices(q: seq<Entry>, n: nat, lo: real, hi: real)
    requires n <= |q|
    requires forall x :: x in q ==> x.level.quantity >= 0.0 && lo <= x.level.price <= hi
    ensures lo * Cum(q, n) <= Spent(q, n) <= hi * Cum(q, n)
  {
    if n > 0 {
      WeightedWithinPrices(q, n - 1, lo, hi);
      var level := q[n - 1].level;
      assert q[n - 1] in q;
      EntryBetween(lo, hi, level.price, level.quantity, Cum(q, n - 1), Spent(q, n - 1));
    }
  }

  /** Adding one entry priced in [lo, hi] keeps the weighted sum between lo and hi times the quantity. */
  lemma EntryBetween(lo: real, hi: real, p: real, w: real, quantity: real, sum: real)
    requires lo <= p <= hi && w >= 0.0
    requires lo * quantity <= sum <= hi * quantity
    ensures lo * (quantity + w) <= sum + p * w <= hi * (quantity + w)
  {
    assert (p - lo) * w >= 0.0;
    assert (hi - p) * w >= 0.0;
    assert lo * (quantity + w) == lo * quantity + lo * w;
    assert hi * (quantity + w) == hi * quantity + hi * w;
  }
}
