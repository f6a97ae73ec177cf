/**
 * One side of an integer-keyed book: a map from scaled price to scaled
 * quantity, as an ordered map holds it. The map itself has no order; the
 * ghost views Ascending and Descending give the order in which the ordered
 * map's iterator (and its reverse) visits the keys, and the sums below are
 * taken along such an order.
 */
module Levels {

  /** Scaled price -> scaled quantity. */
  type Side = map<nat, nat>

  ghost predicate Increasing(s: seq<nat>) {
    forall i, j :: 0 <= i < j < |s| ==> s[i] < s[j]
  }

  ghost predicate Decreasing(s: seq<nat>) {
    forall i, j :: 0 <= i < j < |s| ==> s[i] > s[j]
  }

  /** The order of a forward (ascending) or reverse (descending) walk. */
  ghost predicate Ordered(s: seq<nat>, descending: bool) {
    if descending then Decreasing(s) else Increasing(s)
  }

  /** `k` is the key an in-order walk visits next among the keys in `unseen`. */
  predicate IsNext(unseen: set<nat>, k: nat, descending: bool) {
    if descending then forall j | j in unseen :: j <= k
    else forall j | j in unseen :: k <= j
  }

  ghost function Elems(s: seq<nat>): set<nat> {
    set k | k in s
  }

  lemma NoElems(s: seq<nat>)
    ensures Elems(s) == {} <==> s == []
  {
    if s != [] {
      assert s[0] in Elems(s);
    }
  }

  lemma {:induction false} ExtremeExists(keys: set<nat>, descending: bool)
    requires keys != {}
    ensures exists k :: k in keys && IsNext(keys, k, descending)
  {
    var x :| x in keys;
    if keys == {x} {
      assert IsNext(keys, x, descending);
    } else {
      var rest := keys - {x};
      ExtremeExists(rest, descending);
      var y :| y in rest && IsNext(rest, y, descending);
      var best := if descending then (if y < x then x else y) else (if x < y then x else y);
      forall j | j in keys
        ensures if descending then j <= best else best <= j
      {
        if j != x {
          assert j in rest;
        }
      }
      assert best in keys && IsNext(keys, best, descending);
    }
  }

  /** The smallest key of a non-empty key set. */
  ghost function Least(keys: set<nat>): (k: nat)
    requires keys != {}
    ensures k in keys && IsNext(keys, k, false)
  {
    ExtremeExists(keys, false);
    var k :| k in keys && IsNext(keys, k, false); k
  }

  /** The largest key of a non-empty key set. */
  ghost function Greatest(keys: set<nat>): (k: nat)
    requires keys != {}
    ensures k in keys && IsNext(keys, k, true)
  {
    ExtremeExists(keys, true);
    var k :| k in keys && IsNext(keys, k, true); k
  }

  /** The keys in the order a forward walk of an ordered map visits them. */
  ghost function Ascending(keys: set<nat>): (s: seq<nat>)
    ensures Increasing(s)
    ensures Elems(s) == keys
    decreases keys
  {
    if keys == {} then []
    else
      var k := Least(keys);
      var rest := Ascending(keys - {k});
      assert forall j :: 0 <= j < |rest| ==> rest[j] in keys - {k};
      assert Elems([k] + rest) == {k} + Elems(rest) by {
        assert forall x :: x in [k] + rest <==> x == k || x in rest;
      }
      [k] + rest
  }

  function Reverse(s: seq<nat>): (r: seq<nat>)
    ensures |r| == |s|
    ensures forall i :: 0 <= i < |s| ==> r[i] == s[|s| - 1 - i]
  {
    if s == [] then [] else Reverse(s[1..]) + [s[0]]
  }

  /** The keys in the order a reverse walk of an ordered map visits them. */
  ghost function Descending(keys: set<nat>): (s: seq<nat>)
    ensures Decreasing(s)
    ensures Elems(s) == keys
  {
    var up := Ascending(keys);
    ReverseFlips(up);
    Reverse(up)
  }

  /** Reversing an increasing sequence gives a decreasing one with the same elements. */
  lemma ReverseFlips(up: seq<nat>)
    requires Increasing(up)
    ensures Decreasing(Reverse(up))
    ensures Elems(Reverse(up)) == Elems(up)
  {
    var s := Reverse(up);
    forall k | k in s ensures k in up {
      var i :| 0 <= i < |s| && s[i] == k;
      assert up[|up| - 1 - i] == k;
    }
    forall k | k in up ensures k in s {
      var i :| 0 <= i < |up| && up[i] == k;
      assert s[|up| - 1 - i] == k;
    }
  }

  /** The walk order of a side: ascending keys, or descending keys for a reverse walk. */
  ghost function Order(side: Side, descending: bool): (s: seq<nat>)
    ensures Ordered(s, descending)
    ensures Elems(s) == side.Keys
  {
    if descending then Descending(side.Keys) else Ascending(side.Keys)
  }

  /**
   * Walking the keys `rest` still to come, with `unseen` the keys not yet
   * visited: the key an in-order walk picks next is `rest[0]`, and what
   * remains unseen after it is the rest of `rest`.
   */
  lemma NextInOrder(rest: seq<nat>, descending: bool, unseen: set<nat>)
    requires Ordered(rest, descending)
    requires rest != [] && unseen == Elems(rest)
    ensures rest[0] in unseen && IsNext(unseen, rest[0], descending)
    ensures forall k :: k in unseen && IsNext(unseen, k, descending) ==> k == rest[0]
    ensures unseen - {rest[0]} == Elems(rest[1..])
    ensures Ordered(rest[1..], descending)
  {
    forall j | j in unseen
      ensures if descending then j <= rest[0] else rest[0] <= j
    {
      var t :| 0 <= t < |rest| && rest[t] == j;
    }
    forall k | k in Elems(rest[1..]) ensures k in unseen - {rest[0]} {
      var t :| 0 <= t < |rest[1..]| && rest[1..][t] == k;
      assert rest[1 + t] == k;
    }
    forall k | k in unseen - {rest[0]} ensures k in Elems(rest[1..]) {
      var t :| 0 <= t < |rest| && rest[t] == k;
      assert t != 0 && rest[1..][t - 1] == k;
    }
  }

  /** Every key of `ks` is a level of `side`. */
  ghost predicate Within(side: Side, ks: seq<nat>) {
    forall k :: k in ks ==> k in side
  }

  /** Sum of the quantities at the keys `ks`. */
  ghost function DepthOf(side: Side, ks: seq<nat>): nat
    requires Within(side, ks)
  {
    if ks == [] then 0 else side[ks[0]] + DepthOf(side, ks[1..])
  }

  /** What `quantity` units at `price` cost, in scaled units. */
  function Cost(price: nat, quantity: nat): nat {
    price * quantity
  }

  /** Sum of price * quantity at the keys `ks`. */
  ghost function NotionalOf(side: Side, ks: seq<nat>): nat
    requires Within(side, ks)
  {
    if ks == [] then 0 else Cost(ks[0], side[ks[0]]) + NotionalOf(side, ks[1..])
  }

  /** Peeling the first key off a walk: the sums split into that level and the rest. */
  lemma SumsStep(side: Side, rest: seq<nat>)
    requires Within(side, rest) && rest != []
    ensures Within(side, rest[1..])
    ensures DepthOf(side, rest) == side[rest[0]] + DepthOf(side, rest[1..])
    ensures NotionalOf(side, rest) == Cost(rest[0], side[rest[0]]) + NotionalOf(side, rest[1..])
  {
    assert forall k :: k in rest[1..] ==> k in rest;
  }

  /** Total depth of a side: the sum of all its quantities. */
  ghost function Depth(side: Side): nat {
    DepthOf(side, Ascending(side.Keys))
  }

  /** Total notional of a side: the sum of price * quantity over all its levels. */
  ghost function Notional(side: Side): nat {
    NotionalOf(side, Ascending(side.Keys))
  }

  function Min(a: nat, b: nat): nat {
    if a <= b then a else b
  }

  function Max(a: nat, b: nat): nat {
    if a <= b then b else a
  }

  /**
   * Reference definition of a fill: the notional paid for `amount` units
   * when each level of `ks`, in order, gives up as much as is still wanted
   * (all of it, or the rest of the order).
   */
  ghost function FillNotional(side: Side, ks: seq<nat>, amount: nat): nat
    requires Within(side, ks)
  {
    if ks == [] then 0
    else
      var take := Min(side[ks[0]], amount);
      Cost(ks[0], take) + FillNotional(side, ks[1..], amount - take)
  }

  lemma {:induction false} FillNothing(side: Side, ks: seq<nat>)
    requires Within(side, ks)
    ensures FillNotional(side, ks, 0) == 0
  {
    if ks != [] {
      FillNothing(side, ks[1..]);
    }
  }

  /**
   * One level of a walk against what remains of an order: a level holding
   * more than what remains fills it (and the walk's keys hold more than
   * what remains); any other level is taken whole.
   */
  lemma FillStep(side: Side, rest: seq<nat>, remaining: nat)
    requires Within(side, rest) && rest != []
    ensures Within(side, rest[1..])
    ensures side[rest[0]] > remaining ==>
      FillNotional(side, rest, remaining) == Cost(rest[0], remaining) && remaining < DepthOf(side, rest)
    ensures side[rest[0]] <= remaining ==>
      FillNotional(side, rest, remaining) == Cost(rest[0], side[rest[0]]) + FillNotional(side, rest[1..], remaining - side[rest[0]])
  {
    SumsStep(side, rest);
    FillNothing(side, rest[1..]);
  }

  /** An order at least as large as the depth of `ks` takes every level whole. */
  lemma {:induction false} FillBeyondDepth(side: Side, ks: seq<nat>, amount: nat)
    requires Within(side, ks)
    requires DepthOf(side, ks) <= amount
    ensures FillNotional(side, ks, amount) == NotionalOf(side, ks)
  {
    if ks != [] {
      FillBeyondDepth(side, ks[1..], amount - side[ks[0]]);
    }
  }

  lemma {:induction false} SumsAppend(side: Side, a: seq<nat>, b: seq<nat>)
    requires Within(side, a) && Within(side, b)
    ensures Within(side, a + b)
    ensures DepthOf(side, a + b) == DepthOf(side, a) + DepthOf(side, b)
    ensures NotionalOf(side, a + b) == NotionalOf(side, a) + NotionalOf(side, b)
  {
    if a != [] {
      assert (a + b)[1..] == a[1..] + b;
      SumsAppend(side, a[1..], b);
    } else {
      assert a + b == b;
    }
  }

  /** Depth and notional do not depend on the direction of the walk. */
  lemma {:induction false} SumsReverse(side: Side, ks: seq<nat>)
    requires Within(side, ks)
    ensures Within(side, Reverse(ks))
    ensures DepthOf(side, Reverse(ks)) == DepthOf(side, ks)
    ensures NotionalOf(side, Reverse(ks)) == NotionalOf(side, ks)
  {
    if ks != [] {
      SumsReverse(side, ks[1..]);
      var one := [ks[0]];
      assert DepthOf(side, one) == side[ks[0]] && NotionalOf(side, one) == Cost(ks[0], side[ks[0]]) by {
        assert one[1..] == [];
      }
      SumsAppend(side, Reverse(ks[1..]), one);
    }
  }

  /** A reverse walk sees the same total depth and notional as a forward walk. */
  lemma DescendingSums(side: Side)
    ensures Within(side, Descending(side.Keys))
    ensures DepthOf(side, Descending(side.Keys)) == Depth(side)
    ensures NotionalOf(side, Descending(side.Keys)) == Notional(side)
  {
    SumsReverse(side, Ascending(side.Keys));
  }

  /**
   * When every price in `ks` lies in [lo, hi], the notional lies between
   * lo and hi times the depth: a depth-weighted average price stays within
   * the range of the prices it averages.
   */
  lemma {:induction false} NotionalBounds(side: Side, ks: seq<nat>, lo: nat, hi: nat)
    requires Within(side, ks)
    requires forall k :: k in ks ==> lo <= k <= hi
    ensures lo * DepthOf(side, ks) <= NotionalOf(side, ks) <= hi * DepthOf(side, ks)
  {
    if ks != [] {
      assert forall k :: k in ks[1..] ==> k in ks;
      NotionalBounds(side, ks[1..], lo, hi);
      var p, q := ks[0], side[ks[0]];
      assert p in ks;
      LevelBounds(lo, hi, p, q, DepthOf(side, ks[1..]), NotionalOf(side, ks[1..]));
    }
  }

  /** Adding one level of price p in [lo, hi] keeps the notional between lo and hi times the depth. */
  lemma LevelBounds(lo: nat, hi: nat, p: nat, q: nat, depth: nat, notional: nat)
    requires lo <= p <= hi
    requires lo * depth <= notional <= hi * depth
    ensures lo * (q + depth) <= p * q + notional <= hi * (q + depth)
  {
    MulMonotone(lo, p, q);
    MulMonotone(p, hi, q);
    assert lo * (q + depth) == lo * q + lo * depth;
    assert hi * (q + depth) == hi * q + hi * depth;
  }

  lemma MulMonotone(a: nat, b: nat, c: nat)
    requires a <= b
    ensures a * c <= b * c
  {
    assert b * c == a * c + (b - a) * c;
  }

  /** Depth-weighted average of a whole side lies within its price range. */
  lemma WeightedWithinRange(side: Side, lo: nat, hi: nat)
    requires forall k :: k in side ==> lo <= k <= hi
    ensures lo * Depth(side) <= Notional(side) <= hi * Depth(side)
  {
    var ks := Ascending(side.Keys);
    assert forall k :: k in ks ==> k in Elems(ks);
    NotionalBounds(side, ks, lo, hi);
  }
}
