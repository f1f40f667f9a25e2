/** Orders of the chapati ordering form: the order record, the price rule and
    the lazy expiry filter that each cleanup of the order file applies.

    Timestamps are whole microseconds on one clock: `datetime.isoformat()` in
    moo_chapatis.py keeps microseconds, and the expiry test compares them. */
module Orders {

  /** Price of one item, in shillings. */
  const UnitPrice: int := 20

  /** One minute, in microseconds. */
  const Minute: int := 60 * 1000000

  /** How long an order stays on the board: four hours, in microseconds. */
  const Retention: int := 4 * 60 * Minute

  /** One order as it is stored in the order file. */
  datatype Order = Order(
    product: string,
    quantity: int,
    totalPrice: int,
    location: string,
    createdAt: int,
    expiresAt: int)

  /** The price the order form charges: no validation of the quantity, so a
      quantity of 0 costs 0 and a negative quantity gives a negative price.
      The price always determines the quantity back. */
  function TotalPrice(quantity: int): (price: int)
    ensures price % UnitPrice == 0 && price / UnitPrice == quantity
    ensures quantity >= 1 ==> price >= UnitPrice
    ensures quantity == 0 <==> price == 0
    ensures quantity < 0 <==> price < 0
  {
    quantity * UnitPrice
  }

  /** The record a new order is stored as. moo_chapatis.py reads the clock
      twice: once for `created_at` and once more for the base of `expires_at`.
      With one reading the order lives exactly the retention window; with a
      second reading no earlier than the first it lives at least that long. */
  function NewOrder(product: string, quantity: int, totalPrice: int, location: string,
                    createdNow: int, expiryNow: int): (o: Order)
    ensures o.product == product && o.quantity == quantity
    ensures o.totalPrice == totalPrice && o.location == location
    ensures o.createdAt == createdNow && o.expiresAt == expiryNow + Retention
    ensures createdNow == expiryNow ==> o.expiresAt - o.createdAt == Retention
    ensures createdNow <= expiryNow ==> o.expiresAt - o.createdAt >= Retention
    ensures Unexpired(o, expiryNow + Retention - 1) && !Unexpired(o, expiryNow + Retention)
  {
    Order(product, quantity, totalPrice, location, createdNow, expiryNow + Retention)
  }

  /** An order survives a cleanup at `now` only when it expires strictly later. */
  predicate Unexpired(o: Order, now: int) {
    o.expiresAt > now
  }

  /** The cleanup filter: the orders that are still unexpired at `now`, in
      their original order. */
  function Prune(orders: seq<Order>, now: int): (live: seq<Order>)
    ensures |live| <= |orders|
    ensures forall o :: o in live ==> o in orders && Unexpired(o, now)
    ensures forall o :: o in orders && Unexpired(o, now) ==> o in live
  {
    if orders == [] then []
    else if Unexpired(orders[0], now) then [orders[0]] + Prune(orders[1..], now)
    else Prune(orders[1..], now)
  }

  /** `xs` can be obtained from `ys` by deleting elements: same elements, same
      relative order, none altered. */
  predicate IsSubsequence<T(==)>(xs: seq<T>, ys: seq<T>)
  {
    if xs == [] then true
    else if ys == [] then false
    else if xs[0] == ys[0] then IsSubsequence(xs[1..], ys[1..])
    else IsSubsequence(xs, ys[1..])
  }

  /** Putting an element in front of the longer sequence keeps a subsequence one. */
  lemma {:induction false} SubsequenceCons<T>(xs: seq<T>, y: T, ys: seq<T>)
    requires IsSubsequence(xs, ys)
    ensures IsSubsequence(xs, [y] + ys)
    decreases |ys|, 1
  {
    if xs != [] && xs[0] == y {
      assert ([y] + ys)[1..] == ys;
      SubsequenceDropHead(xs, ys);
    }
  }

  /** Dropping the first element of a subsequence keeps it a subsequence. */
  lemma {:induction false} SubsequenceDropHead<T>(xs: seq<T>, ys: seq<T>)
    requires xs != [] && IsSubsequence(xs, ys)
    ensures IsSubsequence(xs[1..], ys)
    decreases |ys|, 0
  {
    assert [ys[0]] + ys[1..] == ys;
    if xs[0] != ys[0] {
      SubsequenceDropHead(xs, ys[1..]);
    }
    SubsequenceCons(xs[1..], ys[0], ys[1..]);
  }

  /** Cleanup only deletes orders: what it keeps is a subsequence of what it read. */
  lemma {:induction false} PruneIsSubsequence(orders: seq<Order>, now: int)
    ensures IsSubsequence(Prune(orders, now), orders)
  {
    if orders != [] {
      PruneIsSubsequence(orders[1..], now);
      var rest := Prune(orders[1..], now);
      if Unexpired(orders[0], now) {
        assert ([orders[0]] + rest)[1..] == rest;
      } else {
        SubsequenceCons(rest, orders[0], orders[1..]);
        assert [orders[0]] + orders[1..] == orders;
      }
    }
  }

  /** Cleanup keeps an order exactly when it expires strictly after `now`;
      an order with `expiresAt == now` is removed. */
  lemma ExpiryBoundary(orders: seq<Order>, o: Order, now: int)
    requires o in orders
    ensures o in Prune(orders, now) <==> o.expiresAt > now
    ensures o.expiresAt == now ==> o !in Prune(orders, now)
  {
  }

  /** Cleanup distributes over concatenation: it decides order by order. */
  lemma {:induction false} PruneAppend(xs: seq<Order>, ys: seq<Order>, now: int)
    ensures Prune(xs + ys, now) == Prune(xs, now) + Prune(ys, now)
  {
    if xs != [] {
      assert (xs + ys)[0] == xs[0];
      assert (xs + ys)[1..] == xs[1..] + ys;
      PruneAppend(xs[1..], ys, now);
    } else {
      assert xs + ys == ys;
    }
  }

  /** Cleanup of a list with no expired order returns the list itself. */
  lemma {:induction false} PruneAllLive(orders: seq<Order>, now: int)
    requires forall i :: 0 <= i < |orders| ==> Unexpired(orders[i], now)
    ensures Prune(orders, now) == orders
  {
    if orders != [] {
      var rest := orders[1..];
      assert Unexpired(orders[0], now);
      assert forall i :: 0 <= i < |rest| ==> rest[i] == orders[i + 1];
      PruneAllLive(rest, now);
      assert [orders[0]] + rest == orders;
    }
  }

  /** Cleanup leaves the orders unchanged exactly when none of them has expired. */
  lemma PruneUnchangedIffAllLive(orders: seq<Order>, now: int)
    ensures Prune(orders, now) == orders <==>
            forall i :: 0 <= i < |orders| ==> Unexpired(orders[i], now)
  {
    if forall i :: 0 <= i < |orders| ==> Unexpired(orders[i], now) {
      PruneAllLive(orders, now);
    }
    if Prune(orders, now) == orders {
      forall i | 0 <= i < |orders| ensures Unexpired(orders[i], now) {
        assert orders[i] in Prune(orders, now);
      }
    }
  }

  /** A cleanup at `now` followed by one at a time no earlier is the same as
      the later cleanup alone. */
  lemma {:induction false} PruneLaterAbsorbs(orders: seq<Order>, now: int, later: int)
    requires now <= later
    ensures Prune(Prune(orders, now), later) == Prune(orders, later)
  {
    if orders != [] {
      PruneLaterAbsorbs(orders[1..], now, later);
      if Unexpired(orders[0], now) {
        assert ([orders[0]] + Prune(orders[1..], now))[1..] == Prune(orders[1..], now);
      }
    }
  }

  /** Cleanup is idempotent at a fixed time. */
  lemma PruneIdempotent(orders: seq<Order>, now: int)
    ensures Prune(Prune(orders, now), now) == Prune(orders, now)
  {
    PruneLaterAbsorbs(orders, now, now);
  }

  /** A later cleanup keeps a subsequence of what an earlier one keeps. */
  lemma PruneLaterIsSubsequence(orders: seq<Order>, now: int, later: int)
    requires now <= later
    ensures IsSubsequence(Prune(orders, later), Prune(orders, now))
  {
    PruneLaterAbsorbs(orders, now, later);
    PruneIsSubsequence(Prune(orders, now), later);
  }

  /** After an order is appended to a freshly cleaned list, every stored order
      is unexpired at the cleanup time (provided the new one is), and a
      second cleanup at that time changes nothing. */
  lemma {:induction false} AppendAfterPruneStaysLive(orders: seq<Order>, o: Order, now: int)
    requires Unexpired(o, now)
    ensures forall p :: p in Prune(orders, now) + [o] ==> Unexpired(p, now)
    ensures Prune(Prune(orders, now) + [o], now) == Prune(orders, now) + [o]
  {
    PruneAppend(Prune(orders, now), [o], now);
    PruneIdempotent(orders, now);
    assert Prune([o], now) == [o] + Prune([], now);
  }

  /** An order created at time `t` is still on the board one minute before its
      four hours run out and gone one minute after. */
  lemma {:induction false} FourHourWindow(orders: seq<Order>, o: Order, t: int)
    requires o == NewOrder(o.product, o.quantity, o.totalPrice, o.location, t, t)
    ensures o in Prune(orders + [o], t + Retention - Minute)
    ensures o !in Prune(orders + [o], t + Retention + Minute)
  {
    ExpiryBoundary(orders + [o], o, t + Retention - Minute);
    ExpiryBoundary(orders + [o], o, t + Retention + Minute);
  }
}
