/**
 * Orders seen by their users (orderController.js): marking an order paid and
 * listing a user's orders.
 */
module Payments {
  import opened Wrappers
  import opened Records
  import opened Ledgers
  import Scheduler

  datatype PayError = OrderNotFound | NotBuyer

  /**
   * payOrder: only the buyer may pay; the order becomes paid whatever its
   * status was, and its auction, when it still exists, is set to ended.
   */
  function PayOrder(L: Ledger, k: nat, user: UserId): Result<Ledger, PayError> {
    if k >= |L.orders| then Err(OrderNotFound)
    else if L.orders[k].buyer != user then Err(NotBuyer)
    else
      var o := L.orders[k];
      var L1 := L.(orders := L.orders[k := o.(status := Paid)]);
      Ok(if o.auction in L.auctions then L1.(auctions := L.auctions[o.auction := L.auctions[o.auction].(status := Ended)])
         else L1)
  }

  /** getMyOrders: the orders where the user is buyer or seller, newest first. */
  function MyOrders(orders: seq<Order>, user: UserId): (r: seq<Order>)
    ensures forall o :: o in r <==> o in orders && (o.buyer == user || o.seller == user)
    ensures |r| <= |orders|
  {
    if orders == [] then []
    else
      var last := orders[|orders| - 1];
      (if last.buyer == user || last.seller == user then [last] else []) + MyOrders(orders[..|orders| - 1], user)
  }

  /**
   * Newest first: an order appended to the store heads the user's list when
   * it concerns the user, and leaves the list unchanged otherwise.
   */
  lemma {:induction false} MyOrdersNewestFirst(orders: seq<Order>, o: Order, user: UserId)
    ensures (o.buyer == user || o.seller == user) ==> MyOrders(orders + [o], user) == [o] + MyOrders(orders, user)
    ensures !(o.buyer == user || o.seller == user) ==> MyOrders(orders + [o], user) == MyOrders(orders, user)
  {
    assert (orders + [o])[..|orders|] == orders;
  }

  /** Payment succeeds exactly for an existing order paid by its own buyer. */
  lemma {:induction false} PayOrderAcceptance(L: Ledger, k: nat, user: UserId)
    ensures PayOrder(L, k, user).Ok? <==> k < |L.orders| && L.orders[k].buyer == user
    ensures PayOrder(L, k, user) == Err(OrderNotFound) <==> k >= |L.orders|
  {
  }

  /**
   * A payment changes exactly the order's status and its auction's status;
   * bids and every other order and auction are untouched, and a paid order is
   * never picked up by the payment-deadline fallback.
   */
  lemma {:induction false} PayOrderEffect(L: Ledger, k: nat, user: UserId)
    requires PayOrder(L, k, user).Ok?
    ensures var L' := PayOrder(L, k, user).value;
      var o := L.orders[k];
      && |L'.orders| == |L.orders|
      && L'.orders[k] == o.(status := Paid)
      && (forall j :: 0 <= j < |L.orders| && j != k ==> L'.orders[j] == L.orders[j])
      && L'.bids == L.bids
      && L'.auctions.Keys == L.auctions.Keys
      && (o.auction in L.auctions ==> L'.auctions[o.auction] == L.auctions[o.auction].(status := Ended))
      && (forall id :: id in L.auctions && id != o.auction ==> L'.auctions[id] == L.auctions[id])
      && forall now :: !Scheduler.Expired(L'.orders[k], now)
  {
  }

  /** Payment keeps every stored record within its schema. */
  lemma {:induction false} PayOrderKeepsValid(L: Ledger, k: nat, user: UserId)
    requires Valid(L) && PayOrder(L, k, user).Ok?
    ensures Valid(PayOrder(L, k, user).value)
  {
  }

  /** A cancelled order, one whose deadline lapsed, can still be paid by its buyer. */
  lemma {:induction false} CancelledOrderCanBePaid()
    ensures var o := PendingOrder(0, 1, 9, 100, 0).(status := OrderCancelled);
      var L := Ledger(map[], [], [o], 0);
      && PayOrder(L, 0, 1) == Ok(L.(orders := [o.(status := Paid)]))
  {
    var o := PendingOrder(0, 1, 9, 100, 0).(status := OrderCancelled);
    assert [o][0 := o.(status := Paid)] == [o.(status := Paid)];
  }
}
