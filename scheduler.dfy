/**
 * The once-a-minute scheduler (auctionScheduler.js) as a function of the
 * store and the tick's time `now`: first the close sweep over active
 * auctions whose end time has come, then the fallback over pending orders
 * whose payment deadline has passed.
 *
 * Both loops iterate over a query made once at their start, so each step is
 * modelled over a list of ids fixed before the loop: auction ids ascending
 * (the store's natural order) and order positions ascending.
 */
module Scheduler {
  import opened Wrappers
  import opened Records
  import opened Ledgers
  import Bidding

  // ------------------------------------------------------------ close sweep

  /** No winner, or a reserve price that the current bid does not reach (line 30). */
  predicate Unsold(a: Auction) {
    a.currentWinner.None? || (a.reservePrice != 0 && a.currentBid < a.reservePrice)
  }

  /**
   * One iteration of the close loop (lines 23-112). An unsold auction keeps
   * its current winner (line 32 assigns it to itself) and all its bids lose
   * their flag; a sold one gets a pending order for the winner at the
   * current bid, and only the winner's bids of the auction stay flagged.
   */
  function CloseAuction(L: Ledger, id: AuctionId, now: Time): Ledger
    requires id in L.auctions
  {
    var a := L.auctions[id].(status := Ended);
    if Unsold(a) then L.(auctions := L.auctions[id := a], bids := ClearWinning(L.bids, id))
    else
      L.(auctions := L.auctions[id := a],
         orders := L.orders + [PendingOrder(id, a.currentWinner.value, a.seller, a.currentBid, now)],
         bids := MarkBidderWinning(L.bids, id, a.currentWinner.value))
  }

  /** The close loop over the selected ids, in order. */
  function CloseAll(L: Ledger, ids: seq<AuctionId>, now: Time): Ledger {
    if ids == [] then L
    else
      var L' := CloseAll(L, ids[..|ids| - 1], now);
      var id := ids[|ids| - 1];
      if id in L'.auctions then CloseAuction(L', id, now) else L'
  }

  predicate Increasing(s: seq<nat>) {
    forall i, j :: 0 <= i < j < |s| ==> s[i] < s[j]
  }

  /** `Auction.find({ status: 'active', endTime: { $lte: now } })` among ids below `n`, ascending. */
  function DueIdsBelow(auctions: map<AuctionId, Auction>, n: nat, now: Time): (r: seq<AuctionId>)
    ensures forall id :: id in r <==> id < n && id in auctions && DueToClose(auctions[id], now)
    ensures forall i :: 0 <= i < |r| ==> r[i] < n
  {
    if n == 0 then []
    else DueIdsBelow(auctions, n - 1, now) + (if n - 1 in auctions && DueToClose(auctions[n - 1], now) then [n - 1] else [])
  }

  function DueIds(L: Ledger, now: Time): seq<AuctionId> {
    DueIdsBelow(L.auctions, L.nextAuctionId, now)
  }

  function CloseSweep(L: Ledger, now: Time): Ledger {
    CloseAll(L, DueIds(L, now), now)
  }

  /** The selected ids come in ascending order. */
  lemma {:induction false} DueIdsAscending(auctions: map<AuctionId, Auction>, n: nat, now: Time)
    ensures Increasing(DueIdsBelow(auctions, n, now))
  {
    if n > 0 {
      DueIdsAscending(auctions, n - 1, now);
      var r' := DueIdsBelow(auctions, n - 1, now);
      var r := DueIdsBelow(auctions, n, now);
      forall i, j | 0 <= i < j < |r| ensures r[i] < r[j] {
        assert r[i] == r'[i];
        if j < |r'| {
          assert r[j] == r'[j];
        }
      }
    }
  }

  // --------------------------------------------------------- order fallback

  /** `{ status: 'pending_payment', paymentDeadline: { $lte: now } }`. */
  predicate Expired(o: Order, now: Time) {
    o.status == PendingPayment && o.paymentDeadline.Some? && o.paymentDeadline.value <= now
  }

  /** Positions below `n` of the expired orders, ascending. */
  function ExpiredBelow(orders: seq<Order>, n: nat, now: Time): (r: seq<nat>)
    requires n <= |orders|
    ensures forall k: nat :: k in r <==> k < n && Expired(orders[k], now)
    ensures forall i :: 0 <= i < |r| ==> r[i] < n
  {
    if n == 0 then []
    else ExpiredBelow(orders, n - 1, now) + (if Expired(orders[n - 1], now) then [n - 1] else [])
  }

  /** The selected order positions come in ascending order. */
  lemma {:induction false} ExpiredAscending(orders: seq<Order>, n: nat, now: Time)
    requires n <= |orders|
    ensures Increasing(ExpiredBelow(orders, n, now))
  {
    if n > 0 {
      ExpiredAscending(orders, n - 1, now);
      var r' := ExpiredBelow(orders, n - 1, now);
      var r := ExpiredBelow(orders, n, now);
      forall i, j | 0 <= i < j < |r| ensures r[i] < r[j] {
        assert r[i] == r'[i];
        if j < |r'| {
          assert r[j] == r'[j];
        }
      }
    }
  }

  /** `Bid.find({ auction: id, bidder: { $ne: buyer } })`, in store order. */
  function Candidates(bids: seq<Bid>, id: AuctionId, buyer: UserId): (r: seq<Bid>)
    ensures forall b :: b in r <==> b in bids && b.auction == id && b.bidder != buyer
  {
    if bids == [] then []
    else
      var last := bids[|bids| - 1];
      Candidates(bids[..|bids| - 1], id, buyer) + (if last.auction == id && last.bidder != buyer then [last] else [])
  }

  /**
   * The head of the list sorted by amount, descending: a largest amount, the
   * earliest in store order when several are equal.
   */
  function HighestBid(bs: seq<Bid>): (b: Bid)
    requires bs != []
    ensures b in bs
    ensures forall x :: x in bs ==> x.amount <= b.amount
  {
    if |bs| == 1 then bs[0]
    else
      var h := HighestBid(bs[..|bs| - 1]);
      assert forall x :: x in bs ==> x in bs[..|bs| - 1] || x == bs[|bs| - 1];
      if bs[|bs| - 1].amount > h.amount then bs[|bs| - 1] else h
  }

  /**
   * One iteration of the fallback loop (lines 121-166): the order is
   * cancelled; when its auction still exists, the best bid by anyone other
   * than the defaulting buyer becomes the new price and winner and gets a
   * fresh pending order, and without such a bid the winner is cleared.
   * The auction's status is left as it is.
   */
  function FallbackOne(L: Ledger, k: nat, now: Time): Ledger
    requires k < |L.orders|
  {
    var o := L.orders[k];
    var L1 := L.(orders := L.orders[k := o.(status := OrderCancelled)]);
    if o.auction !in L1.auctions then L1
    else
      var a := L1.auctions[o.auction];
      var cands := Candidates(L1.bids, o.auction, o.buyer);
      if cands == [] then L1.(auctions := L1.auctions[o.auction := a.(currentWinner := None)])
      else
        var next := HighestBid(cands);
        L1.(auctions := L1.auctions[o.auction := a.(currentWinner := Some(next.bidder), currentBid := next.amount)],
            orders := L1.orders + [PendingOrder(o.auction, next.bidder, a.seller, next.amount, now)])
  }

  /** The fallback loop over the selected order positions, in order. */
  function ExpireAll(L: Ledger, ks: seq<nat>, now: Time): Ledger {
    if ks == [] then L
    else
      var L' := ExpireAll(L, ks[..|ks| - 1], now);
      var k := ks[|ks| - 1];
      if k < |L'.orders| then FallbackOne(L', k, now) else L'
  }

  function ExpiredIds(L: Ledger, now: Time): seq<nat> {
    ExpiredBelow(L.orders, |L.orders|, now)
  }

  function ExpireOrders(L: Ledger, now: Time): Ledger {
    ExpireAll(L, ExpiredIds(L, now), now)
  }

  /** One run of the scheduled job. */
  function Tick(L: Ledger, now: Time): Ledger {
    ExpireOrders(CloseSweep(L, now), now)
  }

  // ------------------------------------------------------ close-sweep facts

  /** The auction map changes only at `id`, and only in its status. */
  predicate OnlyStatusesChanged(before: map<AuctionId, Auction>, after: map<AuctionId, Auction>) {
    && after.Keys == before.Keys
    && forall id :: id in before ==> after[id] == before[id].(status := after[id].status)
  }

  /** The order a close of `a` creates when it sells. */
  function SaleOrder(id: AuctionId, a: Auction, now: Time): Order
    requires a.currentWinner.Some?
  {
    PendingOrder(id, a.currentWinner.value, a.seller, a.currentBid, now)
  }

  /** `o` is the sale order of one of the listed auctions that sells. */
  predicate SaleOfListed(L: Ledger, ids: seq<AuctionId>, o: Order, now: Time) {
    exists id :: id in ids && id in L.auctions && !Unsold(L.auctions[id]) && o == SaleOrder(id, L.auctions[id], now)
  }

  /** The close loop ends exactly the listed auctions and changes nothing else about any auction. */
  lemma {:induction false} CloseAllAuctions(L: Ledger, ids: seq<AuctionId>, now: Time)
    ensures OnlyStatusesChanged(L.auctions, CloseAll(L, ids, now).auctions)
    ensures forall id :: id in L.auctions ==>
      CloseAll(L, ids, now).auctions[id].status == if id in ids then Ended else L.auctions[id].status
    ensures CloseAll(L, ids, now).nextAuctionId == L.nextAuctionId
  {
    if ids != [] {
      var init := ids[..|ids| - 1];
      var id := ids[|ids| - 1];
      CloseAllAuctions(L, init, now);
      var L' := CloseAll(L, init, now);
      CloseAuctionStatus(L', id, now);
      assert CloseAll(L, ids, now) == (if id in L'.auctions then CloseAuction(L', id, now) else L');
      assert forall x :: x in ids <==> x in init || x == id;
    }
  }

  /** One close changes the auction map only in the closed auction's status. */
  lemma {:induction false} CloseAuctionStatus(L: Ledger, id: AuctionId, now: Time)
    ensures id in L.auctions ==>
      && CloseAuction(L, id, now).auctions == L.auctions[id := L.auctions[id].(status := Ended)]
      && CloseAuction(L, id, now).nextAuctionId == L.nextAuctionId
  {
  }

  /** The close loop keeps the existing orders, and every order it adds is a sale of a listed auction. */
  lemma {:induction false} CloseAllOrders(L: Ledger, ids: seq<AuctionId>, now: Time)
    ensures |CloseAll(L, ids, now).orders| >= |L.orders|
    ensures CloseAll(L, ids, now).orders[..|L.orders|] == L.orders
    ensures forall k :: |L.orders| <= k < |CloseAll(L, ids, now).orders| ==>
      SaleOfListed(L, ids, CloseAll(L, ids, now).orders[k], now)
  {
    if ids != [] {
      var init := ids[..|ids| - 1];
      var id := ids[|ids| - 1];
      CloseAllOrders(L, init, now);
      CloseAllAuctions(L, init, now);
      var L' := CloseAll(L, init, now);
      var L2 := CloseAll(L, ids, now);
      forall k | |L.orders| <= k < |L'.orders| ensures SaleOfListed(L, ids, L'.orders[k], now) {
        assert SaleOfListed(L, init, L'.orders[k], now);
        var x :| x in init && x in L.auctions && !Unsold(L.auctions[x]) && L'.orders[k] == SaleOrder(x, L.auctions[x], now);
        assert x in ids;
      }
      if id in L'.auctions {
        assert L2 == CloseAuction(L', id, now);
        assert L2.orders[..|L'.orders|] == L'.orders;
        assert L2.orders[..|L.orders|] == L'.orders[..|L.orders|];
        if !Unsold(L'.auctions[id]) {
          assert L'.auctions[id] == L.auctions[id].(status := L'.auctions[id].status);
          assert L2.orders[|L'.orders|] == SaleOrder(id, L.auctions[id], now);
        }
      }
    }
  }

  /** Bids of auctions outside the list keep their winning flag through the close loop. */
  lemma {:induction false} CloseAllBidsOutside(L: Ledger, ids: seq<AuctionId>, now: Time)
    ensures var L' := CloseAll(L, ids, now);
      && |L'.bids| == |L.bids|
      && SameBidsUpToFlags(L.bids, L'.bids)
      && forall i :: 0 <= i < |L.bids| && L.bids[i].auction !in ids ==> L'.bids[i] == L.bids[i]
  {
    if ids != [] {
      var init := ids[..|ids| - 1];
      CloseAllBidsOutside(L, init, now);
      assert forall x :: x in ids <==> x in init || x == ids[|ids| - 1];
    }
  }

  /** After the close sweep no auction is still due to close. */
  lemma {:induction false} NothingDueAfterSweep(L: Ledger, now: Time)
    requires Valid(L)
    ensures forall id :: id in CloseSweep(L, now).auctions ==> !DueToClose(CloseSweep(L, now).auctions[id], now)
  {
    CloseAllAuctions(L, DueIds(L, now), now);
  }

  /**
   * The sweep closes exactly the auctions that are active with `endTime <=
   * now`, and every other auction is left exactly as it was.
   */
  lemma {:induction false} SweepSelectsDue(L: Ledger, now: Time)
    requires Valid(L)
    ensures var L' := CloseSweep(L, now);
      && L'.auctions.Keys == L.auctions.Keys
      && forall id :: id in L.auctions ==>
           if DueToClose(L.auctions[id], now) then L'.auctions[id] == L.auctions[id].(status := Ended)
           else L'.auctions[id] == L.auctions[id]
  {
    CloseAllAuctions(L, DueIds(L, now), now);
  }

  /** A single close, when sold: exactly one order for the winner, at the current bid. */
  lemma {:induction false} CloseSold(L: Ledger, id: AuctionId, now: Time)
    requires id in L.auctions && !Unsold(L.auctions[id])
    ensures var a := L.auctions[id];
      var L' := CloseAuction(L, id, now);
      && L'.orders == L.orders + [PendingOrder(id, a.currentWinner.value, a.seller, a.currentBid, now)]
      && L'.orders[|L.orders|].paymentDeadline == Some(now + PaymentWindow)
      && L'.auctions[id].currentWinner == a.currentWinner
      && (forall i :: 0 <= i < |L.bids| && L.bids[i].auction == id ==>
            (L'.bids[i].isWinning <==> L.bids[i].bidder == a.currentWinner.value))
  {
  }

  /**
   * A single close, when unsold: no order, every bid of the auction loses its
   * flag, and the current winner is left in place, so an auction whose
   * reserve was not met still names its highest bidder as winner.
   */
  lemma {:induction false} CloseUnsold(L: Ledger, id: AuctionId, now: Time)
    requires id in L.auctions && Unsold(L.auctions[id])
    ensures var L' := CloseAuction(L, id, now);
      && L'.orders == L.orders
      && L'.auctions[id].currentWinner == L.auctions[id].currentWinner
      && L'.auctions[id].status == Ended
      && (forall i :: 0 <= i < |L.bids| && L.bids[i].auction == id ==> !L'.bids[i].isWinning)
  {
  }

  /** An auction that is not active is never closed, so the sweep creates no order for it. */
  lemma {:induction false} InactiveNeverSold(L: Ledger, id: AuctionId, now: Time)
    requires id in L.auctions && L.auctions[id].status != Active
    ensures var L' := CloseSweep(L, now);
      && id in L'.auctions && L'.auctions[id] == L.auctions[id]
      && forall k :: |L.orders| <= k < |L'.orders| ==> L'.orders[k].auction != id
  {
    var ids := DueIds(L, now);
    CloseAllAuctions(L, ids, now);
    CloseAllOrders(L, ids, now);
    var L' := CloseSweep(L, now);
    assert L' == CloseAll(L, ids, now);
    forall k | |L.orders| <= k < |L'.orders| ensures L'.orders[k].auction != id {
      assert SaleOfListed(L, ids, L'.orders[k], now);
      var x :| x in ids && x in L.auctions && !Unsold(L.auctions[x]) && L'.orders[k] == SaleOrder(x, L.auctions[x], now);
    }
  }

  // --------------------------------------------------------- fallback facts

  /** Auctions change only in winner and price; the statuses and everything else stay. */
  predicate OnlyWinnersChanged(before: map<AuctionId, Auction>, after: map<AuctionId, Auction>) {
    && after.Keys == before.Keys
    && forall id :: id in before ==>
         after[id] == before[id].(currentWinner := after[id].currentWinner, currentBid := after[id].currentBid)
  }

  /** Orders below `n` are as before except the listed positions, which are cancelled. */
  predicate CancelledExactly(before: seq<Order>, after: seq<Order>, ks: seq<nat>) {
    && |before| <= |after|
    && forall j :: 0 <= j < |before| ==>
         after[j] == if j in ks then before[j].(status := OrderCancelled) else before[j]
  }

  /** Orders from position `n` on are pending with a deadline one payment window after `now`. */
  predicate FreshFrom(orders: seq<Order>, n: nat, now: Time) {
    forall j :: n <= j < |orders| ==>
      orders[j].status == PendingPayment && orders[j].paymentDeadline == Some(now + PaymentWindow)
  }

  /**
   * One fallback step: the order is cancelled and nothing else about the
   * orders changes, except that a re-offer appends one fresh pending order;
   * the re-offer goes to the highest bid of someone other than the
   * defaulting buyer. Only the winner and price of the order's auction can
   * change, and the bids are untouched.
   */
  lemma {:induction false} FallbackOneSpec(L: Ledger, k: nat, now: Time)
    requires k < |L.orders|
    ensures var o := L.orders[k];
      var L' := FallbackOne(L, k, now);
      && OnlyWinnersChanged(L.auctions, L'.auctions)
      && (forall id :: id in L.auctions && id != o.auction ==> L'.auctions[id] == L.auctions[id])
      && L'.bids == L.bids && L'.nextAuctionId == L.nextAuctionId
      && CancelledExactly(L.orders, L'.orders, [k])
      && |L'.orders| <= |L.orders| + 1
      && FreshFrom(L'.orders, |L.orders|, now)
      && (o.auction in L.auctions && Candidates(L.bids, o.auction, o.buyer) == [] ==>
            L'.auctions[o.auction].currentWinner == None && |L'.orders| == |L.orders|)
      && (o.auction in L.auctions && Candidates(L.bids, o.auction, o.buyer) != [] ==>
            var w := L'.auctions[o.auction];
            && |L'.orders| == |L.orders| + 1
            && w.currentWinner.Some? && w.currentWinner.value != o.buyer
            && L'.orders[|L.orders|] == PendingOrder(o.auction, w.currentWinner.value, w.seller, w.currentBid, now)
            && (exists b :: b in L.bids && b.auction == o.auction && b.bidder == w.currentWinner.value &&
                            b.amount == w.currentBid)
            && (forall b :: b in L.bids && b.auction == o.auction && b.bidder != o.buyer ==> b.amount <= w.currentBid))
  {
    FallbackOneFrame(L, k, now);
    FallbackOneOffer(L, k, now);
  }

  /**
   * What a fallback step does to the won auctions: the cancelled buyer no
   * longer has the auction among them; with nobody else to offer it to, nobody
   * has it; otherwise, on an ended auction, the bidder it is offered to has it.
   */
  lemma {:induction false} FallbackWon(L: Ledger, k: nat, now: Time, u: UserId)
    requires k < |L.orders|
    ensures var o := L.orders[k];
      var L' := FallbackOne(L, k, now);
      && o.auction !in Bidding.WonAuctions(L', o.buyer)
      && (o.auction in L.auctions && Candidates(L.bids, o.auction, o.buyer) == [] ==>
            o.auction !in Bidding.WonAuctions(L', u))
      && (o.auction in L.auctions && Candidates(L.bids, o.auction, o.buyer) != [] && L.auctions[o.auction].status == Ended ==>
            o.auction in Bidding.WonAuctions(L', L'.auctions[o.auction].currentWinner.value))
      && (forall id :: id != o.auction ==> (id in Bidding.WonAuctions(L', u) <==> id in Bidding.WonAuctions(L, u)))
  {
    var o := L.orders[k];
    var L' := FallbackOne(L, k, now);
    FallbackOneSpec(L, k, now);
    if o.auction in L.auctions {
      assert L'.auctions[o.auction].status == L.auctions[o.auction].status;
    } else {
      assert L'.auctions == L.auctions;
    }
    forall id | id != o.auction
      ensures id in Bidding.WonAuctions(L', u) <==> id in Bidding.WonAuctions(L, u)
    {
      if id in L.auctions {
        assert L'.auctions[id] == L.auctions[id];
      }
    }
  }

  /** What one fallback step leaves alone, and the shape of the orders after it. */
  lemma {:induction false} FallbackOneFrame(L: Ledger, k: nat, now: Time)
    requires k < |L.orders|
    ensures var o := L.orders[k];
      var L' := FallbackOne(L, k, now);
      && OnlyWinnersChanged(L.auctions, L'.auctions)
      && (forall id :: id in L.auctions && id != o.auction ==> L'.auctions[id] == L.auctions[id])
      && L'.bids == L.bids && L'.nextAuctionId == L.nextAuctionId
      && CancelledExactly(L.orders, L'.orders, [k])
      && |L'.orders| <= |L.orders| + 1
      && FreshFrom(L'.orders, |L.orders|, now)
  {
    FallbackOneAuctions(L, k, now);
    FallbackOneOrders(L, k, now);
  }

  lemma {:induction false} FallbackOneAuctions(L: Ledger, k: nat, now: Time)
    requires k < |L.orders|
    ensures var o := L.orders[k];
      var L' := FallbackOne(L, k, now);
      && OnlyWinnersChanged(L.auctions, L'.auctions)
      && (forall id :: id in L.auctions && id != o.auction ==> L'.auctions[id] == L.auctions[id])
      && L'.bids == L.bids && L'.nextAuctionId == L.nextAuctionId
  {
    var o := L.orders[k];
    if o.auction in L.auctions {
      var a := L.auctions[o.auction];
      var cands := Candidates(L.bids, o.auction, o.buyer);
      var w := if cands == [] then a.(currentWinner := None)
               else a.(currentWinner := Some(HighestBid(cands).bidder), currentBid := HighestBid(cands).amount);
      assert FallbackOne(L, k, now).auctions == L.auctions[o.auction := w];
      assert w == a.(currentWinner := w.currentWinner, currentBid := w.currentBid);
    }
  }

  lemma {:induction false} FallbackOneOrders(L: Ledger, k: nat, now: Time)
    requires k < |L.orders|
    ensures var L' := FallbackOne(L, k, now);
      && CancelledExactly(L.orders, L'.orders, [k])
      && |L'.orders| <= |L.orders| + 1
      && FreshFrom(L'.orders, |L.orders|, now)
  {
    var o := L.orders[k];
    var L1 := L.(orders := L.orders[k := o.(status := OrderCancelled)]);
    var L' := FallbackOne(L, k, now);
    assert L'.orders[..|L1.orders|] == L1.orders;
    assert CancelledExactly(L.orders, L1.orders, [k]);
  }

  /** Whom one fallback step offers the item to, if anyone. */
  lemma {:induction false} FallbackOneOffer(L: Ledger, k: nat, now: Time)
    requires k < |L.orders|
    ensures var o := L.orders[k];
      var L' := FallbackOne(L, k, now);
      && (o.auction in L.auctions && Candidates(L.bids, o.auction, o.buyer) == [] ==>
            L'.auctions[o.auction].currentWinner == None && |L'.orders| == |L.orders|)
      && (o.auction in L.auctions && Candidates(L.bids, o.auction, o.buyer) != [] ==>
            var w := L'.auctions[o.auction];
            && |L'.orders| == |L.orders| + 1
            && w.currentWinner.Some? && w.currentWinner.value != o.buyer
            && L'.orders[|L.orders|] == PendingOrder(o.auction, w.currentWinner.value, w.seller, w.currentBid, now)
            && (exists b :: b in L.bids && b.auction == o.auction && b.bidder == w.currentWinner.value &&
                            b.amount == w.currentBid)
            && (forall b :: b in L.bids && b.auction == o.auction && b.bidder != o.buyer ==> b.amount <= w.currentBid))
  {
    var o := L.orders[k];
    if o.auction in L.auctions {
      var cands := Candidates(L.bids, o.auction, o.buyer);
      if cands != [] {
        var next := HighestBid(cands);
        assert next in cands;
      }
    }
  }

  /**
   * The fallback loop cancels exactly the listed orders, appends only fresh
   * pending orders, keeps every auction's status, and leaves the bids alone.
   */
  lemma {:induction false} ExpireAllSpec(L: Ledger, ks: seq<nat>, now: Time)
    requires forall i :: 0 <= i < |ks| ==> ks[i] < |L.orders|
    ensures var L' := ExpireAll(L, ks, now);
      && OnlyWinnersChanged(L.auctions, L'.auctions)
      && L'.bids == L.bids && L'.nextAuctionId == L.nextAuctionId
      && CancelledExactly(L.orders, L'.orders, ks)
      && FreshFrom(L'.orders, |L.orders|, now)
  {
    if ks != [] {
      var init := ks[..|ks| - 1];
      var k := ks[|ks| - 1];
      ExpireAllSpec(L, init, now);
      var L' := ExpireAll(L, init, now);
      FallbackOneSpec(L', k, now);
      assert forall x :: x in ks <==> x in init || x == k;
    }
  }

  /** After the fallback loop no order is expired any more. */
  lemma {:induction false} NothingExpiredAfter(L: Ledger, now: Time)
    ensures forall j :: 0 <= j < |ExpireOrders(L, now).orders| ==> !Expired(ExpireOrders(L, now).orders[j], now)
  {
    ExpireAllSpec(L, ExpiredIds(L, now), now);
  }

  /** After a run of the job nothing is due to close. */
  lemma {:induction false} NothingDueAfterTick(L: Ledger, now: Time)
    requires Valid(L)
    ensures DueIds(Tick(L, now), now) == []
  {
    var S := CloseSweep(L, now);
    var T := Tick(L, now);
    NothingDueAfterSweep(L, now);
    ExpireAllSpec(S, ExpiredIds(S, now), now);
    assert OnlyWinnersChanged(S.auctions, T.auctions);
    forall id | id in T.auctions ensures !DueToClose(T.auctions[id], now) {
      assert T.auctions[id].status == S.auctions[id].status;
      assert T.auctions[id].endTime == S.auctions[id].endTime;
    }
    NoneDueBelow(T.auctions, T.nextAuctionId, now);
  }

  lemma {:induction false} NoneDueBelow(auctions: map<AuctionId, Auction>, n: nat, now: Time)
    requires forall id :: id in auctions ==> !DueToClose(auctions[id], now)
    ensures DueIdsBelow(auctions, n, now) == []
  {
    if n > 0 {
      NoneDueBelow(auctions, n - 1, now);
      var c := n - 1 in auctions && DueToClose(auctions[n - 1], now);
      assert !c;
      assert DueIdsBelow(auctions, n, now) == DueIdsBelow(auctions, n - 1, now) + [];
    }
  }

  lemma {:induction false} NoneExpiredBelow(orders: seq<Order>, n: nat, now: Time)
    requires n <= |orders|
    requires forall j :: 0 <= j < |orders| ==> !Expired(orders[j], now)
    ensures ExpiredBelow(orders, n, now) == []
  {
    if n > 0 {
      NoneExpiredBelow(orders, n - 1, now);
      assert !Expired(orders[n - 1], now);
      assert ExpiredBelow(orders, n, now) == ExpiredBelow(orders, n - 1, now) + [];
    }
  }

  /** After a run of the job no order is expired. */
  lemma {:induction false} NothingExpiredAfterTick(L: Ledger, now: Time)
    ensures ExpiredIds(Tick(L, now), now) == []
  {
    var T := Tick(L, now);
    NothingExpiredAfter(CloseSweep(L, now), now);
    NoneExpiredBelow(T.orders, |T.orders|, now);
  }

  /** Running the job twice at the same instant does nothing the first run did not. */
  lemma {:induction false} TickIdempotent(L: Ledger, now: Time)
    requires Valid(L)
    ensures Tick(Tick(L, now), now) == Tick(L, now)
  {
    NothingDueAfterTick(L, now);
    NothingExpiredAfterTick(L, now);
  }

  /** The job keeps every stored record within its schema. */
  lemma {:induction false} TickKeepsValid(L: Ledger, now: Time)
    requires Valid(L)
    ensures Valid(Tick(L, now))
  {
    SweepKeepsValid(L, now);
    var S := CloseSweep(L, now);
    ExpireOrdersKeepsValid(S, ExpiredIds(S, now), now);
  }

  lemma {:induction false} SweepKeepsValid(L: Ledger, now: Time)
    requires Valid(L)
    ensures Valid(CloseSweep(L, now))
  {
    var ids := DueIds(L, now);
    var S := CloseAll(L, ids, now);
    CloseAllAuctions(L, ids, now);
    CloseAllOrders(L, ids, now);
    CloseAllBidsOutside(L, ids, now);
    forall k | 0 <= k < |S.orders| ensures OrderValid(S.orders[k]) {
      if k < |L.orders| {
        assert S.orders[k] == S.orders[..|L.orders|][k];
      } else {
        assert SaleOfListed(L, ids, S.orders[k], now);
        var x :| x in ids && x in L.auctions && !Unsold(L.auctions[x]) && S.orders[k] == SaleOrder(x, L.auctions[x], now);
      }
    }
    forall i | 0 <= i < |S.bids| ensures BidValid(S.bids[i]) {
      assert S.bids[i] == L.bids[i].(isWinning := S.bids[i].isWinning);
    }
    forall id | id in S.auctions
      ensures id < S.nextAuctionId && SchemaValid(S.auctions[id]) && S.auctions[id].currentBid >= 0
    {
      assert S.auctions[id] == L.auctions[id].(status := S.auctions[id].status);
    }
  }

  lemma {:induction false} ExpireOrdersKeepsValid(L: Ledger, ks: seq<nat>, now: Time)
    requires Valid(L)
    ensures Valid(ExpireAll(L, ks, now))
  {
    if ks != [] {
      var init := ks[..|ks| - 1];
      var k := ks[|ks| - 1];
      ExpireOrdersKeepsValid(L, init, now);
      var L' := ExpireAll(L, init, now);
      if k < |L'.orders| {
        FallbackOneKeepsValid(L', k, now);
      }
    }
  }

  /** One fallback step keeps every stored record within its schema. */
  lemma {:induction false} FallbackOneKeepsValid(L: Ledger, k: nat, now: Time)
    requires Valid(L) && k < |L.orders|
    ensures Valid(FallbackOne(L, k, now))
  {
    var o := L.orders[k];
    if o.auction in L.auctions {
      var cands := Candidates(L.bids, o.auction, o.buyer);
      if cands != [] {
        var next := HighestBid(cands);
        assert next in L.bids;
      }
    }
  }

  // ------------------------------------------------------------- examples

  /** An ended auction won by A (user 1) at 100, with bids by A 100, B 80 and C 60. */
  function Sold(): Auction {
    Auction("Lamp", "A desk lamp", "Other", [], 50, 100, 5, None, 0, 0, 1000,
            9, Some(1), Ended, 3, [], [], "Good", 0, None)
  }

  function ThreeBids(): seq<Bid> {
    [Bid(0, 1, 100, true, false, None), Bid(0, 2, 80, false, false, None), Bid(0, 3, 60, false, false, None)]
  }

  function LapsedToA(): Ledger {
    Ledger(map[0 := Sold()], ThreeBids(), [PendingOrder(0, 1, 9, 100, 0)], 1)
  }

  function LapsedToB(): Ledger {
    Ledger(map[0 := Sold().(currentWinner := Some(2), currentBid := 80)], ThreeBids(),
           [PendingOrder(0, 1, 9, 100, 0).(status := OrderCancelled), PendingOrder(0, 2, 9, 80, PaymentWindow)], 1)
  }

  lemma {:induction false} FirstLapseSelection()
    ensures ExpiredIds(LapsedToA(), PaymentWindow) == [0]
    ensures Candidates(ThreeBids(), 0, 1) == [Bid(0, 2, 80, false, false, None), Bid(0, 3, 60, false, false, None)]
    ensures HighestBid([Bid(0, 2, 80, false, false, None), Bid(0, 3, 60, false, false, None)])
         == Bid(0, 2, 80, false, false, None)
  {
    FirstLapseExpired();
    FirstLapseCandidates();
    var B := Bid(0, 2, 80, false, false, None);
    var C := Bid(0, 3, 60, false, false, None);
    assert [B, C][..1] == [B];
  }

  lemma {:induction false} FirstLapseExpired()
    ensures ExpiredIds(LapsedToA(), PaymentWindow) == [0]
  {
    var o := PendingOrder(0, 1, 9, 100, 0);
    var W := PaymentWindow;
    assert LapsedToA().orders == [o];
    assert Expired(o, W);
    assert ExpiredBelow([o], 0, W) == [];
    assert ExpiredBelow([o], 1, W) == [0];
  }

  lemma {:induction false} FirstLapseCandidates()
    ensures Candidates(ThreeBids(), 0, 1) == [Bid(0, 2, 80, false, false, None), Bid(0, 3, 60, false, false, None)]
  {
    var A := Bid(0, 1, 100, true, false, None);
    var B := Bid(0, 2, 80, false, false, None);
    assert ThreeBids()[..2] == [A, B] && [A, B][..1] == [A] && [A][..0] == [];
    assert Candidates([], 0, 1) == [];
    assert Candidates([A], 0, 1) == [];
    assert Candidates([A, B], 0, 1) == [B];
  }

  /** A's order lapses: it is cancelled and the item is offered to B at 80. */
  lemma {:induction false} FirstLapse()
    ensures ExpireOrders(LapsedToA(), PaymentWindow) == LapsedToB()
  {
    FirstLapseSelection();
    assert [0][..0] == [];
    assert ExpireAll(LapsedToA(), [], PaymentWindow) == LapsedToA();
    assert ExpireOrders(LapsedToA(), PaymentWindow) == FallbackOne(LapsedToA(), 0, PaymentWindow);
    FirstLapseStep();
  }

  lemma {:induction false} FirstLapseStep()
    ensures FallbackOne(LapsedToA(), 0, PaymentWindow) == LapsedToB()
  {
    FirstLapseCandidates();
    var B := Bid(0, 2, 80, false, false, None);
    var C := Bid(0, 3, 60, false, false, None);
    assert [B, C][..1] == [B];
    assert HighestBid([B, C]) == B;
  }

  lemma {:induction false} SecondLapseExpired()
    ensures ExpiredIds(LapsedToB(), 2 * PaymentWindow) == [1]
  {
    var W := PaymentWindow;
    var c0 := PendingOrder(0, 1, 9, 100, 0).(status := OrderCancelled);
    var o1 := PendingOrder(0, 2, 9, 80, W);
    assert LapsedToB().orders == [c0, o1];
    assert !Expired(c0, 2 * W) && Expired(o1, 2 * W);
    assert ExpiredBelow([c0, o1], 0, 2 * W) == [];
    assert ExpiredBelow([c0, o1], 1, 2 * W) == [];
    assert ExpiredBelow([c0, o1], 2, 2 * W) == [1];
  }

  lemma {:induction false} SecondLapseSelection()
    ensures Candidates(ThreeBids(), 0, 2) == [Bid(0, 1, 100, true, false, None), Bid(0, 3, 60, false, false, None)]
    ensures HighestBid([Bid(0, 1, 100, true, false, None), Bid(0, 3, 60, false, false, None)])
         == Bid(0, 1, 100, true, false, None)
  {
    var A := Bid(0, 1, 100, true, false, None);
    var B := Bid(0, 2, 80, false, false, None);
    var C := Bid(0, 3, 60, false, false, None);
    assert Candidates(ThreeBids(), 0, 2) == [A, C] by {
      assert ThreeBids()[..2] == [A, B] && [A, B][..1] == [A] && [A][..0] == [];
      assert Candidates([], 0, 2) == [];
      assert Candidates([A], 0, 2) == [A];
      assert Candidates([A, B], 0, 2) == [A];
    }
    assert HighestBid([A, C]) == A by {
      assert [A, C][..1] == [A];
    }
  }

  /** B's order lapses in turn: the item goes back to A at 100, never on to C. */
  lemma {:induction false} SecondLapse()
    ensures ExpireOrders(LapsedToB(), 2 * PaymentWindow)
         == Ledger(map[0 := Sold().(currentWinner := Some(1), currentBid := 100)], ThreeBids(),
                   [PendingOrder(0, 1, 9, 100, 0).(status := OrderCancelled),
                    PendingOrder(0, 2, 9, 80, PaymentWindow).(status := OrderCancelled),
                    PendingOrder(0, 1, 9, 100, 2 * PaymentWindow)], 1)
  {
    SecondLapseExpired();
    SecondLapseSelection();
    assert [1][..0] == [];
    assert ExpireAll(LapsedToB(), [], 2 * PaymentWindow) == LapsedToB();
    assert ExpireOrders(LapsedToB(), 2 * PaymentWindow) == FallbackOne(LapsedToB(), 1, 2 * PaymentWindow);
  }

  /**
   * An auction whose reserve price is not met ends with nobody to pay, yet
   * keeps its highest bidder as current winner, so it is listed among that
   * bidder's won auctions.
   */
  lemma {:induction false} UnsoldKeepsWinner()
    ensures var a := Sold().(status := Active, reservePrice := 500);
      var L := Ledger(map[0 := a], ThreeBids(), [], 1);
      var L' := CloseSweep(L, 1000);
      && 0 in L'.auctions && L'.auctions[0].status == Ended
      && L'.auctions[0].currentWinner == Some(1)
      && L'.orders == []
      && 0 in Bidding.WonAuctions(L', 1)
  {
    var a := Sold().(status := Active, reservePrice := 500);
    var L := Ledger(map[0 := a], ThreeBids(), [], 1);
    assert DueIds(L, 1000) == [0] by {
      assert DueToClose(a, 1000);
      assert DueIdsBelow(L.auctions, 0, 1000) == [];
      assert DueIdsBelow(L.auctions, 1, 1000) == [0];
    }
    assert Unsold(a.(status := Ended));
    assert CloseSweep(L, 1000) == CloseAuction(L, 0, 1000) by {
      assert [0][..0] == [];
      assert CloseAll(L, [], 1000) == L;
      assert CloseAll(L, [0], 1000) == CloseAuction(L, 0, 1000);
    }
  }

  /**
   * A buy-now ends the auction itself, so the close sweep never sells it and
   * no order is ever created for the purchase.
   */
  lemma {:induction false} BuyNowNeverSold(L: Ledger, id: AuctionId, buyer: UserId, now: Time)
    requires Bidding.BuyNow(L, id, buyer).Ok?
    ensures var L' := Bidding.BuyNow(L, id, buyer).value;
      && L'.orders == L.orders
      && forall k :: |L'.orders| <= k < |CloseSweep(L', now).orders| ==> CloseSweep(L', now).orders[k].auction != id
  {
    Bidding.BuyNowEffect(L, id, buyer);
    InactiveNeverSold(Bidding.BuyNow(L, id, buyer).value, id, now);
  }
}
