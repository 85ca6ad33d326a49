/**
 * The backend's document store as one mutable object. Each request handler
 * and the scheduled job is a method that updates the stored collections in
 * place, step by step as the handler does, and is proved to leave exactly
 * the state its specification function (Bidding, Scheduler, Payments,
 * Listings) describes.
 */
module Stores {
  import opened Wrappers
  import opened Records
  import opened Ledgers
  import opened Resolution
  import Bidding
  import Scheduler
  import Payments
  import Listings

  class Store {
    var auctions: map<AuctionId, Auction>
    var bids: seq<Bid>
    var orders: seq<Order>
    var nextAuctionId: nat

    /** The stored collections as one value. */
    function State(): Ledger
      reads this
    {
      Ledger(auctions, bids, orders, nextAuctionId)
    }

    predicate Valid()
      reads this
    {
      Ledgers.Valid(State())
    }

    constructor ()
      ensures State() == Ledger(map[], [], [], 0)
      ensures Valid()
    {
      auctions := map[];
      bids := [];
      orders := [];
      nextAuctionId := 0;
    }

    // ------------------------------------------------------------ placeBid

    /**
     * placeBid: on acceptance the store is the one Bidding.PlaceBid
     * describes and the reply is the resolution; on refusal the store is
     * unchanged and the error is the one the handler answers with.
     */
    method PlaceBid(id: AuctionId, bidder: UserId, amount: Money, maxAutoBid: Option<Money>, now: Time)
      returns (r: Result<Resolution, Bidding.BidError>)
      modifies this
      ensures r.Ok? <==> Bidding.PlaceBid(old(State()), id, bidder, amount, maxAutoBid, now).Ok?
      ensures r.Err? ==> Bidding.PlaceBid(old(State()), id, bidder, amount, maxAutoBid, now) == Err(r.error)
      ensures r.Err? ==> State() == old(State())
      ensures r.Ok? ==> (id in old(auctions) &&
        State() == Bidding.PlaceBid(old(State()), id, bidder, amount, maxAutoBid, now).value &&
        r.value == Bidding.PlaceBidResolution(old(State()), id, Bidding.IncomingBid(id, bidder, amount, maxAutoBid)))
      ensures old(Valid()) ==> Valid()
    {
      ghost var L := State();
      var g := Bidding.PlaceBidGuard(State(), id, bidder, amount, now);
      if g.Some? {
        return Err(g.value);
      }
      var a := auctions[id];
      var incoming := Bidding.IncomingBid(id, bidder, amount, maxAutoBid);
      var k := |bids|;
      var bs := bids + [incoming];
      var res := ResolveBids(a, BidsOf(bs, id), bidder, amount);
      assert res == Bidding.PlaceBidResolution(L, id, incoming);
      if res.counterBid.Some? {
        bs := bs + [Bid(id, res.counterBid.value.bidder, res.price, true, true, Some(res.counterBid.value.max))];
      }
      assert bs == L.bids + [incoming] + Bidding.CounterBids(id, res);
      // lines 130-133: clear the auction's flags, then flag the incoming bid
      bs := Bidding.SetWinning(ClearWinning(bs, id), k);
      var a' := a.(currentBid := res.price, currentWinner := res.winner, totalBids := a.totalBids + 1);
      assert L.auctions == auctions && L.bids == bids && L.auctions[id] == a;
      assert bs == Bidding.PlaceBidBids(L, id, incoming, res);
      Bidding.AcceptFields(L, id, incoming, res, auctions[id := a'], bs);
      bids := bs;
      auctions := auctions[id := a'];
      r := Ok(res);
      assert Bidding.PlaceBid(L, id, bidder, amount, maxAutoBid, now) == Ok(State());
      if Ledgers.Valid(L) {
        Bidding.PlaceBidKeepsValid(L, id, bidder, amount, maxAutoBid, now);
      }
    }

    /**
     * Lines 66-129 over the auction's bids: the two loops, then the decision
     * on the sorted ceilings. A counter-bid, when called for, belongs to the
     * winner and stays within its ceiling.
     */
    static method ResolveBids(a: Auction, all: seq<Bid>, bidder: UserId, amount: Money) returns (res: Resolution)
      ensures res == Resolve(a.currentBid, a.startingBid, a.currentWinner, a.minimumIncrement, all, bidder, amount)
      ensures res.counterBid.Some? ==> res.winner == Some(res.counterBid.value.bidder) && res.price <= res.counterBid.value.max
    {
      var base := Base(a.currentBid, a.startingBid);
      var hm := ManualLeader(Leader(base, a.currentWinner), all);
      var autoMap := CollectCeilings(all);
      res := Decide(base, a.currentWinner, a.minimumIncrement, hm, SortByCeiling(autoMap), bidder, amount);
    }

    /**
     * Lines 66-71: the running highest manual bid over the auction's bids,
     * seeded with the current price and winner.
     */
    static method ManualLeader(start: Leader, all: seq<Bid>) returns (hm: Leader)
      ensures hm == HighestManual(start, all)
    {
      hm := start;
      var i := 0;
      while i < |all|
        invariant 0 <= i <= |all|
        invariant hm == HighestManual(start, all[..i])
      {
        var b := all[i];
        assert all[..i + 1][..i] == all[..i];
        if !b.isAutomatic && (hm.amount == 0 || b.amount > hm.amount) {
          hm := Leader(b.amount, Some(b.bidder));
        }
        i := i + 1;
      }
      assert all[..|all|] == all;
    }

    /**
     * Lines 74-82: each bidder's largest automatic ceiling, one entry per
     * bidder in order of first appearance.
     */
    static method CollectCeilings(all: seq<Bid>) returns (autoMap: seq<Ceiling>)
      ensures autoMap == AutoCeilings(all)
      ensures DistinctBidders(autoMap)
    {
      autoMap := [];
      var i := 0;
      while i < |all|
        invariant 0 <= i <= |all|
        invariant autoMap == AutoCeilings(all[..i])
      {
        var b := all[i];
        assert all[..i + 1][..i] == all[..i];
        if b.isAutomatic && b.maxAutoBid.Some? && b.maxAutoBid.value > 0 {
          var j := Find(autoMap, b.bidder);
          if j == |autoMap| {
            autoMap := autoMap + [Ceiling(b.bidder, b.maxAutoBid.value)];
          } else if b.maxAutoBid.value > autoMap[j].max {
            autoMap := autoMap[j := Ceiling(b.bidder, b.maxAutoBid.value)];
          }
        }
        i := i + 1;
      }
      assert all[..|all|] == all;
      AutoCeilingsSpec(all);
    }

    // -------------------------------------------------------------- buyNow

    /** buyNow: the reply is the updated auction. */
    method BuyNow(id: AuctionId, buyer: UserId) returns (r: Result<Auction, Bidding.BidError>)
      modifies this
      ensures r.Ok? <==> Bidding.BuyNow(old(State()), id, buyer).Ok?
      ensures r.Err? ==> Bidding.BuyNow(old(State()), id, buyer) == Err(r.error) && State() == old(State())
      ensures r.Ok? ==> State() == Bidding.BuyNow(old(State()), id, buyer).value && id in auctions && r.value == auctions[id]
      ensures old(Valid()) ==> Valid()
    {
      ghost var L := State();
      var g := Bidding.BuyNowGuard(State(), id, buyer);
      if g.Some? {
        return Err(g.value);
      }
      var a := auctions[id];
      var price := a.buyNowPrice.value;
      bids := bids + [Bid(id, buyer, price, true, false, None)];
      a := a.(currentBid := price, currentWinner := Some(buyer), status := Ended, totalBids := a.totalBids + 1);
      auctions := auctions[id := a];
      r := Ok(a);
      if Ledgers.Valid(L) {
        Bidding.BuyNowKeepsValid(L, id, buyer);
      }
    }

    // ----------------------------------------------------- scheduled job

    /** One run of the job: the close loop, then the payment-deadline loop. */
    method Tick(now: Time)
      modifies this
      ensures State() == Scheduler.Tick(old(State()), now)
      ensures old(Valid()) ==> Valid()
    {
      ghost var L := State();
      CloseDue(now);
      ExpireLapsed(now);
      if Ledgers.Valid(L) {
        Scheduler.TickKeepsValid(L, now);
      }
    }

    /** Lines 12-113: every auction due to close at the start is closed in turn. */
    method CloseDue(now: Time)
      modifies this
      ensures State() == Scheduler.CloseSweep(old(State()), now)
    {
      ghost var L := State();
      var due := Scheduler.DueIds(State(), now);
      var i := 0;
      while i < |due|
        invariant 0 <= i <= |due|
        invariant State() == Scheduler.CloseAll(L, due[..i], now)
      {
        var id := due[i];
        assert due[..i + 1][..i] == due[..i];
        if id in auctions {
          var a := auctions[id].(status := Ended);
          if Scheduler.Unsold(a) {
            bids := ClearWinning(bids, id);
          } else {
            orders := orders + [PendingOrder(id, a.currentWinner.value, a.seller, a.currentBid, now)];
            bids := MarkBidderWinning(bids, id, a.currentWinner.value);
          }
          auctions := auctions[id := a];
        }
        i := i + 1;
      }
      assert due[..|due|] == due;
    }

    /** Lines 117-170: every order expired at the start is cancelled and the item re-offered. */
    method ExpireLapsed(now: Time)
      modifies this
      ensures State() == Scheduler.ExpireOrders(old(State()), now)
    {
      ghost var L := State();
      var ks := Scheduler.ExpiredIds(State(), now);
      var i := 0;
      while i < |ks|
        invariant 0 <= i <= |ks|
        invariant State() == Scheduler.ExpireAll(L, ks[..i], now)
      {
        var k := ks[i];
        assert ks[..i + 1][..i] == ks[..i];
        if k < |orders| {
          var o := orders[k];
          orders := orders[k := o.(status := OrderCancelled)];
          if o.auction in auctions {
            var a := auctions[o.auction];
            var cands := Scheduler.Candidates(bids, o.auction, o.buyer);
            if cands == [] {
              auctions := auctions[o.auction := a.(currentWinner := None)];
            } else {
              var next := Scheduler.HighestBid(cands);
              auctions := auctions[o.auction := a.(currentWinner := Some(next.bidder), currentBid := next.amount)];
              orders := orders + [PendingOrder(o.auction, next.bidder, a.seller, next.amount, now)];
            }
          }
        }
        i := i + 1;
      }
      assert ks[..|ks|] == ks;
    }

    // ------------------------------------------------------------- orders

    /** payOrder: the reply is the paid order. */
    method PayOrder(k: nat, user: UserId) returns (r: Result<Order, Payments.PayError>)
      modifies this
      ensures r.Ok? <==> Payments.PayOrder(old(State()), k, user).Ok?
      ensures r.Err? ==> Payments.PayOrder(old(State()), k, user) == Err(r.error) && State() == old(State())
      ensures r.Ok? ==> State() == Payments.PayOrder(old(State()), k, user).value && k < |orders| && r.value == orders[k]
      ensures old(Valid()) ==> Valid()
    {
      ghost var L := State();
      if k >= |orders| {
        return Err(Payments.OrderNotFound);
      }
      if orders[k].buyer != user {
        return Err(Payments.NotBuyer);
      }
      var o := orders[k].(status := Paid);
      orders := orders[k := o];
      if o.auction in auctions {
        auctions := auctions[o.auction := auctions[o.auction].(status := Ended)];
      }
      r := Ok(o);
      assert State() == Payments.PayOrder(L, k, user).value;
      if Ledgers.Valid(L) {
        Payments.PayOrderKeepsValid(L, k, user);
      }
    }

    // ----------------------------------------------------------- listings

    method CreateAuction(f: Listings.Form, seller: UserId, files: seq<string>, now: Time)
      returns (r: Result<AuctionId, Listings.ListingError>)
      modifies this
      ensures r.Ok? <==> Listings.CreateAuction(old(State()), f, seller, files, now).Ok?
      ensures r.Err? ==> Listings.CreateAuction(old(State()), f, seller, files, now) == Err(r.error) && State() == old(State())
      ensures r.Ok? ==> (State(), r.value) == Listings.CreateAuction(old(State()), f, seller, files, now).value
      ensures old(Valid()) ==> Valid()
    {
      ghost var L := State();
      var a := Listings.NewAuction(f, seller, files, now);
      if a.None? || !SchemaValid(a.value) {
        return Err(Listings.ValidationFailed);
      }
      var id := nextAuctionId;
      auctions := auctions[id := a.value];
      nextAuctionId := nextAuctionId + 1;
      r := Ok(id);
      if Ledgers.Valid(L) {
        Listings.CreateKeepsValid(L, f, seller, files, now);
      }
    }

    method UpdateAuction(id: AuctionId, user: UserId, isAdmin: bool, f: Listings.Form, files: seq<string>)
      returns (r: Result<Auction, Listings.ListingError>)
      modifies this
      ensures r.Ok? <==> Listings.UpdateAuction(old(State()), id, user, isAdmin, f, files).Ok?
      ensures r.Err? ==> Listings.UpdateAuction(old(State()), id, user, isAdmin, f, files) == Err(r.error) && State() == old(State())
      ensures r.Ok? ==> State() == Listings.UpdateAuction(old(State()), id, user, isAdmin, f, files).value && id in auctions && r.value == auctions[id]
      ensures old(Valid()) ==> Valid()
    {
      ghost var L := State();
      var g := Listings.ChangeGuard(State(), id, user, isAdmin);
      if g.Some? {
        return Err(g.value);
      }
      var a := Listings.Patch(auctions[id], f, files);
      if !SchemaValid(a) {
        return Err(Listings.ValidationFailed);
      }
      auctions := auctions[id := a];
      r := Ok(a);
      if Ledgers.Valid(L) {
        Listings.UpdateKeepsValid(L, id, user, isAdmin, f, files);
      }
    }

    method DeleteAuction(id: AuctionId, user: UserId, isAdmin: bool) returns (r: Option<Listings.ListingError>)
      modifies this
      ensures r.None? <==> Listings.DeleteAuction(old(State()), id, user, isAdmin).Ok?
      ensures r.Some? ==> Listings.DeleteAuction(old(State()), id, user, isAdmin) == Err(r.value) && State() == old(State())
      ensures r.None? ==> State() == Listings.DeleteAuction(old(State()), id, user, isAdmin).value
      ensures old(Valid()) ==> Valid()
    {
      r := Listings.ChangeGuard(State(), id, user, isAdmin);
      if r.None? {
        auctions := auctions - {id};
      }
    }

    /** toggleWatch: the reply is the new membership and the watcher count. */
    method ToggleWatch(id: AuctionId, u: UserId) returns (r: Result<(bool, nat), Listings.ListingError>)
      modifies this
      ensures r.Ok? <==> Listings.ToggleWatch(old(State()), id, u).Ok?
      ensures r.Err? ==> Listings.ToggleWatch(old(State()), id, u) == Err(r.error) && State() == old(State())
      ensures r.Ok? ==> var t := Listings.ToggleWatch(old(State()), id, u).value;
        State() == t.store && r.value == (t.isOn, t.count)
      ensures old(Valid()) ==> Valid()
    {
      if id !in auctions {
        return Err(Listings.ListingNotFound);
      }
      var a := auctions[id];
      var isWatching := u in a.watchers;
      if isWatching {
        a := a.(watchers := Listings.Without(a.watchers, u));
      } else {
        a := a.(watchers := a.watchers + [u]);
      }
      auctions := auctions[id := a];
      r := Ok((!isWatching, |a.watchers|));
    }

    /** toggleInterest: the reply is the new membership and the interest count. */
    method ToggleInterest(id: AuctionId, u: UserId) returns (r: Result<(bool, nat), Listings.ListingError>)
      modifies this
      ensures r.Ok? <==> Listings.ToggleInterest(old(State()), id, u).Ok?
      ensures r.Err? ==> Listings.ToggleInterest(old(State()), id, u) == Err(r.error) && State() == old(State())
      ensures r.Ok? ==> var t := Listings.ToggleInterest(old(State()), id, u).value;
        State() == t.store && r.value == (t.isOn, t.count)
      ensures old(Valid()) ==> Valid()
    {
      if id !in auctions {
        return Err(Listings.ListingNotFound);
      }
      var a := auctions[id];
      var isInterested := u in a.interestedUsers;
      if isInterested {
        a := a.(interestedUsers := Listings.Without(a.interestedUsers, u));
      } else {
        a := a.(interestedUsers := a.interestedUsers + [u]);
      }
      auctions := auctions[id := a];
      r := Ok((!isInterested, |a.interestedUsers|));
    }
  }
}
