/**
 * Bidding (bidController.js): placing a bid with proxy resolution, buying at
 * the buy-now price, and the two per-user queries over bids and auctions.
 * Each handler is a function from the store before the request to either the
 * error reply or the store after it.
 */
module Bidding {
  import opened Wrappers
  import opened Records
  import opened Ledgers
  import opened Resolution

  datatype BidError =
    | AuctionNotFound              // 404
    | NotActive                    // status is not 'active'
    | AuctionEnded                 // hasEnded()
    | OwnAuction                   // the seller bids or buys
    | BelowMinimum(minimumBid: Money)
    | AboveBuyNow                  // use buy-now instead
    | BuyNowUnavailable            // buyNowPrice is falsy
    | InvalidBid                   // the stored bid would fail its schema

  /** `!!x` on an optional number: present and non-zero. */
  predicate Truthy(x: Option<Money>) {
    x.Some? && x.value != 0
  }

  // -------------------------------------------------------------- placeBid

  /** The minimum acceptable amount, `currentBid + minimumIncrement`. */
  function MinimumBid(a: Auction): Money {
    a.currentBid + a.minimumIncrement
  }

  /** The checks of lines 16-49, in their order; None when all pass. */
  function PlaceBidGuard(L: Ledger, id: AuctionId, bidder: UserId, amount: Money, now: Time): Option<BidError> {
    if id !in L.auctions then Some(AuctionNotFound)
    else
      var a := L.auctions[id];
      if a.status != Active then Some(NotActive)
      else if HasEnded(a, now) then Some(AuctionEnded)
      else if a.seller == bidder then Some(OwnAuction)
      else if amount < MinimumBid(a) then Some(BelowMinimum(MinimumBid(a)))
      else if Truthy(a.buyNowPrice) && amount >= a.buyNowPrice.value then Some(AboveBuyNow)
      else None
  }

  /** The stored incoming bid: automatic exactly when a truthy ceiling was sent. */
  function IncomingBid(id: AuctionId, bidder: UserId, amount: Money, maxAutoBid: Option<Money>): Bid {
    Bid(id, bidder, amount, false, Truthy(maxAutoBid), if Truthy(maxAutoBid) then maxAutoBid else None)
  }

  /** The synthetic bid of lines 119-126, when the resolution calls for one. */
  function CounterBids(id: AuctionId, r: Resolution): seq<Bid> {
    match r.counterBid
    case None => []
    case Some(c) => [Bid(id, c.bidder, r.price, true, true, Some(c.max))]
  }

  /** `Bid.updateOne({ _id }, { isWinning: true })` on the bid at index `k`. */
  function SetWinning(bids: seq<Bid>, k: nat): seq<Bid> {
    if k < |bids| then bids[k := bids[k].(isWinning := true)] else bids
  }

  /** The resolution computed after the incoming bid is stored. */
  function PlaceBidResolution(L: Ledger, id: AuctionId, incoming: Bid): Resolution
    requires id in L.auctions
  {
    var a := L.auctions[id];
    Resolve(a.currentBid, a.startingBid, a.currentWinner, a.minimumIncrement,
            BidsOf(L.bids + [incoming], id), incoming.bidder, incoming.amount)
  }

  /** The bids after lines 52-133: incoming and counter-bid appended, then the flags reset. */
  function PlaceBidBids(L: Ledger, id: AuctionId, incoming: Bid, r: Resolution): seq<Bid> {
    SetWinning(ClearWinning(L.bids + [incoming] + CounterBids(id, r), id), |L.bids|)
  }

  /** The full placeBid handler. */
  function PlaceBid(L: Ledger, id: AuctionId, bidder: UserId, amount: Money, maxAutoBid: Option<Money>, now: Time)
    : Result<Ledger, BidError>
  {
    match PlaceBidGuard(L, id, bidder, amount, now)
    case Some(e) => Err(e)
    case None =>
      var incoming := IncomingBid(id, bidder, amount, maxAutoBid);
      Ok(Accept(L, id, incoming, PlaceBidResolution(L, id, incoming)))
  }

  /** The store after an admitted bid: the auction takes the resolved price and winner. */
  function Accept(L: Ledger, id: AuctionId, incoming: Bid, r: Resolution): Ledger
    requires id in L.auctions
  {
    var a := L.auctions[id];
    var a' := a.(currentBid := r.price, currentWinner := r.winner, totalBids := a.totalBids + 1);
    L.(auctions := L.auctions[id := a'], bids := PlaceBidBids(L, id, incoming, r))
  }

  /** The store Accept describes, field by field. */
  lemma {:induction false} AcceptFields(L: Ledger, id: AuctionId, incoming: Bid, r: Resolution,
                                        auctions: map<AuctionId, Auction>, bids: seq<Bid>)
    requires id in L.auctions
    requires auctions == L.auctions[id := L.auctions[id].(currentBid := r.price, currentWinner := r.winner,
                                                          totalBids := L.auctions[id].totalBids + 1)]
    requires bids == PlaceBidBids(L, id, incoming, r)
    ensures Ledger(auctions, bids, L.orders, L.nextAuctionId) == Accept(L, id, incoming, r)
  {
  }

  // ---------------------------------------------------------------- buyNow

  /** The checks of lines 169-183 plus the bid schema's bound on the amount. */
  function BuyNowGuard(L: Ledger, id: AuctionId, buyer: UserId): Option<BidError> {
    if id !in L.auctions then Some(AuctionNotFound)
    else
      var a := L.auctions[id];
      if !Truthy(a.buyNowPrice) then Some(BuyNowUnavailable)
      else if a.status != Active then Some(NotActive)
      else if a.seller == buyer then Some(OwnAuction)
      else if a.buyNowPrice.value < 0 then Some(InvalidBid)
      else None
  }

  /**
   * The buyNow handler: a winning manual bid at the buy-now price, and the
   * auction ended with the buyer as winner. There is no end-time check, no
   * order, and no other bid's flag is touched.
   */
  function BuyNow(L: Ledger, id: AuctionId, buyer: UserId): Result<Ledger, BidError> {
    match BuyNowGuard(L, id, buyer)
    case Some(e) => Err(e)
    case None =>
      var a := L.auctions[id];
      var p := a.buyNowPrice.value;
      var a' := a.(currentBid := p, currentWinner := Some(buyer), status := Ended, totalBids := a.totalBids + 1);
      Ok(L.(auctions := L.auctions[id := a'], bids := L.bids + [Bid(id, buyer, p, true, false, None)]))
  }

  // --------------------------------------------------------------- queries

  /** getUserWinningBids: the user's bids flagged winning, newest first. */
  function WinningBids(bids: seq<Bid>, u: UserId): (r: seq<Bid>)
    ensures forall b :: b in r <==> b in bids && b.bidder == u && b.isWinning
    ensures |r| <= |bids|
  {
    if bids == [] then []
    else
      var last := bids[|bids| - 1];
      (if last.bidder == u && last.isWinning then [last] else []) + WinningBids(bids[..|bids| - 1], u)
  }

  /**
   * Newest first: a later winning bid of the user comes ahead of every
   * earlier one, and a later bid that is not theirs or not winning changes
   * nothing.
   */
  lemma {:induction false} WinningBidsNewestFirst(bids: seq<Bid>, b: Bid, u: UserId)
    ensures b.bidder == u && b.isWinning ==> WinningBids(bids + [b], u) == [b] + WinningBids(bids, u)
    ensures !(b.bidder == u && b.isWinning) ==> WinningBids(bids + [b], u) == WinningBids(bids, u)
  {
    assert (bids + [b])[..|bids|] == bids;
  }

  /** getUserWonAuctions: ended auctions whose current winner is the user. */
  function WonAuctions(L: Ledger, u: UserId): (r: set<AuctionId>)
    ensures r <= L.auctions.Keys
    ensures forall id :: id in r ==> L.auctions[id].status == Ended && L.auctions[id].currentWinner == Some(u)
  {
    set id | id in L.auctions && L.auctions[id].currentWinner == Some(u) && L.auctions[id].status == Ended
  }

  /**
   * Rewriting one auction record moves only that auction in or out of a
   * user's won set: it is in afterwards exactly when the new record is ended
   * with the user as winner.
   */
  lemma {:induction false} WonAuctionsUpdate(L: Ledger, id: AuctionId, a: Auction, u: UserId)
    ensures WonAuctions(L.(auctions := L.auctions[id := a]), u)
      == (WonAuctions(L, u) - {id}) + (if a.status == Ended && a.currentWinner == Some(u) then {id} else {})
  {
    var L' := L.(auctions := L.auctions[id := a]);
    var lhs := WonAuctions(L', u);
    var rhs := (WonAuctions(L, u) - {id}) + (if a.status == Ended && a.currentWinner == Some(u) then {id} else {});
    forall k ensures k in lhs <==> k in rhs {
      if k != id {
        assert k in L'.auctions <==> k in L.auctions;
        if k in L.auctions {
          assert L'.auctions[k] == L.auctions[k];
        }
      }
    }
  }

  /**
   * A buy-now adds the auction to the buyer's won auctions and takes it out
   * of everyone else's; other users' won sets are otherwise unchanged.
   */
  lemma {:induction false} BuyNowWon(L: Ledger, id: AuctionId, buyer: UserId, v: UserId)
    requires BuyNow(L, id, buyer).Ok?
    ensures WonAuctions(BuyNow(L, id, buyer).value, buyer) == WonAuctions(L, buyer) + {id}
    ensures v != buyer ==> WonAuctions(BuyNow(L, id, buyer).value, v) == WonAuctions(L, v) - {id}
  {
    var a := L.auctions[id];
    var p := a.buyNowPrice.value;
    var a' := a.(currentBid := p, currentWinner := Some(buyer), status := Ended, totalBids := a.totalBids + 1);
    var L1 := L.(auctions := L.auctions[id := a']);
    WonAuctionsUpdate(L, id, a', buyer);
    WonAuctionsUpdate(L, id, a', v);
    assert WonAuctions(BuyNow(L, id, buyer).value, buyer) == WonAuctions(L1, buyer);
    assert WonAuctions(BuyNow(L, id, buyer).value, v) == WonAuctions(L1, v);
  }

  // ---------------------------------------------------------------- lemmas

  /**
   * A bid is accepted exactly when every check of the handler passes; a
   * refused bid gets the error of the first check that fails, in the
   * handler's order, and a low bid is told the minimum it must reach.
   */
  lemma {:induction false} PlaceBidAcceptance(L: Ledger, id: AuctionId, bidder: UserId, amount: Money, maxAutoBid: Option<Money>, now: Time)
    ensures PlaceBid(L, id, bidder, amount, maxAutoBid, now).Ok? <==>
      && id in L.auctions
      && L.auctions[id].status == Active
      && now <= L.auctions[id].endTime
      && L.auctions[id].seller != bidder
      && amount >= L.auctions[id].currentBid + L.auctions[id].minimumIncrement
      && !(Truthy(L.auctions[id].buyNowPrice) && amount >= L.auctions[id].buyNowPrice.value)
    ensures var r := PlaceBid(L, id, bidder, amount, maxAutoBid, now);
      && (id !in L.auctions ==> r == Err(AuctionNotFound))
      && (id in L.auctions ==>
            var a := L.auctions[id];
            && (a.status != Active ==> r == Err(NotActive))
            && (a.status == Active && now > a.endTime ==> r == Err(AuctionEnded))
            && (a.status == Active && now <= a.endTime && a.seller == bidder ==> r == Err(OwnAuction))
            && (a.status == Active && now <= a.endTime && a.seller != bidder
                && amount < a.currentBid + a.minimumIncrement
                ==> r == Err(BelowMinimum(a.currentBid + a.minimumIncrement)))
            && (a.status == Active && now <= a.endTime && a.seller != bidder
                && amount >= a.currentBid + a.minimumIncrement
                && Truthy(a.buyNowPrice) && amount >= a.buyNowPrice.value
                ==> r == Err(AboveBuyNow)))
  {
  }

  lemma {:induction false} ClearWinningShape(bids: seq<Bid>, id: AuctionId)
    ensures |ClearWinning(bids, id)| == |bids|
    ensures forall i :: 0 <= i < |bids| ==>
      ClearWinning(bids, id)[i] == bids[i].(isWinning := bids[i].isWinning && bids[i].auction != id)
  {
  }

  /**
   * After an accepted bid, among the auction's bids exactly the incoming one
   * is flagged winning, whoever the resolution declares winner; bids of other
   * auctions are untouched, and earlier bids of this auction change only
   * their flag.
   */
  lemma {:induction false} PlaceBidFlags(L: Ledger, id: AuctionId, bidder: UserId, amount: Money,
                                         maxAutoBid: Option<Money>, now: Time)
    requires PlaceBid(L, id, bidder, amount, maxAutoBid, now).Ok?
    ensures var L' := PlaceBid(L, id, bidder, amount, maxAutoBid, now).value;
      && |L.bids| < |L'.bids| <= |L.bids| + 2
      && L'.bids[|L.bids|] == IncomingBid(id, bidder, amount, maxAutoBid).(isWinning := true)
      && (forall i :: 0 <= i < |L'.bids| && L'.bids[i].auction == id ==> (L'.bids[i].isWinning <==> i == |L.bids|))
      && (forall i :: 0 <= i < |L.bids| && L.bids[i].auction != id ==> L'.bids[i] == L.bids[i])
      && (forall i :: 0 <= i < |L.bids| ==> L'.bids[i] == L.bids[i].(isWinning := L'.bids[i].isWinning))
  {
    var incoming := IncomingBid(id, bidder, amount, maxAutoBid);
    AcceptFlags(L, id, incoming, PlaceBidResolution(L, id, incoming));
  }

  lemma {:induction false} AcceptFlags(L: Ledger, id: AuctionId, incoming: Bid, r: Resolution)
    requires id in L.auctions && incoming.auction == id
    ensures var L' := Accept(L, id, incoming, r);
      && |L.bids| < |L'.bids| <= |L.bids| + 2
      && L'.bids[|L.bids|] == incoming.(isWinning := true)
      && (forall i :: 0 <= i < |L'.bids| && L'.bids[i].auction == id ==> (L'.bids[i].isWinning <==> i == |L.bids|))
      && (forall i :: 0 <= i < |L.bids| && L.bids[i].auction != id ==> L'.bids[i] == L.bids[i])
      && (forall i :: 0 <= i < |L.bids| ==> L'.bids[i] == L.bids[i].(isWinning := L'.bids[i].isWinning))
  {
    var all := L.bids + [incoming] + CounterBids(id, r);
    ClearWinningShape(all, id);
    assert forall i :: 0 <= i < |L.bids| ==> all[i] == L.bids[i];
    assert all[|L.bids|] == incoming;
  }

  /**
   * After an accepted bid only the auction changes, and only in its price,
   * winner and bid count: price and winner are the resolution's, the price
   * never falls, the count grows by one, and orders are untouched. A counter-bid is stored exactly when the
   * resolution calls for one; it is then at the new price for the resolution's
   * bidder and within that bidder's ceiling.
   */
  lemma {:induction false} PlaceBidEffect(L: Ledger, id: AuctionId, bidder: UserId, amount: Money, maxAutoBid: Option<Money>, now: Time)
    requires Valid(L)
    requires PlaceBid(L, id, bidder, amount, maxAutoBid, now).Ok?
    ensures var L' := PlaceBid(L, id, bidder, amount, maxAutoBid, now).value;
      var a := L.auctions[id];
      var a' := L'.auctions[id];
      var R := PlaceBidResolution(L, id, IncomingBid(id, bidder, amount, maxAutoBid));
      && a'.currentBid == R.price && a'.currentWinner == R.winner
      && L'.orders == L.orders && L'.nextAuctionId == L.nextAuctionId
      && L'.auctions.Keys == L.auctions.Keys
      && (forall k :: k in L.auctions && k != id ==> L'.auctions[k] == L.auctions[k])
      && a' == a.(currentBid := a'.currentBid, currentWinner := a'.currentWinner, totalBids := a.totalBids + 1)
      && a'.currentBid >= a.currentBid
      && (|L'.bids| == |L.bids| + 1 || |L'.bids| == |L.bids| + 2)
      && (|L'.bids| == |L.bids| + 2 <==> R.counterBid.Some?)
      && (R.counterBid.Some? ==>
            L'.bids[|L.bids| + 1].bidder == R.counterBid.value.bidder
            && L'.bids[|L.bids| + 1].maxAutoBid == Some(R.counterBid.value.max))
      && (|L'.bids| == |L.bids| + 2 ==>
            && (L'.bids[|L.bids| + 1].bidder != bidder || L'.bids[|L.bids| + 1].amount != amount)
            && a'.currentWinner == Some(L'.bids[|L.bids| + 1].bidder)
            && L'.bids[|L.bids| + 1].amount == a'.currentBid
            && L'.bids[|L.bids| + 1].isAutomatic
            && L'.bids[|L.bids| + 1].maxAutoBid.Some?
            && a'.currentBid <= L'.bids[|L.bids| + 1].maxAutoBid.value)
  {
    AdmittedAmount(L, id, bidder, amount, maxAutoBid, now);
    var incoming := IncomingBid(id, bidder, amount, maxAutoBid);
    ResolutionNonNegative(L, id, incoming);
    AcceptEffect(L, id, incoming, PlaceBidResolution(L, id, incoming));
  }

  /** PlaceBidEffect for any resolution with the properties Resolve guarantees. */
  lemma {:induction false} AcceptEffect(L: Ledger, id: AuctionId, incoming: Bid, r: Resolution)
    requires id in L.auctions && r.price >= L.auctions[id].currentBid
    requires r.counterBid.Some? ==>
      r.winner == Some(r.counterBid.value.bidder) && r.price <= r.counterBid.value.max &&
      (r.counterBid.value.bidder != incoming.bidder || r.price != incoming.amount)
    ensures var L' := Accept(L, id, incoming, r);
      var a := L.auctions[id];
      var a' := L'.auctions[id];
      && a'.currentBid == r.price && a'.currentWinner == r.winner
      && L'.orders == L.orders && L'.nextAuctionId == L.nextAuctionId
      && L'.auctions.Keys == L.auctions.Keys
      && (forall k :: k in L.auctions && k != id ==> L'.auctions[k] == L.auctions[k])
      && a' == a.(currentBid := a'.currentBid, currentWinner := a'.currentWinner, totalBids := a.totalBids + 1)
      && a'.currentBid >= a.currentBid
      && (|L'.bids| == |L.bids| + 1 || |L'.bids| == |L.bids| + 2)
      && (|L'.bids| == |L.bids| + 2 <==> r.counterBid.Some?)
      && (r.counterBid.Some? ==>
            L'.bids[|L.bids| + 1].bidder == r.counterBid.value.bidder
            && L'.bids[|L.bids| + 1].maxAutoBid == Some(r.counterBid.value.max))
      && (|L'.bids| == |L.bids| + 2 ==>
            && (L'.bids[|L.bids| + 1].bidder != incoming.bidder || L'.bids[|L.bids| + 1].amount != incoming.amount)
            && a'.currentWinner == Some(L'.bids[|L.bids| + 1].bidder)
            && L'.bids[|L.bids| + 1].amount == a'.currentBid
            && L'.bids[|L.bids| + 1].isAutomatic
            && L'.bids[|L.bids| + 1].maxAutoBid.Some?
            && a'.currentBid <= L'.bids[|L.bids| + 1].maxAutoBid.value)
  {
    ClearWinningShape(L.bids + [incoming] + CounterBids(id, r), id);
  }

  lemma {:induction false} ValidBidsOf(L: Ledger, incoming: Bid, id: AuctionId)
    requires Valid(L) && incoming.amount >= 0
    ensures forall i :: 0 <= i < |BidsOf(L.bids + [incoming], id)| ==> BidsOf(L.bids + [incoming], id)[i].amount >= 0
  {
    var s := BidsOf(L.bids + [incoming], id);
    forall i | 0 <= i < |s| ensures s[i].amount >= 0 {
      assert s[i] in s;
    }
  }

  /** An accepted bid keeps every stored record within its schema. */
  lemma {:induction false} PlaceBidKeepsValid(L: Ledger, id: AuctionId, bidder: UserId, amount: Money, maxAutoBid: Option<Money>, now: Time)
    requires Valid(L)
    requires PlaceBid(L, id, bidder, amount, maxAutoBid, now).Ok?
    ensures Valid(PlaceBid(L, id, bidder, amount, maxAutoBid, now).value)
  {
    AdmittedAmount(L, id, bidder, amount, maxAutoBid, now);
    var incoming := IncomingBid(id, bidder, amount, maxAutoBid);
    ResolutionNonNegative(L, id, incoming);
    AcceptKeepsValid(L, id, incoming, PlaceBidResolution(L, id, incoming));
  }

  /** An admitted amount reaches the minimum bid, so it is never negative. */
  lemma {:induction false} AdmittedAmount(L: Ledger, id: AuctionId, bidder: UserId, amount: Money,
                                          maxAutoBid: Option<Money>, now: Time)
    requires Valid(L)
    requires PlaceBid(L, id, bidder, amount, maxAutoBid, now).Ok?
    ensures id in L.auctions && amount >= MinimumBid(L.auctions[id]) && amount >= 0
  {
    PlaceBidPassedGuard(L, id, bidder, amount, maxAutoBid, now);
    var a := L.auctions[id];
    assert SchemaValid(a) && a.currentBid >= 0;
  }

  /** An accepted bid passed every guard. */
  lemma {:induction false} PlaceBidPassedGuard(L: Ledger, id: AuctionId, bidder: UserId, amount: Money,
                                               maxAutoBid: Option<Money>, now: Time)
    requires PlaceBid(L, id, bidder, amount, maxAutoBid, now).Ok?
    ensures PlaceBidGuard(L, id, bidder, amount, now) == None
    ensures id in L.auctions && amount >= MinimumBid(L.auctions[id])
  {
  }

  lemma {:induction false} ResolutionNonNegative(L: Ledger, id: AuctionId, incoming: Bid)
    requires Valid(L) && id in L.auctions && incoming.amount >= 0
    ensures PlaceBidResolution(L, id, incoming).price >= L.auctions[id].currentBid >= 0
  {
    var a := L.auctions[id];
    var bids := BidsOf(L.bids + [incoming], id);
    ValidBidsOf(L, incoming, id);
    ResolveNeverLowersPrice(a.currentBid, a.startingBid, a.currentWinner, a.minimumIncrement, bids,
                            incoming.bidder, incoming.amount);
  }

  lemma {:induction false} AcceptKeepsValid(L: Ledger, id: AuctionId, incoming: Bid, r: Resolution)
    requires Valid(L) && id in L.auctions && incoming.amount >= 0 && r.price >= 0
    ensures Valid(Accept(L, id, incoming, r))
  {
    var all := L.bids + [incoming] + CounterBids(id, r);
    assert forall i :: 0 <= i < |all| ==> all[i].amount >= 0;
    PlaceBidBidsAmounts(L, id, incoming, r);
  }

  lemma {:induction false} PlaceBidBidsAmounts(L: Ledger, id: AuctionId, incoming: Bid, r: Resolution)
    ensures var all := L.bids + [incoming] + CounterBids(id, r);
      var out := PlaceBidBids(L, id, incoming, r);
      |out| == |all| && forall i :: 0 <= i < |all| ==> out[i].amount == all[i].amount
  {
    ClearWinningShape(L.bids + [incoming] + CounterBids(id, r), id);
  }

  /** A small listing used by the worked examples. */
  function Listing(seller: UserId, price: Money, increment: Money, buyNow: Option<Money>): Auction {
    Auction("Lamp", "A desk lamp", "Other", [], price, price, increment, buyNow, 0, 0, 1000,
            seller, None, Active, 0, [], [], "Good", 0, None)
  }

  /**
   * The incoming bid is flagged winning even when it loses: with A's automatic
   * ceiling of 200 on record, B's manual 150 is outbid by a counter-bid of
   * 155 for A, yet B's bid is the one flagged winning afterwards.
   */
  lemma {:induction false} LosingBidFlaggedWinning()
    ensures var a := Listing(9, 100, 5, None).(currentBid := 105, currentWinner := Some(1), totalBids := 1);
      var L := Ledger(map[0 := a], [Bid(0, 1, 105, false, true, Some(200))], [], 1);
      var L' := PlaceBid(L, 0, 2, 150, None, 500);
      && L'.Ok?
      && L'.value.auctions[0].currentWinner == Some(1)
      && L'.value.auctions[0].currentBid == 155
      && L'.value.bids == [Bid(0, 1, 105, false, true, Some(200)), Bid(0, 2, 150, true, false, None),
                           Bid(0, 1, 155, false, true, Some(200))]
  {
    var a := Listing(9, 100, 5, None).(currentBid := 105, currentWinner := Some(1), totalBids := 1);
    var L := Ledger(map[0 := a], [Bid(0, 1, 105, false, true, Some(200))], [], 1);
    var B := Bid(0, 2, 150, false, false, None);
    assert PlaceBidGuard(L, 0, 2, 150, 500) == None;
    assert IncomingBid(0, 2, 150, None) == B;
    CounterExampleAccept(L);
  }

  lemma {:induction false} CounterExampleAccept(L: Ledger)
    requires L == Ledger(map[0 := Listing(9, 100, 5, None).(currentBid := 105, currentWinner := Some(1), totalBids := 1)],
                         [Bid(0, 1, 105, false, true, Some(200))], [], 1)
    ensures var L' := Accept(L, 0, Bid(0, 2, 150, false, false, None), PlaceBidResolution(L, 0, Bid(0, 2, 150, false, false, None)));
      && L'.auctions[0].currentWinner == Some(1)
      && L'.auctions[0].currentBid == 155
      && L'.bids == [Bid(0, 1, 105, false, true, Some(200)), Bid(0, 2, 150, true, false, None),
                     Bid(0, 1, 155, false, true, Some(200))]
  {
    var A := Bid(0, 1, 105, false, true, Some(200));
    var B := Bid(0, 2, 150, false, false, None);
    var C := Bid(0, 1, 155, true, true, Some(200));
    assert BidsOf(L.bids + [B], 0) == [A, B] by {
      assert L.bids + [B] == [A, B];
      assert [A, B][..1] == [A] && [A][..0] == [];
      assert BidsOf([A], 0) == [A];
    }
    var r := PlaceBidResolution(L, 0, B);
    assert r == Resolution(155, Some(1), Some(Ceiling(1, 200))) by {
      ProxyCounter();
    }
    assert PlaceBidBids(L, 0, B, r) == [A, B.(isWinning := true), C.(isWinning := false)] by {
      assert CounterBids(0, r) == [C];
      assert L.bids + [B] + CounterBids(0, r) == [A, B, C];
      assert ClearWinning([A, B, C], 0) == [A, B, C.(isWinning := false)];
    }
  }

  /** A buy-now is accepted exactly when every check of the handler passes. */
  lemma {:induction false} BuyNowAcceptance(L: Ledger, id: AuctionId, buyer: UserId)
    ensures BuyNow(L, id, buyer).Ok? <==>
      && id in L.auctions
      && Truthy(L.auctions[id].buyNowPrice)
      && L.auctions[id].status == Active
      && L.auctions[id].seller != buyer
      && L.auctions[id].buyNowPrice.value >= 0
  {
  }

  /**
   * An accepted buy-now appends one winning bid at the buy-now price and
   * leaves every other bid and every order as it was; the auction is ended
   * with the buyer as winner.
   */
  lemma {:induction false} BuyNowEffect(L: Ledger, id: AuctionId, buyer: UserId)
    requires BuyNow(L, id, buyer).Ok?
    ensures var L' := BuyNow(L, id, buyer).value;
      var a := L.auctions[id];
      && L'.bids[..|L.bids|] == L.bids
      && L'.bids == L.bids + [Bid(id, buyer, a.buyNowPrice.value, true, false, None)]
      && L'.orders == L.orders
      && L'.auctions[id].status == Ended
      && L'.auctions[id].currentWinner == Some(buyer)
      && L'.auctions[id].currentBid == a.buyNowPrice.value
      && L'.auctions[id].totalBids == a.totalBids + 1
      && L'.auctions == L.auctions[id := a.(currentBid := a.buyNowPrice.value, currentWinner := Some(buyer),
                                             status := Ended, totalBids := a.totalBids + 1)]
      && L'.nextAuctionId == L.nextAuctionId
      && id in WonAuctions(L', buyer)
      && (forall k :: k in L.auctions && k != id ==> L'.auctions[k] == L.auctions[k])
  {
    var L' := BuyNow(L, id, buyer).value;
    assert L'.bids[..|L.bids|] == L.bids;
  }

  /** A buy-now keeps every stored record within its schema. */
  lemma {:induction false} BuyNowKeepsValid(L: Ledger, id: AuctionId, buyer: UserId)
    requires Valid(L)
    requires BuyNow(L, id, buyer).Ok?
    ensures Valid(BuyNow(L, id, buyer).value)
  {
  }

  /**
   * Buying is possible after the end time, and leaves an earlier winning flag
   * in place: afterwards two bids of the auction are flagged winning.
   */
  lemma {:induction false} BuyNowAfterEndKeepsOldFlag()
    ensures var L := Ledger(map[0 := Listing(9, 100, 5, Some(500))], [Bid(0, 1, 105, true, false, None)], [], 1);
      && HasEnded(L.auctions[0], 5000)
      && BuyNow(L, 0, 2).Ok?
      && BuyNow(L, 0, 2).value.bids == [Bid(0, 1, 105, true, false, None), Bid(0, 2, 500, true, false, None)]
      && BuyNow(L, 0, 2).value.orders == []
  {
  }
}
