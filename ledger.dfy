/**
 * The contents of the document store as one value: auctions by id, bids and
 * orders in insertion order (a bid's or an order's id is its position), and
 * the next free auction id.
 */
module Ledgers {
  import opened Wrappers
  import opened Records

  datatype Ledger = Ledger(
    auctions: map<AuctionId, Auction>,
    bids: seq<Bid>,
    orders: seq<Order>,
    nextAuctionId: nat)

  /** Every stored record passes its schema; every auction id was handed out. */
  predicate Valid(L: Ledger) {
    && (forall id :: id in L.auctions ==>
          id < L.nextAuctionId && SchemaValid(L.auctions[id]) && L.auctions[id].currentBid >= 0)
    && (forall i :: 0 <= i < |L.bids| ==> BidValid(L.bids[i]))
    && (forall i :: 0 <= i < |L.orders| ==> OrderValid(L.orders[i]))
  }

  /** `Bid.find({ auction: id })`, in store order. */
  function BidsOf(bids: seq<Bid>, id: AuctionId): (r: seq<Bid>)
    ensures |r| <= |bids|
    ensures forall b :: b in r <==> b in bids && b.auction == id
  {
    if bids == [] then []
    else BidsOf(bids[..|bids| - 1], id) + (if bids[|bids| - 1].auction == id then [bids[|bids| - 1]] else [])
  }

  /** Storing one more bid adds it to the end of its own auction's list and to no other. */
  lemma {:induction false} BidsOfSnoc(s: seq<Bid>, b: Bid, id: AuctionId)
    ensures BidsOf(s + [b], id) == BidsOf(s, id) + (if b.auction == id then [b] else [])
  {
    assert (s + [b])[..|s|] == s;
  }

  /** `Bid.updateMany({ auction: id }, { isWinning: false })`. */
  function ClearWinning(bids: seq<Bid>, id: AuctionId): seq<Bid> {
    seq(|bids|, i requires 0 <= i < |bids| =>
      if bids[i].auction == id then bids[i].(isWinning := false) else bids[i])
  }

  /**
   * The two `updateMany` calls of a sold close: the winner's bids of the
   * auction become winning, everyone else's bids of the auction not.
   */
  function MarkBidderWinning(bids: seq<Bid>, id: AuctionId, winner: UserId): seq<Bid> {
    seq(|bids|, i requires 0 <= i < |bids| =>
      if bids[i].auction == id then bids[i].(isWinning := bids[i].bidder == winner) else bids[i])
  }

  /** Nothing about the bids changes except possibly their isWinning flags. */
  predicate SameBidsUpToFlags(before: seq<Bid>, after: seq<Bid>) {
    |before| == |after| &&
    forall i :: 0 <= i < |before| ==> after[i] == before[i].(isWinning := after[i].isWinning)
  }
}
