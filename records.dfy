/**
 * The three stored record kinds of the marketplace: Auction, Bid and Order,
 * with the defaults and bounds their schemas declare.
 *
 * Money is an integer number of minor currency units (paise), so the schema's
 * smallest increment 0.01 is one unit. Time is an integer number of
 * milliseconds. Users and auctions are identified by natural numbers.
 */
module Records {
  import opened Wrappers
  import Text

  type UserId = nat
  type AuctionId = nat
  type Money = int
  type Time = int

  // ---------------------------------------------------------------- Auction

  datatype AuctionStatus = Pending | Active | Ended | Cancelled

  datatype Location = Location(city: string, state: string, country: string)

  datatype Auction = Auction(
    title: string,
    description: string,
    category: string,
    images: seq<string>,
    startingBid: Money,
    currentBid: Money,
    minimumIncrement: Money,
    buyNowPrice: Option<Money>,   // null disables buy-now
    reservePrice: Money,          // 0 means "no reserve"
    startTime: Time,
    endTime: Time,
    seller: UserId,
    currentWinner: Option<UserId>,
    status: AuctionStatus,
    totalBids: int,
    watchers: seq<UserId>,
    interestedUsers: seq<UserId>,
    condition: string,
    shippingCost: Money,
    location: Option<Location>)

  const Categories: set<string> :=
    {"Electronics", "Fashion", "Home & Garden", "Sports", "Collectibles",
     "Art", "Automotive", "Books", "Jewelry", "Other"}

  const Conditions: set<string> := {"New", "Like New", "Good", "Fair", "Poor"}

  /** The schema's smallest increment, 0.01, in minor units. */
  const MinIncrement: Money := 1

  /** The validators the store runs when an auction is saved; lengths are in UTF-16 code units. */
  predicate SchemaValid(a: Auction) {
    && a.title != "" && Text.Utf16Length(a.title) <= 100
    && a.description != "" && Text.Utf16Length(a.description) <= 2000
    && a.category in Categories
    && a.condition in Conditions
    && a.startingBid >= 0
    && a.minimumIncrement >= MinIncrement
    && a.reservePrice >= 0
    && a.shippingCost >= 0
    && a.endTime > a.startTime
  }

  /** The schema default of minimumIncrement, one currency unit, in minor units. */
  const DefaultIncrement: Money := 100

  /** `auction.hasEnded()`: strictly after the end time. */
  predicate HasEnded(a: Auction, now: Time) {
    now > a.endTime
  }

  /** The `isActive` virtual: active status and within [startTime, endTime). */
  predicate IsLive(a: Auction, now: Time) {
    a.status == Active && a.startTime <= now && a.endTime > now
  }

  /**
   * The close sweep's selection: active and `endTime <= now`. It is not the
   * negation of HasEnded: at `now == endTime` both hold of an active auction.
   */
  predicate DueToClose(a: Auction, now: Time) {
    a.status == Active && a.endTime <= now
  }

  // -------------------------------------------------------------------- Bid

  datatype Bid = Bid(
    auction: AuctionId,
    bidder: UserId,
    amount: Money,
    isWinning: bool,
    isAutomatic: bool,
    maxAutoBid: Option<Money>)

  /** A bid created with only the required fields: not winning, manual, no ceiling. */
  function DefaultBid(auction: AuctionId, bidder: UserId, amount: Money): Bid {
    Bid(auction, bidder, amount, false, false, None)
  }

  /** The bid schema's only bound: a non-negative amount. */
  predicate BidValid(b: Bid) {
    b.amount >= 0
  }

  // ------------------------------------------------------------------ Order

  /** 'pending_payment', 'paid', 'cancelled', 'shipped', 'delivered'. */
  datatype OrderStatus = PendingPayment | Paid | OrderCancelled | Shipped | Delivered

  datatype Order = Order(
    auction: AuctionId,
    buyer: UserId,
    seller: UserId,
    amount: Money,
    status: OrderStatus,
    paymentDeadline: Option<Time>,
    trackingNumber: Option<string>,
    shippedAt: Option<Time>,
    deliveredAt: Option<Time>)

  /** 48 hours in milliseconds: the window a buyer has to pay. */
  const PaymentWindow: Time := 48 * 60 * 60 * 1000

  /** The order the scheduler creates for a (re-)offered sale. */
  function PendingOrder(auction: AuctionId, buyer: UserId, seller: UserId, amount: Money, now: Time): Order {
    Order(auction, buyer, seller, amount, PendingPayment, Some(now + PaymentWindow), None, None, None)
  }

  /** The order schema's only bound: a non-negative amount. */
  predicate OrderValid(o: Order) {
    o.amount >= 0
  }

  // ------------------------------------------------------------------ Lemmas

  /** An auction that `isActive` has not ended, and one that has ended is not live. */
  lemma LiveMeansNotEnded(a: Auction, now: Time)
    ensures IsLive(a, now) ==> !HasEnded(a, now) && !DueToClose(a, now)
    ensures HasEnded(a, now) ==> !IsLive(a, now)
  {
  }

  /**
   * At the end instant an active auction is both still biddable (not ended)
   * and already selected by the close sweep.
   */
  lemma EndInstantOverlap(a: Auction)
    requires a.status == Active
    ensures !HasEnded(a, a.endTime) && DueToClose(a, a.endTime) && !IsLive(a, a.endTime)
  {
  }

  // -------------------------------------------------------- order of filters

  /**
   * `idx` lists, in increasing order, positions of `xs` holding the
   * elements of `r` one by one: `r` is `xs` with some elements left out and
   * the rest in their stored order.
   */
  ghost predicate Embeds<T>(idx: seq<nat>, r: seq<T>, xs: seq<T>) {
    && |idx| == |r|
    && (forall k :: 0 <= k < |idx| ==> idx[k] < |xs| && xs[idx[k]] == r[k])
    && (forall k, l :: 0 <= k < l < |idx| ==> idx[k] < idx[l])
  }

  /** Every position moved one place on, as when an element is put in front. */
  function Shift(idx: seq<nat>): (r: seq<nat>)
    ensures |r| == |idx|
    ensures forall k :: 0 <= k < |idx| ==> r[k] == idx[k] + 1
  {
    seq(|idx|, k requires 0 <= k < |idx| => idx[k] + 1)
  }

  lemma {:induction false} EmbedsSnoc<T>(idx: seq<nat>, r: seq<T>, xs: seq<T>, x: T)
    requires Embeds(idx, r, xs)
    ensures Embeds(idx, r, xs + [x])
    ensures Embeds(idx + [|xs|], r + [x], xs + [x])
  {
    var xs' := xs + [x];
    forall k | 0 <= k < |idx| ensures xs'[idx[k]] == r[k] {
      assert xs'[idx[k]] == xs[idx[k]];
    }
    var idx' := idx + [|xs|];
    var r' := r + [x];
    forall k | 0 <= k < |idx'| ensures idx'[k] < |xs'| && xs'[idx'[k]] == r'[k] {
      if k < |idx| {
        assert idx'[k] == idx[k] && r'[k] == r[k];
      }
    }
  }

  lemma {:induction false} EmbedsCons<T>(idx: seq<nat>, r: seq<T>, xs: seq<T>, x: T)
    requires Embeds(idx, r, xs)
    ensures Embeds(Shift(idx), r, [x] + xs)
    ensures Embeds([0] + Shift(idx), [x] + r, [x] + xs)
  {
    var xs' := [x] + xs;
    var s := Shift(idx);
    forall k | 0 <= k < |s| ensures s[k] < |xs'| && xs'[s[k]] == r[k] {
      assert xs'[idx[k] + 1] == xs[idx[k]];
    }
    var idx' := [0] + s;
    var r' := [x] + r;
    forall k | 0 <= k < |idx'| ensures idx'[k] < |xs'| && xs'[idx'[k]] == r'[k] {
      if k > 0 {
        assert idx'[k] == s[k - 1] && r'[k] == r[k - 1];
      }
    }
    forall k, l | 0 <= k < l < |idx'| ensures idx'[k] < idx'[l] {
      assert idx'[l] == s[l - 1];
      if k > 0 {
        assert idx'[k] == s[k - 1];
      }
    }
  }
}
