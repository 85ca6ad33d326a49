/**
 * Listing rules (auctionController.js): creating, updating and deleting an
 * auction, toggling a user in the watcher and interest lists, and the
 * filter and page arithmetic of the public auction list.
 */
module Listings {
  import opened Wrappers
  import opened Text
  import opened Records
  import opened Ledgers
  import Bidding

  datatype ListingError =
    | ListingNotFound    // 404
    | NotAuthorized      // neither the seller nor an admin
    | HasBids            // totalBids > 0
    | ValidationFailed   // the schema rejects the saved auction

  /**
   * The fields of a create or update request body; None is a field that is
   * absent. An end time is present when the body carries a non-empty date.
   */
  datatype Form = Form(
    title: Option<string>,
    description: Option<string>,
    category: Option<string>,
    startingBid: Option<Money>,
    minimumIncrement: Option<Money>,
    buyNowPrice: Option<Money>,
    endTime: Option<Time>,
    condition: Option<string>,
    shippingCost: Option<Money>,
    location: Option<Location>)

  /** `x || d` on an optional string: the empty string is falsy. */
  function OrText(x: Option<string>, d: string): (r: string)
    ensures x.Some? && x.value != "" ==> r == x.value
    ensures x.None? || x.value == "" ==> r == d
  {
    if x.Some? && x.value != "" then x.value else d
  }

  /** `x || d` on an optional number: zero is falsy. */
  function OrMoney(x: Option<Money>, d: Money): (r: Money)
    ensures Bidding.Truthy(x) ==> r == x.value
    ensures !Bidding.Truthy(x) ==> r == d
  {
    if Bidding.Truthy(x) then x.value else d
  }

  /** The stored path of an uploaded image file. */
  function UploadPath(file: string): string {
    "/uploads/auctions/" + file
  }

  function UploadPaths(files: seq<string>): (r: seq<string>)
    ensures |r| == |files|
    ensures forall i :: 0 <= i < |files| ==> r[i] == UploadPath(files[i])
  {
    if files == [] then [] else [UploadPath(files[0])] + UploadPaths(files[1..])
  }

  // ---------------------------------------------------------- createAuction

  /**
   * The document `Auction.create` builds: the current bid starts at the
   * starting bid, a falsy increment becomes one currency unit, a falsy
   * shipping cost becomes 0, the status is active, and every field the
   * handler does not pass takes its schema default. None when a required
   * number or date is absent.
   */
  function NewAuction(f: Form, seller: UserId, files: seq<string>, now: Time): Option<Auction> {
    if f.startingBid.None? || f.endTime.None? then None
    else Some(Auction(
      title := Trim(f.title.GetOr("")),
      description := f.description.GetOr(""),
      category := f.category.GetOr(""),
      images := UploadPaths(files),
      startingBid := f.startingBid.value,
      currentBid := f.startingBid.value,
      minimumIncrement := OrMoney(f.minimumIncrement, DefaultIncrement),
      buyNowPrice := f.buyNowPrice,
      reservePrice := 0,
      startTime := now,
      endTime := f.endTime.value,
      seller := seller,
      currentWinner := None,
      status := Active,
      totalBids := 0,
      watchers := [],
      interestedUsers := [],
      condition := f.condition.GetOr("Good"),
      shippingCost := OrMoney(f.shippingCost, 0),
      location := f.location))
  }

  /** createAuction: the new auction is stored under the next free id. */
  function CreateAuction(L: Ledger, f: Form, seller: UserId, files: seq<string>, now: Time): Result<(Ledger, AuctionId), ListingError> {
    match NewAuction(f, seller, files, now)
    case None => Err(ValidationFailed)
    case Some(a) =>
      if !SchemaValid(a) then Err(ValidationFailed)
      else Ok((L.(auctions := L.auctions[L.nextAuctionId := a], nextAuctionId := L.nextAuctionId + 1), L.nextAuctionId))
  }

  // ------------------------------------------------- updateAuction, delete

  /** The two guards shared by update and delete, in their order. */
  function ChangeGuard(L: Ledger, id: AuctionId, user: UserId, isAdmin: bool): Option<ListingError> {
    if id !in L.auctions then Some(ListingNotFound)
    else if L.auctions[id].seller != user && !isAdmin then Some(NotAuthorized)
    else if L.auctions[id].totalBids > 0 then Some(HasBids)
    else None
  }

  /**
   * The field assignments of updateAuction: every field takes the new value
   * when it is truthy and keeps the old one otherwise, except the shipping
   * cost, which takes any value that is present. New images are appended. A
   * stored title is already trimmed, so keeping it is trimming it again.
   */
  function Patch(a: Auction, f: Form, files: seq<string>): Auction {
    a.(
      title := if f.title.Some? && f.title.value != "" then Trim(f.title.value) else a.title,
      description := OrText(f.description, a.description),
      category := OrText(f.category, a.category),
      startingBid := OrMoney(f.startingBid, a.startingBid),
      minimumIncrement := OrMoney(f.minimumIncrement, a.minimumIncrement),
      buyNowPrice := if Bidding.Truthy(f.buyNowPrice) then f.buyNowPrice else a.buyNowPrice,
      endTime := f.endTime.GetOr(a.endTime),
      condition := OrText(f.condition, a.condition),
      shippingCost := f.shippingCost.GetOr(a.shippingCost),
      location := if f.location.Some? then f.location else a.location,
      images := a.images + UploadPaths(files))
  }

  function UpdateAuction(L: Ledger, id: AuctionId, user: UserId, isAdmin: bool, f: Form, files: seq<string>): Result<Ledger, ListingError> {
    match ChangeGuard(L, id, user, isAdmin)
    case Some(e) => Err(e)
    case None =>
      var a' := Patch(L.auctions[id], f, files);
      if !SchemaValid(a') then Err(ValidationFailed)
      else Ok(L.(auctions := L.auctions[id := a']))
  }

  /** deleteAuction: the auction is removed; its bids, if any, stay behind. */
  function DeleteAuction(L: Ledger, id: AuctionId, user: UserId, isAdmin: bool): Result<Ledger, ListingError> {
    match ChangeGuard(L, id, user, isAdmin)
    case Some(e) => Err(e)
    case None => Ok(L.(auctions := L.auctions - {id}))
  }

  // ------------------------------------------------ toggleWatch, interest

  /** `xs.filter(x => x !== u)`, in order. */
  function Without(xs: seq<UserId>, u: UserId): (r: seq<UserId>)
    ensures |r| <= |xs|
    ensures forall v :: v in r <==> v in xs && v != u
    ensures multiset(r) == multiset(xs)[u := 0]
  {
    if xs == [] then []
    else
      assert xs == [xs[0]] + xs[1..];
      (if xs[0] == u then [] else [xs[0]]) + Without(xs[1..], u)
  }

  /** Remove every occurrence of u when present, otherwise append u once. */
  function Toggle(xs: seq<UserId>, u: UserId): seq<UserId> {
    if u in xs then Without(xs, u) else xs + [u]
  }

  /** The reply of a toggle: the new membership and the new list length. */
  datatype ToggleReply = ToggleReply(store: Ledger, isOn: bool, count: nat)

  function ToggleWatch(L: Ledger, id: AuctionId, u: UserId): Result<ToggleReply, ListingError> {
    if id !in L.auctions then Err(ListingNotFound)
    else
      var a := L.auctions[id];
      var ws := Toggle(a.watchers, u);
      Ok(ToggleReply(L.(auctions := L.auctions[id := a.(watchers := ws)]), u !in a.watchers, |ws|))
  }

  function ToggleInterest(L: Ledger, id: AuctionId, u: UserId): Result<ToggleReply, ListingError> {
    if id !in L.auctions then Err(ListingNotFound)
    else
      var a := L.auctions[id];
      var us := Toggle(a.interestedUsers, u);
      Ok(ToggleReply(L.(auctions := L.auctions[id := a.(interestedUsers := us)]), u !in a.interestedUsers, |us|))
  }

  // ------------------------------------------------------------ getAuctions

  /** The query string; None is a parameter that is absent. */
  datatype Query = Query(status: Option<string>, category: Option<string>, page: Option<int>, limit: Option<int>)

  function StatusName(s: AuctionStatus): string {
    match s
    case Pending => "pending"
    case Active => "active"
    case Ended => "ended"
    case Cancelled => "cancelled"
  }

  /** The query object: a given status, else active or pending; a category unless it is 'All'. */
  predicate Matches(a: Auction, q: Query) {
    && (if q.status.Some? && q.status.value != "" then StatusName(a.status) == q.status.value
        else a.status == Active || a.status == Pending)
    && (q.category.None? || q.category.value == "" || q.category.value == "All" || a.category == q.category.value)
  }

  /** `Auction.find(query)` over the collection, keeping its order. */
  function Select(xs: seq<Auction>, q: Query): (r: seq<Auction>)
    ensures |r| <= |xs|
    ensures forall a :: a in r <==> a in xs && Matches(a, q)
  {
    if xs == [] then []
    else (if Matches(xs[0], q) then [xs[0]] else []) + Select(xs[1..], q)
  }

  /** The selection keeps the collection's order, so a page is a run of the order requested. */
  lemma {:induction false} SelectInOrder(xs: seq<Auction>, q: Query)
    ensures exists idx :: Embeds(idx, Select(xs, q), xs)
    decreases |xs|
  {
    if xs == [] {
      assert Embeds([], Select(xs, q), xs);
    } else {
      var rest := xs[1..];
      assert xs == [xs[0]] + rest;
      SelectInOrder(rest, q);
      var idx: seq<nat> :| Embeds(idx, Select(rest, q), rest);
      EmbedsCons(idx, Select(rest, q), rest, xs[0]);
      var w := if Matches(xs[0], q) then [0] + Shift(idx) else Shift(idx);
      assert Select(xs, q) == (if Matches(xs[0], q) then [xs[0]] + Select(rest, q) else Select(rest, q));
      assert Embeds(w, Select(xs, q), xs);
    }
  }

  /** `Math.ceil(total / limit)`; division by zero gives Infinity, or NaN for 0 / 0. */
  datatype PageCount = Pages(n: int) | Infinity | NaN

  function TotalPages(total: nat, limit: int): PageCount {
    if limit == 0 then (if total == 0 then NaN else Infinity)
    else if limit > 0 then Pages((total + limit - 1) / limit)
    else Pages(-(total / -limit))
  }

  /** `.skip(s).limit(l)`: a limit of 0 means none, a negative limit counts as its magnitude. */
  function Window(xs: seq<Auction>, skip: nat, limit: int): seq<Auction> {
    var from := if skip <= |xs| then skip else |xs|;
    var n := if limit < 0 then -limit else limit;
    var to := if limit == 0 || from + n > |xs| then |xs| else from + n;
    xs[from..to]
  }

  datatype AuctionPage = AuctionPage(auctions: seq<Auction>, currentPage: int, totalPages: PageCount, totalAuctions: nat)

  /**
   * getAuctions over the collection already in the requested sort order.
   * A negative skip is refused by the store, which surfaces as an error.
   */
  function GetAuctions(ordered: seq<Auction>, q: Query): Result<AuctionPage, ListingError> {
    var page := q.page.GetOr(1);
    var limit := q.limit.GetOr(12);
    var skip := (page - 1) * limit;
    var matching := Select(ordered, q);
    if skip < 0 then Err(ValidationFailed)
    else Ok(AuctionPage(Window(matching, skip, limit), page, TotalPages(|matching|, limit), |matching|))
  }

  // ----------------------------------------------------------------- lemmas

  /** Creation succeeds exactly when the required numbers are present and the schema accepts the document. */
  lemma {:induction false} CreateAcceptance(L: Ledger, f: Form, seller: UserId, files: seq<string>, now: Time)
    ensures CreateAuction(L, f, seller, files, now).Ok? <==>
      NewAuction(f, seller, files, now).Some? && SchemaValid(NewAuction(f, seller, files, now).value)
    ensures f.startingBid.None? || f.endTime.None? ==> CreateAuction(L, f, seller, files, now) == Err(ValidationFailed)
  {
  }

  /**
   * The defaults a created auction carries: current bid equal to the starting
   * bid, increment given-or-one-unit, shipping given-or-zero, active, no
   * reserve price (the handler never reads one), no winner and no bids; it is
   * stored under a fresh id and nothing else in the store changes.
   */
  lemma {:induction false} CreateDefaults(L: Ledger, f: Form, seller: UserId, files: seq<string>, now: Time)
    requires Valid(L)
    requires CreateAuction(L, f, seller, files, now).Ok?
    ensures var (L', id) := CreateAuction(L, f, seller, files, now).value;
      && id !in L.auctions && id in L'.auctions
      && L'.auctions.Keys == L.auctions.Keys + {id}
      && (forall k :: k in L.auctions ==> L'.auctions[k] == L.auctions[k])
      && L'.bids == L.bids && L'.orders == L.orders
      && var a := L'.auctions[id];
      && Some(a.currentBid) == f.startingBid && a.startingBid == a.currentBid
      && a.minimumIncrement == (if Bidding.Truthy(f.minimumIncrement) then f.minimumIncrement.value else DefaultIncrement)
      && a.shippingCost == (if Bidding.Truthy(f.shippingCost) then f.shippingCost.value else 0)
      && a.status == Active && a.reservePrice == 0 && a.currentWinner.None? && a.totalBids == 0
      && a.seller == seller && a.startTime == now && a.images == UploadPaths(files)
      && a.watchers == [] && a.interestedUsers == []
  {
  }

  lemma {:induction false} CreateKeepsValid(L: Ledger, f: Form, seller: UserId, files: seq<string>, now: Time)
    requires Valid(L) && CreateAuction(L, f, seller, files, now).Ok?
    ensures Valid(CreateAuction(L, f, seller, files, now).value.0)
  {
  }

  /**
   * Update and delete pass the guards exactly for an existing auction with no
   * bids, requested by its seller or by an admin; each guard's error names the
   * first check that fails.
   */
  lemma {:induction false} ChangeGuards(L: Ledger, id: AuctionId, user: UserId, isAdmin: bool, f: Form, files: seq<string>)
    ensures DeleteAuction(L, id, user, isAdmin).Ok? <==>
      id in L.auctions && (L.auctions[id].seller == user || isAdmin) && L.auctions[id].totalBids <= 0
    ensures UpdateAuction(L, id, user, isAdmin, f, files).Ok? ==>
      id in L.auctions && (L.auctions[id].seller == user || isAdmin) && L.auctions[id].totalBids <= 0
    ensures UpdateAuction(L, id, user, isAdmin, f, files) == Err(NotAuthorized) <==>
      id in L.auctions && L.auctions[id].seller != user && !isAdmin
    ensures UpdateAuction(L, id, user, isAdmin, f, files) == Err(HasBids) <==>
      id in L.auctions && (L.auctions[id].seller == user || isAdmin) && L.auctions[id].totalBids > 0
  {
  }

  /** Delete removes exactly the one auction. */
  lemma {:induction false} DeleteEffect(L: Ledger, id: AuctionId, user: UserId, isAdmin: bool)
    requires DeleteAuction(L, id, user, isAdmin).Ok?
    ensures var L' := DeleteAuction(L, id, user, isAdmin).value;
      && L'.auctions.Keys == L.auctions.Keys - {id}
      && (forall k :: k in L'.auctions ==> L'.auctions[k] == L.auctions[k])
      && L'.bids == L.bids && L'.orders == L.orders
  {
  }

  /**
   * The falsy fallback of an update: a truthy new value replaces each field,
   * a falsy or absent one keeps the old value, the shipping cost takes any
   * present value including 0, images are appended, and what the request
   * cannot name (current bid, winner, status, bids, lists) is untouched.
   */
  lemma {:induction false} UpdateFallback(L: Ledger, id: AuctionId, user: UserId, isAdmin: bool, f: Form, files: seq<string>)
    requires UpdateAuction(L, id, user, isAdmin, f, files).Ok?
    ensures var a := L.auctions[id];
      var L' := UpdateAuction(L, id, user, isAdmin, f, files).value;
      && L'.auctions.Keys == L.auctions.Keys
      && (forall k :: k in L.auctions && k != id ==> L'.auctions[k] == L.auctions[k])
      && L'.bids == L.bids && L'.orders == L.orders
      && L'.nextAuctionId == L.nextAuctionId
      && var a' := L'.auctions[id];
      && a'.title == (if f.title.Some? && f.title.value != "" then Trim(f.title.value) else a.title)
      && a'.category == (if f.category.Some? && f.category.value != "" then f.category.value else a.category)
      && a'.condition == (if f.condition.Some? && f.condition.value != "" then f.condition.value else a.condition)
      && a'.location == (if f.location.Some? then f.location else a.location)
      && a'.description == (if f.description.Some? && f.description.value != "" then f.description.value else a.description)
      && a'.startingBid == (if Bidding.Truthy(f.startingBid) then f.startingBid.value else a.startingBid)
      && a'.minimumIncrement == (if Bidding.Truthy(f.minimumIncrement) then f.minimumIncrement.value else a.minimumIncrement)
      && (Bidding.Truthy(f.buyNowPrice) ==> a'.buyNowPrice == f.buyNowPrice)
      && (!Bidding.Truthy(f.buyNowPrice) ==> a'.buyNowPrice == a.buyNowPrice)
      && a'.endTime == (if f.endTime.Some? then f.endTime.value else a.endTime)
      && a'.shippingCost == (if f.shippingCost.Some? then f.shippingCost.value else a.shippingCost)
      && a'.images == a.images + UploadPaths(files)
      && a'.currentBid == a.currentBid && a'.currentWinner == a.currentWinner
      && a'.status == a.status && a'.totalBids == a.totalBids && a'.seller == a.seller
      && a'.watchers == a.watchers && a'.interestedUsers == a.interestedUsers
      && a'.reservePrice == a.reservePrice && a'.startTime == a.startTime
  {
  }

  lemma {:induction false} UpdateKeepsValid(L: Ledger, id: AuctionId, user: UserId, isAdmin: bool, f: Form, files: seq<string>)
    requires Valid(L) && UpdateAuction(L, id, user, isAdmin, f, files).Ok?
    ensures Valid(UpdateAuction(L, id, user, isAdmin, f, files).value)
  {
  }

  /**
   * Raising the starting bid of an unbid auction does not raise its current
   * bid, so the minimum a bid must reach stays derived from the old starting
   * bid: after raising 100 to 500, a bid of 200 is accepted.
   */
  lemma {:induction false} RaisedStartingBidNotEnforced()
    ensures var a := Bidding.Listing(9, 100, 100, None).(endTime := 1000);
      var L := Ledger(map[0 := a], [], [], 1);
      var f := Form(None, None, None, Some(500), None, None, None, None, None, None);
      && UpdateAuction(L, 0, 9, false, f, []).Ok?
      && var L' := UpdateAuction(L, 0, 9, false, f, []).value;
      && L'.auctions[0].startingBid == 500
      && Bidding.MinimumBid(L'.auctions[0]) == 200
      && Bidding.PlaceBid(L', 0, 1, 200, None, 10).Ok?
  {
    var a := Bidding.Listing(9, 100, 100, None).(endTime := 1000);
    var L := Ledger(map[0 := a], [], [], 1);
    var f := Form(None, None, None, Some(500), None, None, None, None, None, None);
    RaisedStartingBidPatch();
    assert ChangeGuard(L, 0, 9, false) == None;
    var L' := L.(auctions := L.auctions[0 := a.(startingBid := 500)]);
    assert UpdateAuction(L, 0, 9, false, f, []) == Ok(L');
    Bidding.PlaceBidAcceptance(L', 0, 1, 200, None, 10);
  }

  /** The update of the example above changes the starting bid alone. */
  lemma {:induction false} RaisedStartingBidPatch()
    ensures var a := Bidding.Listing(9, 100, 100, None).(endTime := 1000);
      var f := Form(None, None, None, Some(500), None, None, None, None, None, None);
      && Patch(a, f, []) == a.(startingBid := 500)
      && SchemaValid(a.(startingBid := 500))
  {
    var a := Bidding.Listing(9, 100, 100, None).(endTime := 1000);
    assert UploadPaths([]) == [];
    assert a.images + [] == a.images;
  }

  /** Filtering without a value keeps everything else where it was. */
  lemma {:induction false} WithoutAbsent(xs: seq<UserId>, u: UserId)
    requires u !in xs
    ensures Without(xs, u) == xs
    decreases |xs|
  {
    if xs != [] {
      WithoutAbsent(xs[1..], u);
      assert xs == [xs[0]] + xs[1..];
    }
  }

  /**
   * A toggle flips exactly the user's membership, the reply reports the new
   * membership, and the count is the new length: one more when the user was
   * absent, fewer when present.
   */
  lemma {:induction false} ToggleSpec(xs: seq<UserId>, u: UserId)
    ensures u in Toggle(xs, u) <==> u !in xs
    ensures forall v :: v != u ==> (v in Toggle(xs, u) <==> v in xs)
    ensures u !in xs ==> Toggle(xs, u) == xs + [u]
    ensures u in xs ==> |Toggle(xs, u)| < |xs|
    ensures u in xs ==> multiset(Toggle(xs, u)) == multiset(xs)[u := 0]
    ensures u in xs ==> |Toggle(xs, u)| == |xs| - multiset(xs)[u]
    ensures u in xs ==> exists idx :: Embeds(idx, Toggle(xs, u), xs)
  {
    if u in xs {
      WithoutShorter(xs, u);
      WithoutInOrder(xs, u);
      var r := Without(xs, u);
      calc {
        |r|;
        |multiset(r)|;
        |multiset(xs)[u := 0]|;
        { MultisetRemoveAll(multiset(xs), u); }
        |multiset(xs)| - multiset(xs)[u];
        |xs| - multiset(xs)[u];
      }
    }
  }

  /** Dropping every copy of u from a bag shrinks it by u's multiplicity. */
  lemma {:induction false} MultisetRemoveAll(m: multiset<UserId>, u: UserId)
    ensures |m[u := 0]| == |m| - m[u]
  {
    var rest := m[u := 0];
    var copies := multiset{}[u := m[u]];
    assert m == rest + copies;
    assert |copies| == m[u] by {
      CopiesSize(u, m[u]);
    }
  }

  lemma {:induction false} CopiesSize(u: UserId, n: nat)
    ensures |multiset{}[u := n]| == n
    decreases n
  {
    if n > 0 {
      CopiesSize(u, n - 1);
      assert multiset{}[u := n] == multiset{}[u := n - 1] + multiset{u};
    }
  }

  /** `filter` keeps the entries it retains in their stored order. */
  lemma {:induction false} WithoutInOrder(xs: seq<UserId>, u: UserId)
    ensures exists idx :: Embeds(idx, Without(xs, u), xs)
    decreases |xs|
  {
    if xs == [] {
      assert Embeds([], Without(xs, u), xs);
    } else {
      var rest := xs[1..];
      assert xs == [xs[0]] + rest;
      WithoutInOrder(rest, u);
      var tail := Without(rest, u);
      var idx: seq<nat> :| Embeds(idx, tail, rest);
      EmbedsCons(idx, tail, rest, xs[0]);
      if xs[0] != u {
        assert Without(xs, u) == [xs[0]] + tail;
      } else {
        assert Without(xs, u) == tail;
      }
    }
  }

  lemma {:induction false} WithoutShorter(xs: seq<UserId>, u: UserId)
    requires u in xs
    ensures |Without(xs, u)| < |xs|
    decreases |xs|
  {
    if xs[0] != u {
      WithoutShorter(xs[1..], u);
    }
  }

  /** Toggling an absent user twice restores the list. */
  lemma {:induction false} ToggleTwice(xs: seq<UserId>, u: UserId)
    requires u !in xs
    ensures Toggle(Toggle(xs, u), u) == xs
  {
    WithoutAppend(xs, [u], u);
    WithoutAbsent(xs, u);
    assert Without([u], u) == [] by {
      assert [u][1..] == [];
    }
    assert xs + [] == xs;
  }

  lemma {:induction false} WithoutAppend(xs: seq<UserId>, ys: seq<UserId>, u: UserId)
    ensures Without(xs + ys, u) == Without(xs, u) + Without(ys, u)
    decreases |xs|
  {
    if xs == [] {
      assert xs + ys == ys;
    } else {
      assert (xs + ys)[1..] == xs[1..] + ys;
      WithoutAppend(xs[1..], ys, u);
    }
  }

  /** toggleWatch's reply and the stored watcher list agree. */
  lemma {:induction false} ToggleWatchReply(L: Ledger, id: AuctionId, u: UserId)
    requires ToggleWatch(L, id, u).Ok?
    ensures var r := ToggleWatch(L, id, u).value;
      var ws := r.store.auctions[id].watchers;
      && id in r.store.auctions
      && r.isOn == (u in ws) && r.isOn == (u !in L.auctions[id].watchers)
      && r.count == |ws|
      && r.store.auctions[id] == L.auctions[id].(watchers := ws)
      && r.store.bids == L.bids && r.store.orders == L.orders
  {
    ToggleSpec(L.auctions[id].watchers, u);
  }

  /** toggleInterest's reply and the stored interest list agree. */
  lemma {:induction false} ToggleInterestReply(L: Ledger, id: AuctionId, u: UserId)
    requires ToggleInterest(L, id, u).Ok?
    ensures var r := ToggleInterest(L, id, u).value;
      var us := r.store.auctions[id].interestedUsers;
      && id in r.store.auctions
      && r.isOn == (u in us) && r.isOn == (u !in L.auctions[id].interestedUsers)
      && r.count == |us|
      && r.store.auctions[id] == L.auctions[id].(interestedUsers := us)
      && r.store.bids == L.bids && r.store.orders == L.orders
  {
    ToggleSpec(L.auctions[id].interestedUsers, u);
  }

  /** Without a status parameter only active and pending auctions are listed. */
  lemma {:induction false} DefaultStatusFilter(ordered: seq<Auction>, q: Query)
    requires q.status.None? || q.status.value == ""
    requires GetAuctions(ordered, q).Ok?
    ensures forall a :: a in GetAuctions(ordered, q).value.auctions ==> a.status == Active || a.status == Pending
  {
    var p := GetAuctions(ordered, q).value;
    var m := Select(ordered, q);
    forall a | a in p.auctions ensures a.status == Active || a.status == Pending {
      var i :| 0 <= i < |p.auctions| && p.auctions[i] == a;
      assert a in m;
    }
  }

  /** `Math.ceil`: for a positive limit the page count is the least n with n * limit >= total. */
  lemma {:induction false} TotalPagesCeil(total: nat, limit: int)
    requires limit > 0
    ensures TotalPages(total, limit).Pages?
    ensures var n := TotalPages(total, limit).n;
      && n * limit >= total
      && (total == 0 ==> n == 0)
      && (total > 0 ==> (n - 1) * limit < total)
  {
    var n := (total + limit - 1) / limit;
    var r := (total + limit - 1) % limit;
    assert total + limit - 1 == n * limit + r;
  }

  /**
   * With page >= 1 and a positive limit, the page is the slice of the matching
   * auctions starting at (page - 1) * limit, holding limit entries, or the
   * rest when fewer remain.
   */
  lemma {:induction false} PageSlice(ordered: seq<Auction>, q: Query)
    requires q.page.GetOr(1) >= 1 && q.limit.GetOr(12) > 0
    ensures GetAuctions(ordered, q).Ok?
    ensures var p := GetAuctions(ordered, q).value;
      var limit := q.limit.GetOr(12);
      var skip := (q.page.GetOr(1) - 1) * limit;
      var m := Select(ordered, q);
      && |p.auctions| <= limit
      && (skip <= |m| ==> p.auctions == m[skip..skip + |p.auctions|])
      && (skip < |m| ==> |p.auctions| == (if skip + limit <= |m| then limit else |m| - skip))
      && (skip >= |m| ==> p.auctions == [])
  {
    var limit := q.limit.GetOr(12);
    MulMono(0, q.page.GetOr(1) - 1, limit);
  }

  /** The i-th matching auction is on page i / limit + 1, and that page exists. */
  lemma {:induction false} PageOfIndex(total: nat, limit: int, i: nat)
    requires limit > 0 && i < total
    ensures TotalPages(total, limit).Pages?
    ensures var pg := i / limit + 1;
      && 1 <= pg <= TotalPages(total, limit).n
      && (pg - 1) * limit <= i < pg * limit
  {
    TotalPagesCeil(total, limit);
    var n := TotalPages(total, limit).n;
    var pg := i / limit;
    assert i == pg * limit + i % limit;
    assert (pg + 1) * limit == pg * limit + limit;
    if pg + 1 > n {
      MulMono(n, pg, limit);
      assert false;
    }
  }

  lemma {:induction false} MulMono(a: int, b: int, c: int)
    requires a <= b && c > 0
    ensures a * c <= b * c
  {
    assert b * c - a * c == (b - a) * c;
  }
}
