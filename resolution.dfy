/**
 * Proxy-price resolution: what `placeBid` computes from the whole bid set of
 * an auction once the incoming bid is stored (bidController.js, lines 66-129).
 *
 * - HighestManual is the first `forEach`: the running best manual bid, seeded
 *   with the auction's price and winner, where an amount of 0 counts as "none".
 * - AutoCeilings is the second `forEach`: one entry per bidder with a positive
 *   ceiling, in order of first appearance (a JavaScript Map keeps insertion
 *   order when an existing key is overwritten).
 * - SortByCeiling is `autos.sort((a, b) => b.max - a.max)`, a stable sort.
 * - Decide is the final branch on the number of automatic bidders.
 */
module Resolution {
  import opened Wrappers
  import opened Records

  /** The `highestManual` pair. */
  datatype Leader = Leader(amount: Money, bidder: Option<UserId>)

  /** One `{ bidder, max }` entry of `autos`. */
  datatype Ceiling = Ceiling(bidder: UserId, max: Money)

  /**
   * The new price and winner, and the automatic counter-bid the code stores
   * (bidder and ceiling; its amount is the price) when there is one.
   */
  datatype Resolution = Resolution(price: Money, winner: Option<UserId>, counterBid: Option<Ceiling>)

  function Max(a: int, b: int): int { if a >= b then a else b }

  function Min(a: int, b: int): int { if a <= b then a else b }

  /** `auction.currentBid || auction.startingBid`: a price of 0 falls back to the start price. */
  function Base(currentBid: Money, startingBid: Money): Money {
    if currentBid != 0 then currentBid else startingBid
  }

  // ------------------------------------------------------------ manual bids

  function ManualStep(hm: Leader, b: Bid): Leader {
    if !b.isAutomatic && (hm.amount == 0 || b.amount > hm.amount) then Leader(b.amount, Some(b.bidder)) else hm
  }

  function HighestManual(start: Leader, bids: seq<Bid>): Leader {
    if bids == [] then start
    else ManualStep(HighestManual(start, bids[..|bids| - 1]), bids[|bids| - 1])
  }

  /** The leader a manual bid would become. */
  function LeaderOf(b: Bid): Leader {
    Leader(b.amount, Some(b.bidder))
  }

  /**
   * With non-negative amounts, the running leader ends at the largest manual
   * amount (or the seed if none is larger). When it is not the seed and is
   * positive, it is the earliest manual bid reaching that amount.
   */
  lemma {:induction false} HighestManualIsMaximum(start: Leader, bids: seq<Bid>)
    requires start.amount >= 0
    requires forall i :: 0 <= i < |bids| ==> bids[i].amount >= 0
    ensures HighestManual(start, bids).amount >= start.amount
    ensures forall i :: 0 <= i < |bids| && !bids[i].isAutomatic ==> bids[i].amount <= HighestManual(start, bids).amount
    ensures var hm := HighestManual(start, bids);
      hm == start ||
      exists i :: 0 <= i < |bids| && !bids[i].isAutomatic && hm == LeaderOf(bids[i]) &&
        (hm.amount > 0 ==> forall j :: 0 <= j < i && !bids[j].isAutomatic ==> bids[j].amount < hm.amount)
  {
    if bids != [] {
      var n := |bids| - 1;
      var s := bids[..n];
      HighestManualIsMaximum(start, s);
      var prev := HighestManual(start, s);
      var hm := HighestManual(start, bids);
      assert forall i :: 0 <= i < n ==> s[i] == bids[i];
      if hm != prev {
        assert hm == LeaderOf(bids[n]) && !bids[n].isAutomatic;
        assert hm.amount > 0 ==> forall j :: 0 <= j < n && !bids[j].isAutomatic ==> bids[j].amount < hm.amount;
      } else if prev != start {
        var i :| 0 <= i < n && !s[i].isAutomatic && prev == LeaderOf(s[i]) &&
          (prev.amount > 0 ==> forall j :: 0 <= j < i && !s[j].isAutomatic ==> s[j].amount < prev.amount);
        assert !bids[i].isAutomatic && hm == LeaderOf(bids[i]);
      }
    }
  }

  // --------------------------------------------------------- automatic bids

  /** `b.isAutomatic && b.maxAutoBid && b.maxAutoBid > 0`. */
  predicate Qualifies(b: Bid) {
    b.isAutomatic && b.maxAutoBid.Some? && b.maxAutoBid.value > 0
  }

  /** Position of `p` in the association list, or its length when absent (`autoMap.get`). */
  function Find(m: seq<Ceiling>, p: UserId): (k: nat)
    ensures k <= |m|
    ensures k < |m| ==> m[k].bidder == p
    ensures forall j :: 0 <= j < k ==> m[j].bidder != p
  {
    if m == [] then 0 else if m[0].bidder == p then 0 else 1 + Find(m[1..], p)
  }

  function AutoStep(m: seq<Ceiling>, b: Bid): seq<Ceiling> {
    if !Qualifies(b) then m
    else
      var k := Find(m, b.bidder);
      if k == |m| then m + [Ceiling(b.bidder, b.maxAutoBid.value)]
      else if b.maxAutoBid.value > m[k].max then m[k := Ceiling(b.bidder, b.maxAutoBid.value)]
      else m
  }

  function AutoCeilings(bids: seq<Bid>): seq<Ceiling> {
    if bids == [] then [] else AutoStep(AutoCeilings(bids[..|bids| - 1]), bids[|bids| - 1])
  }

  /** Index of `p`'s first qualifying bid, or the length when there is none. */
  function FirstQualifying(bids: seq<Bid>, p: UserId): (x: nat)
    ensures x <= |bids|
    ensures x < |bids| ==> Qualifies(bids[x]) && bids[x].bidder == p
    ensures forall y :: 0 <= y < x ==> !(Qualifies(bids[y]) && bids[y].bidder == p)
  {
    if bids == [] then 0
    else if Qualifies(bids[0]) && bids[0].bidder == p then 0
    else 1 + FirstQualifying(bids[1..], p)
  }

  lemma {:induction false} FirstQualifyingPrefix(s: seq<Bid>, b: Bid, p: UserId, y: nat)
    requires y < |s| && Qualifies(s[y]) && s[y].bidder == p
    ensures FirstQualifying(s + [b], p) == FirstQualifying(s, p)
  {
    var x0 := FirstQualifying(s, p);
    var x1 := FirstQualifying(s + [b], p);
    assert (s + [b])[x0] == s[x0];
    assert x1 <= x0;
    assert (s + [b])[x1] == s[x1];
  }

  /** No bidder appears twice. */
  predicate DistinctBidders(m: seq<Ceiling>) {
    forall i, j :: 0 <= i < j < |m| ==> m[i].bidder != m[j].bidder
  }

  /** `b` is a qualifying bid of `c`'s bidder with exactly `c`'s ceiling. */
  predicate Witnesses(b: Bid, c: Ceiling) {
    Qualifies(b) && b.bidder == c.bidder && b.maxAutoBid.value == c.max
  }

  /** `c` is the entry of `b`'s bidder and holds at least `b`'s ceiling. */
  predicate Covers(c: Ceiling, b: Bid) {
    b.maxAutoBid.Some? && c.bidder == b.bidder && b.maxAutoBid.value <= c.max
  }

  /** Every entry comes from some qualifying bid. */
  predicate Sound(bids: seq<Bid>, m: seq<Ceiling>) {
    forall i :: 0 <= i < |m| ==> exists x :: 0 <= x < |bids| && Witnesses(bids[x], m[i])
  }

  /** Every qualifying bid is covered by an entry. */
  predicate Complete(bids: seq<Bid>, m: seq<Ceiling>) {
    forall x :: 0 <= x < |bids| && Qualifies(bids[x]) ==> exists i :: 0 <= i < |m| && Covers(m[i], bids[x])
  }

  /** Entries are ordered by their bidder's first qualifying bid. */
  predicate FirstAppearanceOrder(bids: seq<Bid>, m: seq<Ceiling>) {
    forall i, j :: 0 <= i < j < |m| ==> FirstQualifying(bids, m[i].bidder) < FirstQualifying(bids, m[j].bidder)
  }

  /** AutoStep keeps every listed bidder in place and may append the new bid's bidder. */
  lemma {:induction false} StepBidders(mp: seq<Ceiling>, b: Bid)
    ensures |mp| <= |AutoStep(mp, b)| <= |mp| + 1
    ensures forall i :: 0 <= i < |mp| ==> AutoStep(mp, b)[i].bidder == mp[i].bidder
    ensures |AutoStep(mp, b)| == |mp| + 1 ==>
      Qualifies(b) && Find(mp, b.bidder) == |mp| && AutoStep(mp, b)[|mp|].bidder == b.bidder
  {
  }

  lemma {:induction false} StepDistinct(mp: seq<Ceiling>, b: Bid)
    requires DistinctBidders(mp)
    ensures DistinctBidders(AutoStep(mp, b))
  {
    StepBidders(mp, b);
  }

  lemma {:induction false} StepSound(s: seq<Bid>, mp: seq<Ceiling>, b: Bid)
    requires Sound(s, mp)
    ensures Sound(s + [b], AutoStep(mp, b))
  {
    var bids := s + [b];
    var m := AutoStep(mp, b);
    assert bids[|s|] == b;
    forall i | 0 <= i < |mp| ensures exists x :: 0 <= x < |bids| && Witnesses(bids[x], mp[i]) {
      var x :| 0 <= x < |s| && Witnesses(s[x], mp[i]);
      assert bids[x] == s[x];
    }
    if Qualifies(b) {
      var c := Ceiling(b.bidder, b.maxAutoBid.value);
      assert Witnesses(bids[|s|], c);
      var k := Find(mp, b.bidder);
      if k == |mp| {
        assert m == mp + [c];
      } else if b.maxAutoBid.value > mp[k].max {
        assert m == mp[k := c];
      }
    }
  }

  lemma {:induction false} StepComplete(s: seq<Bid>, mp: seq<Ceiling>, b: Bid)
    requires Complete(s, mp) && DistinctBidders(mp)
    ensures Complete(s + [b], AutoStep(mp, b))
  {
    var bids := s + [b];
    var m := AutoStep(mp, b);
    var k := Find(mp, b.bidder);
    forall x | 0 <= x < |bids| && Qualifies(bids[x]) ensures exists i :: 0 <= i < |m| && Covers(m[i], bids[x]) {
      if x == |s| {
        assert Covers(m[k], bids[x]);
      } else {
        assert bids[x] == s[x];
        var i :| 0 <= i < |mp| && Covers(mp[i], s[x]);
        if Qualifies(b) && k < |mp| && i == k {
          assert Covers(m[k], bids[x]);
        } else {
          assert m[i] == mp[i];
        }
      }
    }
  }

  /** Bidders already listed keep their first qualifying index when a bid is appended. */
  lemma {:induction false} ListedKeepFirst(s: seq<Bid>, mp: seq<Ceiling>, b: Bid)
    requires Sound(s, mp)
    ensures forall i :: 0 <= i < |mp| ==>
      FirstQualifying(s + [b], mp[i].bidder) == FirstQualifying(s, mp[i].bidder) < |s|
  {
    forall i | 0 <= i < |mp|
      ensures FirstQualifying(s + [b], mp[i].bidder) == FirstQualifying(s, mp[i].bidder) < |s|
    {
      var x :| 0 <= x < |s| && Witnesses(s[x], mp[i]);
      FirstQualifyingPrefix(s, b, mp[i].bidder, x);
    }
  }

  /** A bidder missing from a complete list first qualifies with the appended bid. */
  lemma {:induction false} NewBidderFirst(s: seq<Bid>, mp: seq<Ceiling>, b: Bid)
    requires Complete(s, mp) && Qualifies(b) && Find(mp, b.bidder) == |mp|
    ensures FirstQualifying(s + [b], b.bidder) == |s|
  {
    var bids := s + [b];
    forall y | 0 <= y < |s| ensures !(Qualifies(bids[y]) && bids[y].bidder == b.bidder) {
      assert bids[y] == s[y];
    }
    assert bids[|s|] == b;
  }

  lemma {:induction false} StepOrder(s: seq<Bid>, mp: seq<Ceiling>, b: Bid)
    requires FirstAppearanceOrder(s, mp)
    requires forall i :: 0 <= i < |mp| ==>
      FirstQualifying(s + [b], mp[i].bidder) == FirstQualifying(s, mp[i].bidder) < |s|
    requires |AutoStep(mp, b)| == |mp| + 1 ==> FirstQualifying(s + [b], b.bidder) == |s|
    ensures FirstAppearanceOrder(s + [b], AutoStep(mp, b))
  {
    var bids := s + [b];
    var m := AutoStep(mp, b);
    StepBidders(mp, b);
    forall i, j | 0 <= i < j < |m|
      ensures FirstQualifying(bids, m[i].bidder) < FirstQualifying(bids, m[j].bidder)
    {
      assert m[i].bidder == mp[i].bidder;
      if j < |mp| {
        assert m[j].bidder == mp[j].bidder;
      }
    }
  }

  /**
   * Each bidder with a qualifying bid appears exactly once, with their largest
   * ceiling, and bidders appear in the order of their first qualifying bid.
   */
  lemma {:induction false} AutoCeilingsSpec(bids: seq<Bid>)
    ensures DistinctBidders(AutoCeilings(bids))
    ensures Sound(bids, AutoCeilings(bids))
    ensures Complete(bids, AutoCeilings(bids))
    ensures FirstAppearanceOrder(bids, AutoCeilings(bids))
  {
    if bids != [] {
      var n := |bids| - 1;
      var s := bids[..n];
      var b := bids[n];
      assert s + [b] == bids;
      AutoCeilingsSpec(s);
      var mp := AutoCeilings(s);
      assert AutoCeilings(bids) == AutoStep(mp, b);
      StepDistinct(mp, b);
      StepSound(s, mp, b);
      StepComplete(s, mp, b);
      ListedKeepFirst(s, mp, b);
      StepBidders(mp, b);
      if |AutoStep(mp, b)| == |mp| + 1 {
        NewBidderFirst(s, mp, b);
      }
      StepOrder(s, mp, b);
    }
  }

  // ------------------------------------------------------------ stable sort

  /** Places `c` after every entry whose ceiling is at least its own. */
  function Insert(c: Ceiling, s: seq<Ceiling>): (r: seq<Ceiling>)
    ensures |r| == |s| + 1
    ensures multiset(r) == multiset(s) + multiset{c}
  {
    if s == [] then [c]
    else
      assert s == [s[0]] + s[1..];
      if s[0].max >= c.max then [s[0]] + Insert(c, s[1..]) else [c] + s
  }

  /** Insertion of each entry in turn: a stable sort by descending ceiling. */
  function SortByCeiling(m: seq<Ceiling>): (r: seq<Ceiling>)
    ensures |r| == |m|
    ensures multiset(r) == multiset(m)
  {
    if m == [] then []
    else assert m == m[..|m| - 1] + [m[|m| - 1]]; Insert(m[|m| - 1], SortByCeiling(m[..|m| - 1]))
  }

  predicate SortedDesc(s: seq<Ceiling>) {
    forall i, j :: 0 <= i < j < |s| ==> s[i].max >= s[j].max
  }

  lemma {:induction false} InsertSorted(c: Ceiling, s: seq<Ceiling>)
    requires SortedDesc(s)
    ensures SortedDesc(Insert(c, s))
  {
    if s != [] && s[0].max >= c.max {
      var u := s[1..];
      assert SortedDesc(u) by {
        forall i, j | 0 <= i < j < |u| ensures u[i].max >= u[j].max {
          assert u[i] == s[i + 1] && u[j] == s[j + 1];
        }
      }
      InsertSorted(c, u);
      var t := Insert(c, u);
      forall x | x in t ensures x.max <= s[0].max {
        assert x in multiset(t);
        if x != c {
          assert x in multiset(u);
          var k :| 0 <= k < |u| && u[k] == x;
          assert s[1 + k] == x;
        }
      }
      SortedCons(s[0], t);
    }
  }

  lemma {:induction false} SortedCons(x: Ceiling, t: seq<Ceiling>)
    requires SortedDesc(t)
    requires forall y :: y in t ==> y.max <= x.max
    ensures SortedDesc([x] + t)
  {
    var r := [x] + t;
    forall i, j | 0 <= i < j < |r| ensures r[i].max >= r[j].max {
      assert r[j] == t[j - 1];
      if i > 0 {
        assert r[i] == t[i - 1];
      }
    }
  }

  /** The sort's output is ordered by descending ceiling. */
  lemma {:induction false} SortByCeilingSorted(m: seq<Ceiling>)
    ensures SortedDesc(SortByCeiling(m))
  {
    if m != [] {
      SortByCeilingSorted(m[..|m| - 1]);
      InsertSorted(m[|m| - 1], SortByCeiling(m[..|m| - 1]));
    }
  }

  /** The first entry with the largest ceiling: the head of a stable descending sort. */
  function TopIndex(m: seq<Ceiling>): (t: nat)
    requires |m| > 0
    ensures t < |m|
    ensures forall j :: 0 <= j < |m| ==> m[j].max <= m[t].max
    ensures forall j :: 0 <= j < t ==> m[j].max < m[t].max
  {
    if |m| == 1 then 0
    else
      var t := TopIndex(m[..|m| - 1]);
      if m[|m| - 1].max > m[t].max then |m| - 1 else t
  }

  /** The largest ceiling among every entry but the top one. */
  function RunnerUp(m: seq<Ceiling>): (r: Money)
    requires |m| >= 2
    ensures exists j :: 0 <= j < |m| && j != TopIndex(m) && m[j].max == r
    ensures forall j :: 0 <= j < |m| && j != TopIndex(m) ==> m[j].max <= r
  {
    if |m| == 2 then (if m[1].max > m[0].max then m[0].max else m[1].max)
    else
      var init := m[..|m| - 1];
      var t := TopIndex(init);
      assert forall j :: 0 <= j < |init| ==> init[j] == m[j];
      if m[|m| - 1].max > init[t].max then init[t].max
      else Max(RunnerUp(init), m[|m| - 1].max)
  }

  /** Stability at the head: the sorted list starts with the first largest ceiling. */
  lemma {:induction false} SortHead(m: seq<Ceiling>)
    requires |m| > 0
    ensures SortByCeiling(m)[0] == m[TopIndex(m)]
  {
    var init := m[..|m| - 1];
    if |m| > 1 {
      SortHead(init);
      assert init[TopIndex(init)] == m[TopIndex(init)];
    }
  }

  lemma {:induction false} InsertSecond(c: Ceiling, s: seq<Ceiling>)
    requires |s| >= 2
    ensures Insert(c, s)[1].max == if s[0].max >= c.max then Max(s[1].max, c.max) else s[0].max
  {
    if s[0].max >= c.max {
      assert Insert(c, s) == [s[0]] + Insert(c, s[1..]);
      assert s[1..][0] == s[1];
    }
  }

  lemma {:induction false} SortPair(m: seq<Ceiling>)
    requires |m| == 2
    ensures SortByCeiling(m)[1].max == RunnerUp(m)
  {
    var init := m[..1];
    assert init == [m[0]];
    assert init[..0] == [];
    assert SortByCeiling(init) == Insert(m[0], []) == [m[0]];
    assert SortByCeiling(m) == Insert(m[1], [m[0]]);
  }

  /** The second entry of the sorted list carries the runner-up ceiling. */
  lemma {:induction false} SortSecond(m: seq<Ceiling>)
    requires |m| >= 2
    ensures SortByCeiling(m)[1].max == RunnerUp(m)
  {
    if |m| == 2 {
      SortPair(m);
    } else {
      var init := m[..|m| - 1];
      var x := m[|m| - 1];
      var s := SortByCeiling(init);
      SortHead(init);
      SortSecond(init);
      InsertSecond(x, s);
      assert SortByCeiling(m) == Insert(x, s);
      assert s[0].max == init[TopIndex(init)].max;
    }
  }

  // ------------------------------------------------------------- resolution

  function Decide(base: Money, currentWinner: Option<UserId>, increment: Money, hm: Leader,
                  autos: seq<Ceiling>, incomingBidder: UserId, incomingAmount: Money): Resolution
  {
    if autos == [] then
      if hm.amount > base then Resolution(hm.amount, hm.bidder, None)
      else Resolution(base, currentWinner, None)
    else
      var top := autos[0];
      var second := if |autos| > 1 then autos[1].max else Max(base, hm.amount);
      var candidate := Min(top.max, second + increment);
      if hm.amount >= candidate then Resolution(hm.amount, hm.bidder, None)
      else Resolution(candidate, Some(top.bidder),
                      if top.bidder != incomingBidder || incomingAmount != candidate then Some(top) else None)
  }

  /**
   * Lines 66-129 as one function of the auction's price fields and the bids
   * of the auction (the incoming one included). A counter-bid, when created,
   * belongs to the winner and never exceeds its ceiling.
   */
  function Resolve(currentBid: Money, startingBid: Money, currentWinner: Option<UserId>, increment: Money,
                   bids: seq<Bid>, incomingBidder: UserId, incomingAmount: Money): (r: Resolution)
    ensures r.counterBid.Some? ==>
      r.winner == Some(r.counterBid.value.bidder) && r.price <= r.counterBid.value.max &&
      (r.counterBid.value.bidder != incomingBidder || r.price != incomingAmount)
  {
    var base := Base(currentBid, startingBid);
    Decide(base, currentWinner, increment, HighestManual(Leader(base, currentWinner), bids),
           SortByCeiling(AutoCeilings(bids)), incomingBidder, incomingAmount)
  }

  /** The largest ceiling and who holds it (ties: earliest first qualifying bid). */
  function TopCeiling(bids: seq<Bid>): Ceiling
    requires AutoCeilings(bids) != []
  {
    AutoCeilings(bids)[TopIndex(AutoCeilings(bids))]
  }

  /** The price the top automatic bidder is carried to (line 103). */
  function Candidate(base: Money, hm: Leader, increment: Money, bids: seq<Bid>): Money
    requires AutoCeilings(bids) != []
  {
    var m := AutoCeilings(bids);
    var second := if |m| >= 2 then RunnerUp(m) else Max(base, hm.amount);
    Min(TopCeiling(bids).max, second + increment)
  }

  // ---------------------------------------------------------------- lemmas

  /** The resolved price never falls below `currentBid || startingBid`. */
  lemma {:induction false} ResolveNeverLowersPrice(currentBid: Money, startingBid: Money, currentWinner: Option<UserId>,
                                increment: Money, bids: seq<Bid>, incomingBidder: UserId, incomingAmount: Money)
    requires currentBid >= 0 && startingBid >= 0
    requires forall i :: 0 <= i < |bids| ==> bids[i].amount >= 0
    ensures Resolve(currentBid, startingBid, currentWinner, increment, bids, incomingBidder, incomingAmount).price
            >= Base(currentBid, startingBid)
  {
    HighestManualIsMaximum(Leader(Base(currentBid, startingBid), currentWinner), bids);
  }

  /**
   * Without a qualifying automatic bid, price and winner move only when some
   * manual amount exceeds the current price; they become the largest manual
   * amount and the earliest bidder who offered it.
   */
  lemma {:induction false} ResolveWithoutAutos(currentBid: Money, startingBid: Money, currentWinner: Option<UserId>,
                            increment: Money, bids: seq<Bid>, incomingBidder: UserId, incomingAmount: Money)
    requires currentBid >= 0 && startingBid >= 0
    requires forall i :: 0 <= i < |bids| ==> bids[i].amount >= 0
    requires forall i :: 0 <= i < |bids| ==> !Qualifies(bids[i])
    ensures var base := Base(currentBid, startingBid);
      var r := Resolve(currentBid, startingBid, currentWinner, increment, bids, incomingBidder, incomingAmount);
      && r.counterBid == None
      && ((forall i :: 0 <= i < |bids| && !bids[i].isAutomatic ==> bids[i].amount <= base) ==>
            r.price == base && r.winner == currentWinner)
      && (forall i :: 0 <= i < |bids| && !bids[i].isAutomatic && bids[i].amount > base ==>
            exists w :: 0 <= w < |bids| && !bids[w].isAutomatic && r.price == bids[w].amount >= bids[i].amount &&
              r.winner == Some(bids[w].bidder) &&
              forall j :: 0 <= j < w && !bids[j].isAutomatic ==> bids[j].amount < r.price)
  {
    var base := Base(currentBid, startingBid);
    var start := Leader(base, currentWinner);
    HighestManualIsMaximum(start, bids);
    NoQualifyingNoCeilings(bids);
  }

  lemma {:induction false} NoQualifyingNoCeilings(bids: seq<Bid>)
    requires forall i :: 0 <= i < |bids| ==> !Qualifies(bids[i])
    ensures AutoCeilings(bids) == []
  {
    if bids != [] {
      NoQualifyingNoCeilings(bids[..|bids| - 1]);
    }
  }

  /**
   * With automatic bidders, the top ceiling (earliest on ties) is carried to
   * min(top, runner-up + increment), where the runner-up is the next ceiling
   * or, with a single automatic bidder, max(current price, highest manual).
   * A manual leader at or above that candidate wins at its own amount;
   * otherwise the top automatic bidder wins at the candidate, which is within
   * its ceiling and above every manual amount.
   */
  lemma {:induction false} ResolveWithAutos(currentBid: Money, startingBid: Money, currentWinner: Option<UserId>,
                         increment: Money, bids: seq<Bid>, incomingBidder: UserId, incomingAmount: Money)
    requires AutoCeilings(bids) != []
    ensures var base := Base(currentBid, startingBid);
      var hm := HighestManual(Leader(base, currentWinner), bids);
      var top := TopCeiling(bids);
      var candidate := Candidate(base, hm, increment, bids);
      var r := Resolve(currentBid, startingBid, currentWinner, increment, bids, incomingBidder, incomingAmount);
      && candidate <= top.max
      && (hm.amount >= candidate ==> r == Resolution(hm.amount, hm.bidder, None))
      && (hm.amount < candidate ==>
            && r.price == candidate && r.winner == Some(top.bidder) && r.price > hm.amount
            && r.counterBid == (if top.bidder != incomingBidder || incomingAmount != candidate then Some(top) else None))
  {
    var base := Base(currentBid, startingBid);
    var hm := HighestManual(Leader(base, currentWinner), bids);
    var m := AutoCeilings(bids);
    var sorted := SortByCeiling(m);
    SortHead(m);
    if |m| >= 2 {
      SortSecond(m);
    }
    assert sorted[0] == TopCeiling(bids);
    assert Resolve(currentBid, startingBid, currentWinner, increment, bids, incomingBidder, incomingAmount)
        == Decide(base, currentWinner, increment, hm, sorted, incomingBidder, incomingAmount);
  }

  /**
   * The top automatic bidder holds the largest ceiling of any qualifying bid,
   * and among bidders with that ceiling, the one whose first qualifying bid
   * comes earliest.
   */
  lemma {:induction false} TopCeilingTieBreak(bids: seq<Bid>, x: nat)
    requires AutoCeilings(bids) != []
    requires x < |bids| && Qualifies(bids[x])
    ensures bids[x].maxAutoBid.value <= TopCeiling(bids).max
    ensures bids[x].maxAutoBid.value == TopCeiling(bids).max ==>
      FirstQualifying(bids, TopCeiling(bids).bidder) <= FirstQualifying(bids, bids[x].bidder)
    ensures exists y :: 0 <= y < |bids| && Witnesses(bids[y], TopCeiling(bids))
  {
    AutoCeilingsSpec(bids);
    TopOfComplete(bids, AutoCeilings(bids), x);
    TopHasWitness(bids, AutoCeilings(bids));
  }

  lemma {:induction false} TopOfComplete(bids: seq<Bid>, m: seq<Ceiling>, x: nat)
    requires m != [] && Complete(bids, m) && FirstAppearanceOrder(bids, m)
    requires x < |bids| && Qualifies(bids[x])
    ensures bids[x].maxAutoBid.value <= m[TopIndex(m)].max
    ensures bids[x].maxAutoBid.value == m[TopIndex(m)].max ==>
      FirstQualifying(bids, m[TopIndex(m)].bidder) <= FirstQualifying(bids, bids[x].bidder)
  {
    var t := TopIndex(m);
    var i :| 0 <= i < |m| && Covers(m[i], bids[x]);
    assert m[i].max <= m[t].max;
    if bids[x].maxAutoBid.value == m[t].max {
      assert m[i].max == m[t].max;
      assert !(i < t);
      if i > t {
        assert FirstQualifying(bids, m[t].bidder) < FirstQualifying(bids, m[i].bidder);
      }
    }
  }

  lemma {:induction false} TopHasWitness(bids: seq<Bid>, m: seq<Ceiling>)
    requires m != [] && Sound(bids, m)
    ensures exists y :: 0 <= y < |bids| && Witnesses(bids[y], m[TopIndex(m)])
  {
    var t := TopIndex(m);
    assert exists y :: 0 <= y < |bids| && Witnesses(bids[y], m[t]);
  }

  /**
   * The worked example of proxy bidding, in three steps: price 100,
   * increment 5. A places an automatic bid (amount 105, ceiling 200) and
   * leads at 105.
   */
  lemma {:induction false} ProxyOpening()
    ensures Resolve(100, 100, None, 5, [Bid(0, 1, 105, false, true, Some(200))], 1, 105)
         == Resolution(105, Some(1), None)
  {
    var a := Bid(0, 1, 105, false, true, Some(200));
    assert [a][..0] == [];
    assert AutoCeilings([a]) == [Ceiling(1, 200)];
    assert HighestManual(Leader(100, None), [a]) == Leader(100, None);
  }

  /** B then bids 150 by hand: A is carried to 155 by a counter-bid. */
  lemma {:induction false} ProxyCounter()
    ensures Resolve(105, 100, Some(1), 5, [Bid(0, 1, 105, false, true, Some(200)), Bid(0, 2, 150, false, false, None)], 2, 150)
         == Resolution(155, Some(1), Some(Ceiling(1, 200)))
  {
    var a := Bid(0, 1, 105, false, true, Some(200));
    var b1 := Bid(0, 2, 150, false, false, None);
    assert [a][..0] == [];
    assert [a, b1][..1] == [a];
    assert AutoCeilings([a]) == [Ceiling(1, 200)];
    assert AutoCeilings([a, b1]) == [Ceiling(1, 200)];
    assert HighestManual(Leader(105, Some(1)), [a]) == Leader(105, Some(1));
    assert HighestManual(Leader(105, Some(1)), [a, b1]) == Leader(150, Some(2));
  }

  /** B finally bids 210 by hand, above A's ceiling, and wins at 210. */
  lemma {:induction false} ProxyOverCeiling()
    ensures Resolve(155, 100, Some(1), 5,
                    [Bid(0, 1, 105, false, true, Some(200)), Bid(0, 2, 150, false, false, None),
                     Bid(0, 1, 155, false, true, Some(200)), Bid(0, 2, 210, false, false, None)], 2, 210)
         == Resolution(210, Some(2), None)
  {
    var a := Bid(0, 1, 105, false, true, Some(200));
    var b1 := Bid(0, 2, 150, false, false, None);
    var counter := Bid(0, 1, 155, false, true, Some(200));
    var b2 := Bid(0, 2, 210, false, false, None);
    assert [a][..0] == [];
    assert [a, b1][..1] == [a];
    assert [a, b1, counter, b2][..3] == [a, b1, counter];
    assert [a, b1, counter][..2] == [a, b1];
    assert AutoCeilings([a]) == [Ceiling(1, 200)];
    assert AutoCeilings([a, b1]) == [Ceiling(1, 200)];
    assert AutoCeilings([a, b1, counter]) == [Ceiling(1, 200)];
    assert AutoCeilings([a, b1, counter, b2]) == [Ceiling(1, 200)];
    assert HighestManual(Leader(155, Some(1)), [a]) == Leader(155, Some(1));
    assert HighestManual(Leader(155, Some(1)), [a, b1]) == Leader(155, Some(1));
    assert HighestManual(Leader(155, Some(1)), [a, b1, counter]) == Leader(155, Some(1));
    assert HighestManual(Leader(155, Some(1)), [a, b1, counter, b2]) == Leader(210, Some(2));
  }
}
