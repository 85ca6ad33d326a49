/**
 * Chat (chatController.js): posting a message to an auction's room or
 * privately to another user, the two message feeds, and the conversation
 * list that groups a user's private messages by the other participant.
 *
 * Messages are kept in insertion order with their creation time. Sorting by
 * creation time is modelled as that order (oldest first) or its reverse
 * (newest first); a store whose clock never runs backwards keeps the two in
 * agreement (`Chronological`).
 */
module Chat {
  import opened Wrappers
  import opened Text
  import opened Records

  datatype Message = Message(
    auction: Option<AuctionId>,
    recipient: Option<UserId>,
    participants: seq<UserId>,
    sender: UserId,
    text: string,
    createdAt: Time)

  /** The schema bound on a message's length, in UTF-16 code units. */
  const MaxLength := 2000

  datatype ChatError = ContentRequired | TooLong

  /**
   * createMessage: blank content is refused; with a recipient the message is
   * private between sender and recipient, otherwise it belongs to the
   * auction's room; the stored text is trimmed.
   */
  function CreateMessage(ms: seq<Message>, auction: AuctionId, sender: UserId, content: Option<string>,
                         recipient: Option<UserId>, now: Time): Result<seq<Message>, ChatError>
  {
    if content.None? || Trim(content.value) == "" then Err(ContentRequired)
    else
      var text := Trim(content.value);
      if Utf16Length(text) > MaxLength then Err(TooLong)
      else if recipient.Some? then Ok(ms + [Message(None, recipient, [sender, recipient.value], sender, text, now)])
      else Ok(ms + [Message(Some(auction), None, [], sender, text, now)])
  }

  /** Creation times never decrease along the store. */
  predicate Chronological(ms: seq<Message>) {
    forall i, j :: 0 <= i < j < |ms| ==> ms[i].createdAt <= ms[j].createdAt
  }

  // ------------------------------------------------------------------ feeds

  /** `.limit(n)` on a list. */
  function Take<T>(xs: seq<T>, n: nat): (r: seq<T>)
    ensures |r| <= n && |r| <= |xs|
    ensures r == xs[..|r|]
    ensures |xs| <= n ==> r == xs
    ensures |xs| > n ==> |r| == n
  {
    if |xs| <= n then xs else xs[..n]
  }

  function InRoom(ms: seq<Message>, auction: AuctionId): (r: seq<Message>)
    ensures forall m :: m in r <==> m in ms && m.auction == Some(auction)
  {
    if ms == [] then []
    else InRoom(ms[..|ms| - 1], auction) + (if ms[|ms| - 1].auction == Some(auction) then [ms[|ms| - 1]] else [])
  }

  /** `{ participants: { $all: [a, b] } }`. */
  function Between(ms: seq<Message>, a: UserId, b: UserId): (r: seq<Message>)
    ensures forall m :: m in r <==> m in ms && a in m.participants && b in m.participants
  {
    if ms == [] then []
    else
      var m := ms[|ms| - 1];
      Between(ms[..|ms| - 1], a, b) + (if a in m.participants && b in m.participants then [m] else [])
  }

  /** getAuctionMessages: the room's messages, oldest first, at most 200. */
  function AuctionMessages(ms: seq<Message>, auction: AuctionId): seq<Message> {
    Take(InRoom(ms, auction), 200)
  }

  /** getPrivateMessages: messages having both users as participants, oldest first, at most 500. */
  function PrivateMessages(ms: seq<Message>, me: UserId, other: UserId): seq<Message> {
    Take(Between(ms, me, other), 500)
  }

  // ---------------------------------------------------------- conversations

  datatype Conversation = Conversation(otherUser: UserId, lastMessage: string, lastMessageTime: Time)

  /** `{ participants: me }` sorted newest first. */
  function Involving(ms: seq<Message>, me: UserId): (r: seq<Message>)
    ensures forall m :: m in r <==> m in ms && me in m.participants
    ensures |r| <= |ms|
  {
    if ms == [] then []
    else
      var m := ms[|ms| - 1];
      (if me in m.participants then [m] else []) + Involving(ms[..|ms| - 1], me)
  }

  /** `participants.find(p => p !== me)`. */
  function OtherOf(ps: seq<UserId>, me: UserId): (o: Option<UserId>)
    ensures o.Some? ==> o.value in ps && o.value != me
    ensures o.None? ==> forall p :: p in ps ==> p == me
  {
    if ps == [] then None
    else if ps[0] != me then Some(ps[0])
    else
      assert ps == [ps[0]] + ps[1..];
      OtherOf(ps[1..], me)
  }

  /** `conversationMap.has(key)`. */
  predicate HasEntry(cs: seq<Conversation>, o: UserId) {
    exists i :: 0 <= i < |cs| && cs[i].otherUser == o
  }

  /** One pass of the forEach: the first message met per other participant makes its entry. */
  function GroupStep(cs: seq<Conversation>, m: Message, me: UserId): seq<Conversation> {
    match OtherOf(m.participants, me)
    case None => cs
    case Some(o) => if HasEntry(cs, o) then cs else cs + [Conversation(o, m.text, m.createdAt)]
  }

  function Group(msgs: seq<Message>, me: UserId): seq<Conversation> {
    if msgs == [] then [] else GroupStep(Group(msgs[..|msgs| - 1], me), msgs[|msgs| - 1], me)
  }

  /** Insert before the first entry no later than `c`: a stable descending sort. */
  function InsertByTime(c: Conversation, s: seq<Conversation>): (r: seq<Conversation>)
    ensures |r| == |s| + 1
    ensures multiset(r) == multiset(s) + multiset{c}
  {
    if s == [] || s[0].lastMessageTime <= c.lastMessageTime then [c] + s
    else
      assert s == [s[0]] + s[1..];
      [s[0]] + InsertByTime(c, s[1..])
  }

  /** `.sort((a, b) => b.lastMessageTime - a.lastMessageTime)`, stable. */
  function SortByTime(s: seq<Conversation>): (r: seq<Conversation>)
    ensures multiset(r) == multiset(s)
  {
    if s == [] then []
    else
      assert s == [s[0]] + s[1..];
      InsertByTime(s[0], SortByTime(s[1..]))
  }

  predicate Descending(s: seq<Conversation>) {
    forall i, j :: 0 <= i < j < |s| ==> s[i].lastMessageTime >= s[j].lastMessageTime
  }

  /** getConversations for user `me`. */
  function Conversations(ms: seq<Message>, me: UserId): seq<Conversation> {
    SortByTime(Group(Involving(ms, me), me))
  }

  /** The forEach of lines 102-117 as a loop over the newest-first messages, then the sort. */
  method GetConversations(ms: seq<Message>, me: UserId) returns (r: seq<Conversation>)
    ensures r == Conversations(ms, me)
  {
    var msgs := Involving(ms, me);
    var entries: seq<Conversation> := [];
    var i := 0;
    while i < |msgs|
      invariant 0 <= i <= |msgs|
      invariant entries == Group(msgs[..i], me)
    {
      var m := msgs[i];
      assert msgs[..i + 1][..i] == msgs[..i];
      var other := OtherOf(m.participants, me);
      if other.Some? {
        if !HasEntry(entries, other.value) {
          entries := entries + [Conversation(other.value, m.text, m.createdAt)];
        }
      }
      i := i + 1;
    }
    assert msgs[..|msgs|] == msgs;
    r := SortByTime(entries);
  }

  // ----------------------------------------------------------------- lemmas

  /**
   * A message is stored exactly when its trimmed content is non-empty and
   * within the length bound; it is then appended, private between the two
   * users when a recipient is given and in the auction's room otherwise.
   */
  lemma {:induction false} CreateMessageSpec(ms: seq<Message>, auction: AuctionId, sender: UserId, content: Option<string>,
                                             recipient: Option<UserId>, now: Time)
    ensures content.Some? && Blank(content.value) ==> CreateMessage(ms, auction, sender, content, recipient, now) == Err(ContentRequired)
    ensures content.None? ==> CreateMessage(ms, auction, sender, content, recipient, now) == Err(ContentRequired)
    ensures CreateMessage(ms, auction, sender, content, recipient, now).Ok? ==>
      var ms' := CreateMessage(ms, auction, sender, content, recipient, now).value;
      var m := ms'[|ms|];
      && ms' == ms + [m]
      && m.text == Trim(content.value) && m.text != "" && Utf16Length(m.text) <= MaxLength
      && m.sender == sender && m.createdAt == now
      && (recipient.Some? ==> m.participants == [sender, recipient.value] && m.recipient == recipient && m.auction.None?)
      && (recipient.None? ==> m.participants == [] && m.auction == Some(auction))
  {
    if content.Some? {
      TrimEmptyIffBlank(content.value);
    }
  }

  /**
   * The room feed holds only the room's messages, at most 200: all of them
   * when there are at most 200, otherwise exactly the first 200 stored; it
   * keeps their stored order, so on a chronological store it is oldest first.
   */
  lemma {:induction false} AuctionFeed(ms: seq<Message>, auction: AuctionId)
    ensures |AuctionMessages(ms, auction)| <= 200
    ensures forall m :: m in AuctionMessages(ms, auction) ==> m in ms && m.auction == Some(auction)
    ensures |InRoom(ms, auction)| <= 200 ==> forall m :: m in ms && m.auction == Some(auction) ==> m in AuctionMessages(ms, auction)
    ensures |InRoom(ms, auction)| > 200 ==> AuctionMessages(ms, auction) == InRoom(ms, auction)[..200]
    ensures exists idx :: Embeds(idx, AuctionMessages(ms, auction), ms)
    ensures Chronological(ms) ==> Chronological(AuctionMessages(ms, auction))
  {
    var r := InRoom(ms, auction);
    var t := AuctionMessages(ms, auction);
    forall m | m in t ensures m in r {
      var i :| 0 <= i < |t| && t[i] == m;
      assert r[i] == m;
    }
    InRoomInOrder(ms, auction);
    var idx: seq<nat> :| Embeds(idx, r, ms);
    EmbedsTake(idx, r, ms, 200);
    if Chronological(ms) {
      EmbedsChronological(idx[..|t|], t, ms);
    }
  }

  /**
   * A private feed is the same for both users, holds at most 500 messages,
   * each naming both: all of them when there are at most 500, otherwise
   * exactly the first 500 stored; it keeps their stored order, so on a chronological
   * store it is oldest first.
   */
  lemma {:induction false} PrivateFeedSymmetric(ms: seq<Message>, a: UserId, b: UserId)
    ensures PrivateMessages(ms, a, b) == PrivateMessages(ms, b, a)
    ensures |PrivateMessages(ms, a, b)| <= 500
    ensures |Between(ms, a, b)| <= 500 ==> PrivateMessages(ms, a, b) == Between(ms, a, b)
    ensures |Between(ms, a, b)| > 500 ==> PrivateMessages(ms, a, b) == Between(ms, a, b)[..500]
    ensures forall m :: m in PrivateMessages(ms, a, b) ==> a in m.participants && b in m.participants
    ensures exists idx :: Embeds(idx, PrivateMessages(ms, a, b), ms)
    ensures Chronological(ms) ==> Chronological(PrivateMessages(ms, a, b))
  {
    BetweenSymmetric(ms, a, b);
    var r := Between(ms, a, b);
    var t := PrivateMessages(ms, a, b);
    forall m | m in t ensures m in r {
      var i :| 0 <= i < |t| && t[i] == m;
      assert r[i] == m;
    }
    BetweenInOrder(ms, a, b);
    var idx: seq<nat> :| Embeds(idx, r, ms);
    EmbedsTake(idx, r, ms, 500);
    if Chronological(ms) {
      EmbedsChronological(idx[..|t|], t, ms);
    }
  }

  lemma {:induction false} BetweenSymmetric(ms: seq<Message>, a: UserId, b: UserId)
    ensures Between(ms, a, b) == Between(ms, b, a)
    decreases |ms|
  {
    if ms != [] {
      BetweenSymmetric(ms[..|ms| - 1], a, b);
    }
  }

  /** The room filter keeps the messages it selects in their stored order. */
  lemma {:induction false} InRoomInOrder(ms: seq<Message>, auction: AuctionId)
    ensures exists idx :: Embeds(idx, InRoom(ms, auction), ms)
    decreases |ms|
  {
    if ms == [] {
      assert Embeds([], InRoom(ms, auction), ms);
    } else {
      var init := ms[..|ms| - 1];
      var x := ms[|ms| - 1];
      assert ms == init + [x];
      InRoomInOrder(init, auction);
      var idx: seq<nat> :| Embeds(idx, InRoom(init, auction), init);
      EmbedsSnoc(idx, InRoom(init, auction), init, x);
      if x.auction == Some(auction) {
        assert Embeds(idx + [|init|], InRoom(ms, auction), ms);
      } else {
        assert InRoom(ms, auction) == InRoom(init, auction) + [];
        assert Embeds(idx, InRoom(ms, auction), ms);
      }
    }
  }

  /** The participants filter keeps the messages it selects in their stored order. */
  lemma {:induction false} BetweenInOrder(ms: seq<Message>, a: UserId, b: UserId)
    ensures exists idx :: Embeds(idx, Between(ms, a, b), ms)
    decreases |ms|
  {
    if ms == [] {
      assert Embeds([], Between(ms, a, b), ms);
    } else {
      var init := ms[..|ms| - 1];
      var x := ms[|ms| - 1];
      assert ms == init + [x];
      BetweenInOrder(init, a, b);
      var idx: seq<nat> :| Embeds(idx, Between(init, a, b), init);
      EmbedsSnoc(idx, Between(init, a, b), init, x);
      if a in x.participants && b in x.participants {
        assert Embeds(idx + [|init|], Between(ms, a, b), ms);
      } else {
        assert Between(ms, a, b) == Between(init, a, b) + [];
        assert Embeds(idx, Between(ms, a, b), ms);
      }
    }
  }

  /** A prefix of an embedded sequence is embedded by the prefix of the positions. */
  lemma {:induction false} EmbedsTake(idx: seq<nat>, r: seq<Message>, ms: seq<Message>, n: nat)
    requires Embeds(idx, r, ms)
    ensures Embeds(idx[..|Take(r, n)|], Take(r, n), ms)
  {
    var t := Take(r, n);
    var j := idx[..|t|];
    forall k | 0 <= k < |j| ensures j[k] < |ms| && ms[j[k]] == t[k] {
      assert j[k] == idx[k] && t[k] == r[k];
    }
  }

  /** A sequence embedded in a chronological store is itself chronological. */
  lemma {:induction false} EmbedsChronological(idx: seq<nat>, r: seq<Message>, ms: seq<Message>)
    requires Embeds(idx, r, ms) && Chronological(ms)
    ensures Chronological(r)
  {
    forall i, j | 0 <= i < j < |r| ensures r[i].createdAt <= r[j].createdAt {
      assert ms[idx[i]] == r[i] && ms[idx[j]] == r[j];
      assert idx[i] < idx[j];
    }
  }

  /** A private message sent from a to b shows in the private feed of each, while it is within the limit. */
  lemma {:induction false} PrivateMessageVisible(ms: seq<Message>, auction: AuctionId, a: UserId, b: UserId,
                                                 content: Option<string>, now: Time)
    requires CreateMessage(ms, auction, a, content, Some(b), now).Ok?
    requires |Between(ms, a, b)| < 500
    ensures var ms' := CreateMessage(ms, auction, a, content, Some(b), now).value;
      && ms'[|ms|] in PrivateMessages(ms', a, b)
      && ms'[|ms|] in PrivateMessages(ms', b, a)
  {
    var ms' := CreateMessage(ms, auction, a, content, Some(b), now).value;
    var m := ms'[|ms|];
    assert ms'[..|ms'| - 1] == ms;
    assert Between(ms', a, b) == Between(ms, a, b) + [m];
    PrivateFeedSymmetric(ms', a, b);
  }

  /** Each entry of the grouping is for a distinct other participant. */
  predicate DistinctOthers(cs: seq<Conversation>) {
    forall i, j :: 0 <= i < j < |cs| ==> cs[i].otherUser != cs[j].otherUser
  }

  /** Index of the first message whose other participant is `o`, or the length when none. */
  function FirstWith(msgs: seq<Message>, me: UserId, o: UserId): (x: nat)
    ensures x <= |msgs|
    ensures x < |msgs| ==> OtherOf(msgs[x].participants, me) == Some(o)
    ensures forall y :: 0 <= y < x ==> OtherOf(msgs[y].participants, me) != Some(o)
  {
    if msgs == [] then 0
    else if OtherOf(msgs[0].participants, me) == Some(o) then 0
    else 1 + FirstWith(msgs[1..], me, o)
  }

  /** What the grouping promises about a traversal: one entry per other participant, from its first message. */
  ghost predicate GroupedFrom(msgs: seq<Message>, me: UserId, cs: seq<Conversation>) {
    && DistinctOthers(cs)
    && (forall o: UserId :: HasEntry(cs, o) <==> FirstWith(msgs, me, o) < |msgs|)
    && (forall i :: 0 <= i < |cs| ==>
          var x := FirstWith(msgs, me, cs[i].otherUser);
          x < |msgs| && cs[i] == Conversation(cs[i].otherUser, msgs[x].text, msgs[x].createdAt))
  }

  lemma {:induction false} FirstWithSnoc(msgs: seq<Message>, m: Message, me: UserId, o: UserId)
    ensures FirstWith(msgs + [m], me, o) ==
      if FirstWith(msgs, me, o) < |msgs| then FirstWith(msgs, me, o)
      else if OtherOf(m.participants, me) == Some(o) then |msgs| else |msgs| + 1
    decreases |msgs|
  {
    if msgs != [] {
      assert (msgs + [m])[0] == msgs[0];
      assert (msgs + [m])[1..] == msgs[1..] + [m];
      FirstWithSnoc(msgs[1..], m, me, o);
    }
  }

  /**
   * The grouping keeps one entry per other participant of the traversed
   * messages, the entry of the first message met with that participant, and
   * skips messages without another participant.
   */
  lemma {:induction false} GroupSpec(msgs: seq<Message>, me: UserId)
    ensures GroupedFrom(msgs, me, Group(msgs, me))
    decreases |msgs|
  {
    if msgs != [] {
      var n := |msgs| - 1;
      var m := msgs[n];
      assert msgs == msgs[..n] + [m];
      GroupSpec(msgs[..n], me);
      var cs := Group(msgs[..n], me);
      match OtherOf(m.participants, me)
      case None => GroupKeep(msgs[..n], m, me, cs);
      case Some(o) =>
        if HasEntry(cs, o) {
          GroupKeep(msgs[..n], m, me, cs);
        } else {
          GroupAdd(msgs[..n], m, me, cs, o);
        }
    }
  }

  /** The first message met with each user of the grouping stays the first one after a later message. */
  lemma {:induction false} FirstWithKept(init: seq<Message>, m: Message, me: UserId, cs: seq<Conversation>)
    requires GroupedFrom(init, me, cs)
    ensures forall i :: 0 <= i < |cs| ==>
      var x := FirstWith(init + [m], me, cs[i].otherUser);
      x == FirstWith(init, me, cs[i].otherUser) && x < |init| && (init + [m])[x] == init[x]
  {
    forall i | 0 <= i < |cs|
      ensures var x := FirstWith(init + [m], me, cs[i].otherUser);
        x == FirstWith(init, me, cs[i].otherUser) && x < |init| && (init + [m])[x] == init[x]
    {
      assert HasEntry(cs, cs[i].otherUser);
      FirstWithSnoc(init, m, me, cs[i].otherUser);
    }
  }

  /** A message whose other participant already has an entry, or that has none, adds nothing. */
  lemma {:induction false} GroupKeep(init: seq<Message>, m: Message, me: UserId, cs: seq<Conversation>)
    requires GroupedFrom(init, me, cs)
    requires OtherOf(m.participants, me).None? || HasEntry(cs, OtherOf(m.participants, me).value)
    ensures GroupedFrom(init + [m], me, cs)
  {
    FirstWithKept(init, m, me, cs);
    forall o: UserId ensures HasEntry(cs, o) <==> FirstWith(init + [m], me, o) < |init + [m]| {
      FirstWithSnoc(init, m, me, o);
    }
  }

  /** A message with a new other participant appends that participant's entry. */
  lemma {:induction false} GroupAdd(init: seq<Message>, m: Message, me: UserId, cs: seq<Conversation>, o: UserId)
    requires GroupedFrom(init, me, cs)
    requires OtherOf(m.participants, me) == Some(o) && !HasEntry(cs, o)
    ensures GroupedFrom(init + [m], me, cs + [Conversation(o, m.text, m.createdAt)])
  {
    var msgs := init + [m];
    var cs' := cs + [Conversation(o, m.text, m.createdAt)];
    FirstWithKept(init, m, me, cs);
    FirstWithSnoc(init, m, me, o);
    assert FirstWith(msgs, me, o) == |init|;
    forall p: UserId ensures HasEntry(cs', p) <==> FirstWith(msgs, me, p) < |msgs| {
      FirstWithSnoc(init, m, me, p);
      if HasEntry(cs', p) {
        var i :| 0 <= i < |cs'| && cs'[i].otherUser == p;
        if i < |cs| {
          assert cs[i].otherUser == p;
        }
      }
      if HasEntry(cs, p) {
        var i :| 0 <= i < |cs| && cs[i].otherUser == p;
        assert cs'[i].otherUser == p;
      }
      if p == o {
        assert cs'[|cs|].otherUser == p;
      }
    }
    forall i | 0 <= i < |cs'|
      ensures var x := FirstWith(msgs, me, cs'[i].otherUser);
        x < |msgs| && cs'[i] == Conversation(cs'[i].otherUser, msgs[x].text, msgs[x].createdAt)
    {
      if i < |cs| {
        assert cs'[i] == cs[i];
      }
    }
    forall i, j | 0 <= i < j < |cs'| ensures cs'[i].otherUser != cs'[j].otherUser {
      if j == |cs| {
        assert cs'[i] == cs[i];
        assert HasEntry(cs, cs[i].otherUser);
      } else {
        assert cs'[i] == cs[i] && cs'[j] == cs[j];
      }
    }
  }

  lemma {:induction false} InsertSortedDesc(c: Conversation, s: seq<Conversation>)
    requires Descending(s)
    ensures Descending(InsertByTime(c, s))
    ensures InsertByTime(c, s) != [] && (s != [] ==> InsertByTime(c, s)[0] == (if s[0].lastMessageTime <= c.lastMessageTime then c else s[0]))
    decreases |s|
  {
    if s != [] && s[0].lastMessageTime > c.lastMessageTime {
      InsertSortedDesc(c, s[1..]);
      var t := InsertByTime(c, s[1..]);
      assert t[0].lastMessageTime <= s[0].lastMessageTime by {
        if s[1..] != [] {
          assert s[1..][0] == s[1];
        }
      }
      forall k | k in t ensures k.lastMessageTime <= s[0].lastMessageTime {
        var x :| 0 <= x < |t| && t[x] == k;
        if x > 0 {
          assert t[0].lastMessageTime >= t[x].lastMessageTime;
        }
      }
      DescendingCons(s[0], t);
    }
  }

  lemma {:induction false} DescendingCons(x: Conversation, t: seq<Conversation>)
    requires Descending(t)
    requires forall k :: k in t ==> k.lastMessageTime <= x.lastMessageTime
    ensures Descending([x] + t)
  {
    var r := [x] + t;
    forall i, j | 0 <= i < j < |r| ensures r[i].lastMessageTime >= r[j].lastMessageTime {
      assert r[j] == t[j - 1];
      if i > 0 {
        assert r[i] == t[i - 1];
      }
    }
  }

  /** The conversation list is sorted by last-message time, newest first. */
  lemma {:induction false} SortByTimeSorted(s: seq<Conversation>)
    ensures Descending(SortByTime(s))
    decreases |s|
  {
    if s != [] {
      SortByTimeSorted(s[1..]);
      InsertSortedDesc(s[0], SortByTime(s[1..]));
    }
  }

  /** Sorting a list that is already newest first changes nothing: the sort is stable. */
  lemma {:induction false} SortByTimeStable(s: seq<Conversation>)
    requires Descending(s)
    ensures SortByTime(s) == s
    decreases |s|
  {
    if s != [] {
      var t := s[1..];
      DescendingTail(s);
      SortByTimeStable(t);
      InsertAtHead(s[0], t);
      assert SortByTime(s) == InsertByTime(s[0], SortByTime(t));
      assert s == [s[0]] + t;
    }
  }

  lemma {:induction false} DescendingTail(s: seq<Conversation>)
    requires Descending(s) && s != []
    ensures Descending(s[1..])
    ensures s[1..] == [] || s[1..][0].lastMessageTime <= s[0].lastMessageTime
  {
    var t := s[1..];
    forall i, j | 0 <= i < j < |t| ensures t[i].lastMessageTime >= t[j].lastMessageTime {
      assert t[i] == s[i + 1] && t[j] == s[j + 1];
    }
    if t != [] {
      assert t[0] == s[1];
    }
  }

  /** A conversation no older than the head of the list goes in front. */
  lemma {:induction false} InsertAtHead(c: Conversation, t: seq<Conversation>)
    requires t == [] || t[0].lastMessageTime <= c.lastMessageTime
    ensures InsertByTime(c, t) == [c] + t
  {
  }

  /**
   * getConversations gives one entry per other participant of the user's
   * private messages, carrying the newest such message, newest first.
   */
  lemma {:induction false} ConversationsSpec(ms: seq<Message>, me: UserId)
    ensures var r := Conversations(ms, me);
      var msgs := Involving(ms, me);
      && Descending(r)
      && multiset(r) == multiset(Group(msgs, me))
      && GroupedFrom(msgs, me, Group(msgs, me))
  {
    SortByTimeSorted(Group(Involving(ms, me), me));
    GroupSpec(Involving(ms, me), me);
  }

  predicate NewestFirst(msgs: seq<Message>) {
    forall i, j :: 0 <= i < j < |msgs| ==> msgs[i].createdAt >= msgs[j].createdAt
  }

  /** On a chronological store the query hands the messages over newest first. */
  lemma {:induction false} InvolvingNewestFirst(ms: seq<Message>, me: UserId)
    requires Chronological(ms)
    ensures NewestFirst(Involving(ms, me))
    decreases |ms|
  {
    if ms != [] {
      var init := ms[..|ms| - 1];
      var m := ms[|ms| - 1];
      assert Chronological(init);
      InvolvingNewestFirst(init, me);
      var rest := Involving(init, me);
      forall x | x in rest ensures x.createdAt <= m.createdAt {
        var k :| 0 <= k < |init| && init[k] == x;
        assert ms[k] == x;
      }
    }
  }

  lemma {:induction false} GroupDescending(msgs: seq<Message>, me: UserId)
    requires NewestFirst(msgs)
    ensures Descending(Group(msgs, me))
    ensures forall i :: 0 <= i < |Group(msgs, me)| ==> Group(msgs, me)[i].lastMessageTime >= msgs[|msgs| - 1].createdAt
    decreases |msgs|
  {
    if msgs != [] {
      var init := msgs[..|msgs| - 1];
      assert NewestFirst(init);
      GroupDescending(init, me);
      if init != [] {
        assert init[|init| - 1] == msgs[|msgs| - 2];
      }
    }
  }

  /**
   * On a chronological store the map's insertion order is already newest
   * first, so the final sort of getConversations leaves it unchanged.
   */
  lemma {:induction false} ConversationsPresorted(ms: seq<Message>, me: UserId)
    requires Chronological(ms)
    ensures Conversations(ms, me) == Group(Involving(ms, me), me)
  {
    InvolvingNewestFirst(ms, me);
    GroupDescending(Involving(ms, me), me);
    SortByTimeStable(Group(Involving(ms, me), me));
  }

  /** Posting with the clock at or after the last message keeps the store chronological. */
  lemma {:induction false} CreateMessageChronological(ms: seq<Message>, auction: AuctionId, sender: UserId,
                                                      content: Option<string>, recipient: Option<UserId>, now: Time)
    requires Chronological(ms)
    requires forall m :: m in ms ==> m.createdAt <= now
    requires CreateMessage(ms, auction, sender, content, recipient, now).Ok?
    ensures Chronological(CreateMessage(ms, auction, sender, content, recipient, now).value)
  {
    var ms' := CreateMessage(ms, auction, sender, content, recipient, now).value;
    forall i, j | 0 <= i < j < |ms'| ensures ms'[i].createdAt <= ms'[j].createdAt {
      if j == |ms| {
        assert ms'[i] == ms[i];
      } else {
        assert ms'[i] == ms[i] && ms'[j] == ms[j];
      }
    }
  }
}
