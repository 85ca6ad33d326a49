/**
 * The client's notification list (NotificationContext.js): a reducer over
 * ADD, MARK_READ and CLEAR actions, and the three helpers that dispatch
 * them. Dispatching is modelled as applying the reducer to the current list.
 */
module Notifications {
  import opened Records

  datatype Notification = Notification(
    id: string, kind: string, title: string, message: string, data: string, createdAt: Time, read: bool)

  /** The action's `type` string selects the case; any other string is `Other`. */
  datatype Action = Add(payload: Notification) | MarkRead(target: string) | Clear | Other(name: string)

  function MarkOne(n: Notification, target: string): (r: Notification)
    ensures r.id == n.id
    ensures r.id == target ==> r == n.(read := true)
    ensures r.id != target ==> r == n
  {
    if n.id == target then n.(read := true) else n
  }

  function MarkAll(state: seq<Notification>, target: string): (r: seq<Notification>)
    ensures |r| == |state|
    ensures forall i :: 0 <= i < |r| ==> r[i] == MarkOne(state[i], target)
  {
    if state == [] then [] else [MarkOne(state[0], target)] + MarkAll(state[1..], target)
  }

  function Reduce(state: seq<Notification>, action: Action): seq<Notification> {
    match action
    case Add(p) => [p] + state
    case MarkRead(target) => MarkAll(state, target)
    case Clear => []
    case Other(_) => state
  }

  /** addNotification: the id (clock plus random suffix) and the time are supplied by the caller. */
  function AddNotification(state: seq<Notification>, id: string, kind: string, title: string, message: string,
                           data: string, now: Time): (r: (seq<Notification>, string))
    ensures r.1 == id
    ensures |r.0| == |state| + 1 && r.0[1..] == state
    ensures r.0[0] == Notification(id, kind, title, message, data, now, false)
  {
    (Reduce(state, Add(Notification(id, kind, title, message, data, now, false))), id)
  }

  function MarkReadOf(state: seq<Notification>, id: string): seq<Notification> {
    Reduce(state, MarkRead(id))
  }

  function ClearNotifications(state: seq<Notification>): (r: seq<Notification>)
    ensures r == []
  {
    Reduce(state, Clear)
  }

  function UnreadCount(state: seq<Notification>): (c: nat)
    ensures c <= |state|
  {
    if state == [] then 0 else (if state[0].read then 0 else 1) + UnreadCount(state[1..])
  }

  // ----------------------------------------------------------------- lemmas

  /** ADD puts the payload in front of the list and keeps the rest as it was. */
  lemma {:induction false} AddPrepends(state: seq<Notification>, p: Notification)
    ensures Reduce(state, Add(p))[0] == p
    ensures Reduce(state, Add(p))[1..] == state
  {
  }

  /**
   * MARK_READ keeps length, order and every field but `read`; it sets `read`
   * on exactly the items with the matching id and leaves the others as they were.
   */
  lemma {:induction false} MarkReadSpec(state: seq<Notification>, target: string)
    ensures var r := Reduce(state, MarkRead(target));
      && |r| == |state|
      && (forall i :: 0 <= i < |r| ==> r[i].id == state[i].id && r[i].title == state[i].title && r[i].message == state[i].message)
      && (forall i :: 0 <= i < |r| ==> (r[i].read <==> state[i].read || state[i].id == target))
      && (forall i :: 0 <= i < |r| && state[i].id != target ==> r[i] == state[i])
  {
  }

  /** Marking the same id twice is the same as marking it once. */
  lemma {:induction false} MarkReadIdempotent(state: seq<Notification>, target: string)
    ensures Reduce(Reduce(state, MarkRead(target)), MarkRead(target)) == Reduce(state, MarkRead(target))
  {
    var once := Reduce(state, MarkRead(target));
    var twice := Reduce(once, MarkRead(target));
    assert |twice| == |once|;
    forall i | 0 <= i < |once| ensures twice[i] == once[i] {
      assert twice[i] == MarkOne(once[i], target);
    }
  }

  /** CLEAR empties the list and an action of any other type leaves it unchanged. */
  lemma {:induction false} ClearAndOther(state: seq<Notification>, name: string)
    ensures Reduce(state, Clear) == []
    ensures Reduce(state, Other(name)) == state
  {
  }

  /** A freshly added notification is unread, so it raises the unread count by one. */
  lemma {:induction false} AddRaisesUnread(state: seq<Notification>, id: string, kind: string, title: string,
                                           message: string, data: string, now: Time)
    ensures UnreadCount(AddNotification(state, id, kind, title, message, data, now).0) == UnreadCount(state) + 1
  {
    var r := AddNotification(state, id, kind, title, message, data, now).0;
    assert r[1..] == state;
  }

  /** Marking an id read leaves no unread item with that id and never raises the unread count. */
  lemma {:induction false} MarkReadUnread(state: seq<Notification>, target: string)
    ensures forall i :: 0 <= i < |state| && state[i].id == target ==> MarkReadOf(state, target)[i].read
    ensures UnreadCount(MarkReadOf(state, target)) <= UnreadCount(state)
    decreases |state|
  {
    if state != [] {
      MarkReadUnread(state[1..], target);
      assert MarkReadOf(state, target)[1..] == MarkReadOf(state[1..], target);
    }
  }
}
