/** The notification store of `NotificationContext`: the list, its read flags, and the `isNew`
    badge flag. */
module NotificationStore {
  import opened Options

  datatype Notification = Notification(id: int, serverName: string, message: string, read: bool)

  datatype NotificationState = NotificationState(items: seq<Notification>, isNew: bool)

  /** The provider's initial state: no notifications and no badge. */
  const Initial := NotificationState([], false)

  /** `list.some(n => !n.read)`. */
  predicate HasUnread(items: seq<Notification>) {
    exists i :: 0 <= i < |items| && !items[i].read
  }

  /** `notificationRead(id)`: mark the entries carrying `id` as read; clear the badge once nothing
      unread is left, otherwise leave the badge alone. */
  function MarkRead(st: NotificationState, id: int): (r: NotificationState)
    ensures |r.items| == |st.items|
    ensures forall i :: 0 <= i < |st.items| ==>
              r.items[i].read == (st.items[i].read || st.items[i].id == id)
              && r.items[i].(read := st.items[i].read) == st.items[i]
    ensures !HasUnread(r.items) ==> !r.isNew
    ensures HasUnread(r.items) ==> r.isNew == st.isNew
  {
    var updated := seq(|st.items|, i requires 0 <= i < |st.items| =>
                         if st.items[i].id == id then st.items[i].(read := true) else st.items[i]);
    NotificationState(updated, if HasUnread(updated) then st.isNew else false)
  }

  /** `notificationAllRead`: every entry read, badge cleared. */
  function MarkAllRead(st: NotificationState): (r: NotificationState)
    ensures |r.items| == |st.items|
    ensures forall i :: 0 <= i < |st.items| ==> r.items[i] == st.items[i].(read := true)
    ensures !HasUnread(r.items) && !r.isNew
  {
    NotificationState(seq(|st.items|, i requires 0 <= i < |st.items| => st.items[i].(read := true)), false)
  }

  /** The initial fetch: a successful fetch replaces the list and sets the badge to "some entry is
      unread"; a fetch that throws (`None`) changes nothing. */
  function FetchLoaded(st: NotificationState, fetched: Option<seq<Notification>>): (r: NotificationState)
    ensures fetched.None? ==> r == st
    ensures fetched.Some? ==> r.items == fetched.value && (r.isNew <==> exists i :: 0 <= i < |r.items| && !r.items[i].read)
  {
    match fetched
    case None => st
    case Some(data) => NotificationState(data, HasUnread(data))
  }

  /** A 'notifications' push: the badge goes up, the list is untouched. */
  function PushReceived(st: NotificationState): (r: NotificationState)
    ensures r.items == st.items && r.isNew
  {
    st.(isNew := true)
  }

  /** The exposed `setNotifications` setter: replaces the list, leaves the badge. */
  function SetNotifications(st: NotificationState, data: seq<Notification>): (r: NotificationState)
    ensures r.items == data && r.isNew == st.isNew
  {
    st.(items := data)
  }

  /** Marking the same id read twice is the same as marking it once. */
  lemma MarkReadIdempotent(st: NotificationState, id: int)
    ensures MarkRead(MarkRead(st, id), id) == MarkRead(st, id)
  {
    var once := MarkRead(st, id);
    var twice := MarkRead(once, id);
    assert twice.items == once.items;
  }

  /** Marking all read twice is the same as once. */
  lemma MarkAllReadIdempotent(st: NotificationState)
    ensures MarkAllRead(MarkAllRead(st)) == MarkAllRead(st)
  {
  }

  /** The events the context itself reacts to (the setter is exposed to pages, not reacted to). */
  datatype Event = Read(id: int) | AllRead | Push

  function Apply(st: NotificationState, e: Event): NotificationState {
    match e
    case Read(id) => MarkRead(st, id)
    case AllRead => MarkAllRead(st)
    case Push => PushReceived(st)
  }

  function ApplyAll(st: NotificationState, events: seq<Event>): NotificationState
    decreases |events|
  {
    if |events| == 0 then st else ApplyAll(Apply(st, events[0]), events[1..])
  }

  /** Read is one-way: no sequence of read, read-all and push events turns a read entry back to
      unread, nor changes the list's length or its entries apart from their read flags. */
  lemma {:induction false} ReadIsMonotone(st: NotificationState, events: seq<Event>)
    ensures |ApplyAll(st, events).items| == |st.items|
    ensures forall i :: 0 <= i < |st.items| ==> st.items[i].read ==> ApplyAll(st, events).items[i].read
    ensures forall i :: 0 <= i < |st.items| ==>
              ApplyAll(st, events).items[i].(read := st.items[i].read) == st.items[i]
    decreases |events|
  {
    if |events| > 0 {
      var next := Apply(st, events[0]);
      ReadIsMonotone(next, events[1..]);
    }
  }

  /** The badge is up whenever something is unread. */
  predicate BadgeSound(st: NotificationState) {
    HasUnread(st.items) ==> st.isNew
  }

  /** Every transition of the context keeps the badge sound: fetch, read, read-all and push. */
  lemma TransitionsKeepBadgeSound(st: NotificationState, e: Event, fetched: Option<seq<Notification>>)
    requires BadgeSound(st)
    ensures BadgeSound(Apply(st, e))
    ensures BadgeSound(FetchLoaded(st, fetched))
  {
    if e.Read? {
      var r := MarkRead(st, e.id);
      if HasUnread(r.items) {
        var i :| 0 <= i < |r.items| && !r.items[i].read;
        assert !st.items[i].read;
      }
    }
  }

  /** The exposed setter is the one way to break that: installing an unread list while the badge
      is down leaves the badge down. */
  lemma SetterCanHideUnread()
    ensures !BadgeSound(SetNotifications(Initial, [Notification(1, "srv", "cpu high", false)]))
  {
    var r := SetNotifications(Initial, [Notification(1, "srv", "cpu high", false)]);
    assert !r.items[0].read;
  }
}
