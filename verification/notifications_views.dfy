/** The rules of notifications/views.py: what a user sees, the read flags a
    user may set, and who a bulk send reaches. */
module NotificationsViews {
  import opened Common
  import opened UsersModels
  import opened NotificationsModels
  import opened Database

  // ---------------------------------------------------------------------------
  // get_queryset
  // ---------------------------------------------------------------------------

  /** The ids of the caller's notifications, newest first. The class defines
      `get_queryset` twice; the second definition, which adds the ordering,
      is the one in force. Ids grow with creation time, so newest first is
      descending id order. */
  function Visible(ns: seq<Notification>, caller: UserId): (r: seq<NotificationId>)
    ensures forall i :: 0 <= i < |r| ==> r[i] < |ns| && ns[r[i]].recipient == caller
    ensures forall id :: 0 <= id < |ns| && ns[id].recipient == caller ==> id in r
    ensures forall i, j :: 0 <= i < j < |r| ==> r[i] > r[j]
  {
    if ns == [] then []
    else
      var last := |ns| - 1;
      var older := Visible(ns[..last], caller);
      if ns[last].recipient == caller then [last] + older else older
  }

  /** An id is visible to the caller exactly when it names one of the caller's
      notifications, so no user ever sees another user's notification. */
  lemma VisibleExactlyOwn(ns: seq<Notification>, caller: UserId, id: NotificationId)
    ensures id in Visible(ns, caller) <==> id < |ns| && ns[id].recipient == caller
  {
    var r := Visible(ns, caller);
    if id in r {
      var i :| 0 <= i < |r| && r[i] == id;
    }
  }

  // ---------------------------------------------------------------------------
  // mark_as_read and mark_all_as_read
  // ---------------------------------------------------------------------------

  /** `mark_as_read`: the lookup goes through the caller's own notifications,
      so another user's id is as missing as an id that does not exist. On
      success that one notification becomes read and no other changes. */
  ghost function MarkAsRead(db: Db, caller: UserId, id: NotificationId): (r: Outcome)
    ensures r.response.code == HttpOk <==> id < |db.notifications| && db.notifications[id].recipient == caller
    ensures r.response.code != HttpOk ==> r == Refuse(db, HttpNotFound, NotFound.message)
    ensures r.response.code == HttpOk ==>
      r.db == db.(notifications := db.notifications[id := db.notifications[id].(read := true)])
    ensures Valid(db) ==> Valid(r.db)
  {
    if id < |db.notifications| && db.notifications[id].recipient == caller then
      Outcome(Response(HttpOk, "Notification marked as read."),
              db.(notifications := db.notifications[id := db.notifications[id].(read := true)]))
    else Refuse(db, HttpNotFound, NotFound.message)
  }

  /** Marking a notification read twice changes nothing the second time. */
  lemma MarkAsReadIdempotent(db: Db, caller: UserId, id: NotificationId)
    ensures var once := MarkAsRead(db, caller, id);
      MarkAsRead(once.db, caller, id) == once
  {
    var once := MarkAsRead(db, caller, id);
    if once.response.code == HttpOk {
      var ns := once.db.notifications;
      assert ns[id := ns[id].(read := true)] == ns;
    }
  }

  /** The notifications after `mark_all_as_read`: every one of the caller's is
      read, and every other user's is as it was. */
  function AllReadFor(ns: seq<Notification>, caller: UserId): (r: seq<Notification>)
    ensures |r| == |ns|
    ensures forall i :: 0 <= i < |ns| && ns[i].recipient == caller ==> r[i] == ns[i].(read := true)
    ensures forall i :: 0 <= i < |ns| && ns[i].recipient != caller ==> r[i] == ns[i]
  {
    seq(|ns|, i requires 0 <= i < |ns| => if ns[i].recipient == caller then ns[i].(read := true) else ns[i])
  }

  /** `mark_all_as_read`: one update over the caller's notifications. */
  ghost function MarkAllAsRead(db: Db, caller: UserId): (r: Outcome)
    ensures r.response.code == HttpOk
    ensures r.db == db.(notifications := AllReadFor(db.notifications, caller))
    ensures Valid(db) ==> Valid(r.db)
  {
    var after := db.(notifications := AllReadFor(db.notifications, caller));
    assert forall i :: 0 <= i < |after.notifications| ==> after.notifications[i].recipient == db.notifications[i].recipient;
    Outcome(Response(HttpOk, "All notifications marked as read."), after)
  }

  /** After `mark_all_as_read` nothing the caller sees is unread, and marking
      any single notification read changes nothing more. */
  lemma MarkAllLeavesNothingUnread(db: Db, caller: UserId, id: NotificationId)
    ensures var after := MarkAllAsRead(db, caller).db;
      && Visible(after.notifications, caller) == Visible(db.notifications, caller)
      && (forall k :: k in Visible(after.notifications, caller) ==> after.notifications[k].read)
      && MarkAsRead(after, caller, id).db == after
  {
    var after := MarkAllAsRead(db, caller).db;
    SameRecipientsSameVisible(db.notifications, after.notifications, caller);
    forall k | k in Visible(after.notifications, caller)
      ensures after.notifications[k].read
    {
      VisibleExactlyOwn(after.notifications, caller, k);
    }
    if id < |after.notifications| && after.notifications[id].recipient == caller {
      var ns := after.notifications;
      assert ns[id := ns[id].(read := true)] == ns;
    }
  }

  /** What a user sees depends only on who each notification is for. */
  lemma {:induction false} SameRecipientsSameVisible(a: seq<Notification>, b: seq<Notification>, caller: UserId)
    requires |a| == |b|
    requires forall i :: 0 <= i < |a| ==> a[i].recipient == b[i].recipient
    ensures Visible(a, caller) == Visible(b, caller)
  {
    if a != [] {
      SameRecipientsSameVisible(a[..|a| - 1], b[..|b| - 1], caller);
    }
  }

  // ---------------------------------------------------------------------------
  // send_bulk
  // ---------------------------------------------------------------------------

  /** The users a bulk send names: those whose stored role is spelled `role`
      (the undeclared "visitor" included). */
  function BulkRecipients(users: map<UserId, User>, role: string): (r: set<UserId>)
    ensures r <= users.Keys
    ensures forall id :: id in users && RoleName(users[id].role) == role ==> id in r
    ensures forall id :: id in r ==> RoleName(users[id].role) == role
  {
    set id | id in users && RoleName(users[id].role) == role
  }

  /** The type a bulk send stores: "general" when the request names none. */
  function KindOrDefault(kind: Option<string>): string
  {
    if kind.Some? then kind.value else "general"
  }

  /** The guard of `send_bulk`: a missing or empty role or message is refused. */
  function SendBulkRefusal(role: Option<string>, message: Option<string>): (r: Option<Response>)
    ensures r.None? <==> Present(role) && Present(message)
    ensures r.Some? ==> r.value == Response(HttpBadRequest, "Role and message are required")
  {
    if !Present(role) || !Present(message) then Some(Response(HttpBadRequest, "Role and message are required"))
    else None
  }

  /** A bulk send to a role nobody holds creates nothing and still succeeds. */
  lemma BulkSendToEmptyRole(users: map<UserId, User>, role: Option<string>, message: Option<string>,
                            added: seq<Notification>, kind: Option<string>)
    requires SendBulkRefusal(role, message).None?
    requires forall id :: id in users ==> RoleName(users[id].role) != role.value
    requires Fanout(added, BulkRecipients(users, role.value), message.value, KindOrDefault(kind))
    ensures added == []
  {
    assert BulkRecipients(users, role.value) == {};
    FanoutOncePerRecipient(added, BulkRecipients(users, role.value), message.value, KindOrDefault(kind));
  }
}
