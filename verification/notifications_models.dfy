/** The Notification entity of notifications/models.py, and what it means for
    a view to notify a set of users at once. */
module NotificationsModels {
  import opened UsersModels

  type NotificationId = nat

  /** `kind` is the notification_type column. The declared choices
      (artwork_approved, event_update, project_invite) are never enforced,
      and the views store other types too, so it is kept as text. */
  datatype Notification = Notification(recipient: UserId, message: string, kind: string, read: bool)

  /** A notification as `Notification.objects.create` stores it: unread. */
  function NewNotification(recipient: UserId, message: string, kind: string): (n: Notification)
    ensures n.recipient == recipient && n.message == message && n.kind == kind && !n.read
  {
    Notification(recipient, message, kind, false)
  }

  function Recipients(ns: seq<Notification>): (r: seq<UserId>)
    ensures |r| == |ns|
    ensures forall i :: 0 <= i < |ns| ==> r[i] == ns[i].recipient
  {
    seq(|ns|, i requires 0 <= i < |ns| => ns[i].recipient)
  }

  /** `added` holds one new notification with this message and type for every
      user of `recipients`, and none for anybody else. */
  ghost predicate Fanout(added: seq<Notification>, recipients: set<UserId>, message: string, kind: string)
  {
    && multiset(Recipients(added)) == multiset(recipients)
    && forall i :: 0 <= i < |added| ==> added[i] == NewNotification(added[i].recipient, message, kind)
  }

  /** `after` is `before` followed by a fan-out to `recipients`. */
  ghost predicate NotifiedAll(before: seq<Notification>, after: seq<Notification>, recipients: set<UserId>,
                              message: string, kind: string)
  {
    |before| <= |after| && after[..|before|] == before && Fanout(after[|before|..], recipients, message, kind)
  }

  lemma FanoutEmpty(message: string, kind: string)
    ensures Fanout([], {}, message, kind)
  {
  }

  /** Notifying one more user extends a fan-out by that user. */
  lemma FanoutStep(added: seq<Notification>, done: set<UserId>, u: UserId, message: string, kind: string)
    requires Fanout(added, done, message, kind)
    requires u !in done
    ensures Fanout(added + [NewNotification(u, message, kind)], done + {u}, message, kind)
  {
    var n := NewNotification(u, message, kind);
    assert Recipients(added + [n]) == Recipients(added) + [u];
    assert multiset(done + {u}) == multiset(done) + multiset{u};
  }

  lemma {:induction false} SetAsMultisetSize(s: set<UserId>)
    ensures |multiset(s)| == |s|
  {
    if s != {} {
      var x :| x in s;
      SetAsMultisetSize(s - {x});
      assert s == (s - {x}) + {x};
      assert multiset(s) == multiset(s - {x}) + multiset{x};
    }
  }

  /** A fan-out adds exactly as many notifications as there are recipients,
      and each recipient receives exactly one of them. */
  lemma FanoutOncePerRecipient(added: seq<Notification>, recipients: set<UserId>, message: string, kind: string)
    requires Fanout(added, recipients, message, kind)
    ensures |added| == |recipients|
    ensures forall u :: u in recipients ==> multiset(Recipients(added))[u] == 1
    ensures forall i :: 0 <= i < |added| ==> added[i].recipient in recipients
  {
    SetAsMultisetSize(recipients);
    assert |multiset(Recipients(added))| == |Recipients(added)|;
    forall i | 0 <= i < |added|
      ensures added[i].recipient in recipients
    {
      assert Recipients(added)[i] in multiset(Recipients(added));
    }
  }
}
