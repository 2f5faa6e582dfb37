/** The rules of artwork/views.py: the permission table of ArtworkViewSet,
    moderation (`approve`, `reject`, and the notification `perform_update`
    sends), the Like table behind `like_artwork`, `unlike_artwork` and
    `get_likes_count`, and the counts of ArtworkStatsView. */
module ArtworkViews {
  import opened Common
  import opened Text
  import opened UsersModels
  import opened ArtworkModels
  import opened NotificationsModels
  import opened Database

  // ---------------------------------------------------------------------------
  // Permissions
  // ---------------------------------------------------------------------------

  const ArtworkAdminActions: set<string> := {"update", "partial_update", "destroy"}

  /** `get_permissions`: an authenticated admin for the three editing actions,
      anybody for every other action. */
  function ArtworkPermissions(action: string): (r: seq<Permission>)
    ensures r == [IsAuthenticated, AdminUser] <==> action in ArtworkAdminActions
    ensures r == [AllowAny] <==> action !in ArtworkAdminActions
  {
    if action in ArtworkAdminActions then [IsAuthenticated, AdminUser] else [AllowAny]
  }

  /** The classes the `@action` decorators of ArtworkViewSet declare. */
  function ArtworkDeclaredPermissions(action: string): Option<seq<Permission>>
  {
    if action in {"approve", "reject"} then Some([IsAuthenticated, AdminUser])
    else if action == "my_artworks" then Some([IsAuthenticated])
    else if action == "category_analytics" then Some([AdminUser])
    else None
  }

  /** The override never consults the declarations: every decorated action,
      moderation included, is open to anybody. */
  lemma ArtworkOverrideIgnoresDeclarations(action: string)
    requires ArtworkDeclaredPermissions(action).Some?
    ensures ArtworkPermissions(action) == [AllowAny]
    ensures ArtworkPermissions(action) != ArtworkDeclaredPermissions(action).value
  {
  }

  // ---------------------------------------------------------------------------
  // create, update and destroy
  // ---------------------------------------------------------------------------

  function ApprovedMessage(title: string): string { "Your artwork '" + title + "' has been approved." }
  function RejectedMessage(title: string, feedback: string): string
  {
    "Your artwork '" + title + "' has been rejected. Feedback: " + feedback
  }

  /** `perform_create` under AllowAny: the caller becomes the artist; an
      anonymous caller cannot be stored as one and the request fails. */
  ghost function CreateArtwork(db: Db, caller: Option<UserId>, title: string, description: string,
                               category: Option<Category>): (r: Outcome)
    ensures r.response.code == HttpCreated <==> caller.Some?
    ensures caller.None? ==> r == Refuse(db, HttpServerError, "Server error")
    ensures caller.Some? ==>
      && r.db.gallery.artworks == db.gallery.artworks[db.gallery.nextArtworkId := NewArtwork(title, description, caller.value, category)]
      && r.db.gallery.nextArtworkId == db.gallery.nextArtworkId + 1
      && r.db.gallery.likes == db.gallery.likes
      && r.db == db.(gallery := r.db.gallery)
    ensures Valid(db) && (caller.Some? ==> caller.value in db.accounts.users) ==> Valid(r.db)
  {
    if caller.None? then Refuse(db, HttpServerError, "Server error")
    else
      var id := db.gallery.nextArtworkId;
      Outcome(Response(HttpCreated, title),
              db.(gallery := db.gallery.(artworks := db.gallery.artworks[id := NewArtwork(title, description, caller.value, category)],
                                         nextArtworkId := id + 1)))
  }

  /** The artwork as an update saves it. The serializer makes the status, the
      feedback and the artist read-only, so only the other fields change. */
  function UpdatedArtwork(a: Artwork, title: Option<string>, description: Option<string>, category: Option<Category>): (u: Artwork)
    ensures u.status == a.status && u.feedback == a.feedback && u.artist == a.artist
    ensures u.title == (if title.Some? then title.value else a.title)
    ensures u.description == (if description.Some? then description.value else a.description)
    ensures u.category == (if category.Some? then category.value else a.category)
  {
    a.(title := if title.Some? then title.value else a.title,
       description := if description.Some? then description.value else a.description,
       category := if category.Some? then category.value else a.category)
  }

  /** `update` with `perform_update`: the row is saved, and an approved
      artwork sends its artist another "artwork_approved" notification on
      every update. The "artwork_feedback" branch needs feedback in the
      validated data, which the read-only field never puts there, so no update
      ever sends one. */
  ghost function UpdateArtwork(db: Db, id: ArtworkId, title: Option<string>, description: Option<string>,
                               category: Option<Category>): (r: Outcome)
    ensures id !in db.gallery.artworks ==> r == Refuse(db, HttpNotFound, NotFound.message)
    ensures id in db.gallery.artworks ==>
      var a := db.gallery.artworks[id];
      var u := UpdatedArtwork(a, title, description, category);
      && r.response.code == HttpOk
      && r.db.gallery == db.gallery.(artworks := db.gallery.artworks[id := u])
      && r.db.accounts == db.accounts && r.db.calendar == db.calendar && r.db.workshop == db.workshop
      && (a.status == Approved ==> r.db.notifications == db.notifications + [NewNotification(a.artist, ApprovedMessage(u.title), "artwork_approved")])
      && (a.status != Approved ==> r.db.notifications == db.notifications)
    ensures forall i :: |db.notifications| <= i < |r.db.notifications| ==> r.db.notifications[i].kind != "artwork_feedback"
    ensures Valid(db) ==> Valid(r.db)
  {
    if id !in db.gallery.artworks then Refuse(db, HttpNotFound, NotFound.message)
    else
      var a := db.gallery.artworks[id];
      var u := UpdatedArtwork(a, title, description, category);
      var gallery := db.gallery.(artworks := db.gallery.artworks[id := u]);
      var sent := if u.status == Approved then [NewNotification(u.artist, ApprovedMessage(u.title), "artwork_approved")] else [];
      Outcome(Response(HttpOk, u.title), db.(gallery := gallery, notifications := db.notifications + sent))
  }

  /** `destroy`: the artwork goes, and with it (by cascade) its likes. */
  ghost function DestroyArtwork(db: Db, id: ArtworkId): (r: Outcome)
    ensures id !in db.gallery.artworks ==> r == Refuse(db, HttpNotFound, NotFound.message)
    ensures id in db.gallery.artworks ==>
      && r.response.code == HttpNoContent
      && r.db.gallery.artworks == db.gallery.artworks - {id}
      && (forall l :: l in r.db.gallery.likes <==> l in db.gallery.likes && l.artwork != id)
      && r.db.gallery.nextArtworkId == db.gallery.nextArtworkId && r.db == db.(gallery := r.db.gallery)
    ensures Valid(db) ==> Valid(r.db)
  {
    if id !in db.gallery.artworks then Refuse(db, HttpNotFound, NotFound.message)
    else
      var likes := set l | l in db.gallery.likes && l.artwork != id;
      Outcome(Response(HttpNoContent, ""),
              db.(gallery := db.gallery.(artworks := db.gallery.artworks - {id}, likes := likes)))
  }

  // ---------------------------------------------------------------------------
  // approve and reject
  // ---------------------------------------------------------------------------

  /** `approve`: whatever the status was, it becomes approved, and the artist
      receives one "artwork_approved" notification. */
  ghost function ApproveArtwork(db: Db, id: ArtworkId): (r: Outcome)
    ensures id !in db.gallery.artworks ==> r == Refuse(db, HttpNotFound, NotFound.message)
    ensures id in db.gallery.artworks ==>
      var a := db.gallery.artworks[id];
      && r.response == Response(HttpOk, "Artwork approved successfully.")
      && r.db.gallery == db.gallery.(artworks := db.gallery.artworks[id := a.(status := Approved)])
      && r.db.notifications == db.notifications + [NewNotification(a.artist, ApprovedMessage(a.title), "artwork_approved")]
      && r.db.accounts == db.accounts && r.db.calendar == db.calendar && r.db.workshop == db.workshop
    ensures Valid(db) ==> Valid(r.db)
  {
    if id !in db.gallery.artworks then Refuse(db, HttpNotFound, NotFound.message)
    else
      var a := db.gallery.artworks[id];
      Outcome(Response(HttpOk, "Artwork approved successfully."),
              db.(gallery := db.gallery.(artworks := db.gallery.artworks[id := a.(status := Approved)]),
                  notifications := db.notifications + [NewNotification(a.artist, ApprovedMessage(a.title), "artwork_approved")]))
  }

  /** The feedback `reject` reads: a missing key reads as "". */
  function FeedbackOf(feedback: Option<string>): string
  {
    if feedback.Some? then feedback.value else ""
  }

  /** `reject`: blank feedback (missing, empty or whitespace only) is refused
      and nothing changes; otherwise the status becomes rejected, the feedback
      is stored as sent, not stripped, and the artist receives one
      "artwork_rejected" notification quoting it. */
  ghost function RejectArtwork(db: Db, id: ArtworkId, feedback: Option<string>): (r: Outcome)
    ensures id !in db.gallery.artworks ==> r == Refuse(db, HttpNotFound, NotFound.message)
    ensures id in db.gallery.artworks && IsBlank(FeedbackOf(feedback))
        ==> r == Refuse(db, HttpBadRequest, "Feedback is required when rejecting an artwork.")
    ensures r.response.code == HttpOk <==> id in db.gallery.artworks && !IsBlank(FeedbackOf(feedback))
    ensures r.response.code == HttpOk ==>
      var a := db.gallery.artworks[id];
      && feedback.Some?
      && r.db.gallery == db.gallery.(artworks := db.gallery.artworks[id := a.(status := Rejected, feedback := feedback)])
      && r.db.notifications == db.notifications + [NewNotification(a.artist, RejectedMessage(a.title, feedback.value), "artwork_rejected")]
      && r.db.accounts == db.accounts && r.db.calendar == db.calendar && r.db.workshop == db.workshop
    ensures Valid(db) ==> Valid(r.db)
  {
    if id !in db.gallery.artworks then Refuse(db, HttpNotFound, NotFound.message)
    else
      var a := db.gallery.artworks[id];
      var text := FeedbackOf(feedback);
      StripEmptyIffBlank(text);
      if Strip(text) == [] then Refuse(db, HttpBadRequest, "Feedback is required when rejecting an artwork.")
      else
        var after := db.(gallery := db.gallery.(artworks := db.gallery.artworks[id := a.(status := Rejected, feedback := Some(text))]),
                         notifications := db.notifications + [NewNotification(a.artist, RejectedMessage(a.title, text), "artwork_rejected")]);
        ModerationKeepsValid(db, id, a.(status := Rejected, feedback := Some(text)), after);
        Outcome(Response(HttpOk, "Artwork rejected successfully."), after)
  }

  /** Moderating an artwork and notifying its artist keeps every foreign key
      valid. */
  lemma ModerationKeepsValid(db: Db, id: ArtworkId, moderated: Artwork, after: Db)
    requires id in db.gallery.artworks && moderated.artist == db.gallery.artworks[id].artist
    requires after.gallery == db.gallery.(artworks := db.gallery.artworks[id := moderated])
    requires after.accounts == db.accounts && after.calendar == db.calendar && after.workshop == db.workshop
    requires |after.notifications| == |db.notifications| + 1 && after.notifications[..|db.notifications|] == db.notifications
    requires after.notifications[|db.notifications|].recipient == moderated.artist
    ensures Valid(db) ==> Valid(after)
  {
    if Valid(db) {
      forall i | 0 <= i < |after.notifications|
        ensures after.notifications[i].recipient in after.accounts.users.Keys
      {
        if i < |db.notifications| {
          assert after.notifications[i] == db.notifications[i];
        }
      }
    }
  }

  // ---------------------------------------------------------------------------
  // Likes
  // ---------------------------------------------------------------------------

  /** `like_artwork` (authenticated): a missing artwork raises an uncaught
      DoesNotExist; otherwise `get_or_create` adds the pair the first time and
      reports a duplicate after that. */
  ghost function LikeArtwork(db: Db, caller: UserId, id: ArtworkId): (r: Outcome)
    ensures id !in db.gallery.artworks ==> r == Refuse(db, HttpServerError, "Server error")
    ensures id in db.gallery.artworks && Like(caller, id) in db.gallery.likes ==> r == Refuse(db, HttpBadRequest, "Already liked!")
    ensures r.response.code == HttpCreated <==> id in db.gallery.artworks && Like(caller, id) !in db.gallery.likes
    ensures r.response.code == HttpCreated ==>
      r.db == db.(gallery := db.gallery.(likes := db.gallery.likes + {Like(caller, id)}))
    ensures Valid(db) && caller in db.accounts.users ==> Valid(r.db)
  {
    if id !in db.gallery.artworks then Refuse(db, HttpServerError, "Server error")
    else if Like(caller, id) in db.gallery.likes then Refuse(db, HttpBadRequest, "Already liked!")
    else Outcome(Response(HttpCreated, "Artwork liked!"),
                 db.(gallery := db.gallery.(likes := db.gallery.likes + {Like(caller, id)})))
  }

  /** `unlike_artwork` (authenticated): removes the caller's like, or reports
      that there is none. */
  ghost function UnlikeArtwork(db: Db, caller: UserId, id: ArtworkId): (r: Outcome)
    ensures Like(caller, id) !in db.gallery.likes ==> r == Refuse(db, HttpNotFound, "Like not found")
    ensures r.response.code == HttpOk <==> Like(caller, id) in db.gallery.likes
    ensures r.response.code == HttpOk ==>
      r.db == db.(gallery := db.gallery.(likes := db.gallery.likes - {Like(caller, id)}))
    ensures Valid(db) ==> Valid(r.db)
  {
    if Like(caller, id) !in db.gallery.likes then Refuse(db, HttpNotFound, "Like not found")
    else Outcome(Response(HttpOk, "Like removed!"),
                 db.(gallery := db.gallery.(likes := db.gallery.likes - {Like(caller, id)})))
  }

  /** The Like rows of one artwork. */
  function LikesOf(likes: set<Like>, id: ArtworkId): set<Like>
  {
    set l | l in likes && l.artwork == id
  }

  /** The users who liked one artwork. */
  function LikersOf(likes: set<Like>, id: ArtworkId): set<UserId>
  {
    set l | l in likes && l.artwork == id :: l.user
  }

  /** A set of likes of one artwork has one row per user. */
  lemma {:induction false} OneLikePerUser(ls: set<Like>, id: ArtworkId)
    requires forall l :: l in ls ==> l.artwork == id
    ensures |ls| == |set l | l in ls :: l.user|
  {
    if ls != {} {
      var x :| x in ls;
      var rest := ls - {x};
      OneLikePerUser(rest, id);
      var users := set l | l in ls :: l.user;
      var restUsers := set l | l in rest :: l.user;
      assert users == restUsers + {x.user};
      assert x.user !in restUsers;
    }
  }

  /** `get_likes_count`: the number of Like rows of the artwork, which, since
      a user likes an artwork at most once, is the number of users who liked
      it. */
  function LikesCount(likes: set<Like>, id: ArtworkId): (n: nat)
    ensures n == |LikersOf(likes, id)|
  {
    OneLikePerUser(LikesOf(likes, id), id);
    assert LikersOf(likes, id) == set l | l in LikesOf(likes, id) :: l.user;
    |LikesOf(likes, id)|
  }

  /** A like raises that artwork's count by one and no other artwork's. */
  lemma LikeCountsOnce(db: Db, caller: UserId, id: ArtworkId, other: ArtworkId)
    requires LikeArtwork(db, caller, id).response.code == HttpCreated
    ensures var after := LikeArtwork(db, caller, id).db.gallery.likes;
      && LikesCount(after, id) == LikesCount(db.gallery.likes, id) + 1
      && (other != id ==> LikesCount(after, other) == LikesCount(db.gallery.likes, other))
  {
    var after := LikeArtwork(db, caller, id).db.gallery.likes;
    assert LikersOf(after, id) == LikersOf(db.gallery.likes, id) + {caller};
    assert caller !in LikersOf(db.gallery.likes, id);
    assert other != id ==> LikersOf(after, other) == LikersOf(db.gallery.likes, other);
  }

  /** An unlike lowers that artwork's count by one and no other artwork's. */
  lemma UnlikeCountsOnce(db: Db, caller: UserId, id: ArtworkId, other: ArtworkId)
    requires UnlikeArtwork(db, caller, id).response.code == HttpOk
    ensures var after := UnlikeArtwork(db, caller, id).db.gallery.likes;
      && LikesCount(after, id) == LikesCount(db.gallery.likes, id) - 1
      && (other != id ==> LikesCount(after, other) == LikesCount(db.gallery.likes, other))
  {
    var before := db.gallery.likes;
    var after := UnlikeArtwork(db, caller, id).db.gallery.likes;
    assert LikersOf(before, id) == LikersOf(after, id) + {caller};
    assert caller !in LikersOf(after, id);
    assert other != id ==> LikersOf(after, other) == LikersOf(before, other);
  }

  /** Unliking right after a first like gives the like table back. */
  lemma UnlikeUndoesLike(db: Db, caller: UserId, id: ArtworkId)
    requires LikeArtwork(db, caller, id).response.code == HttpCreated
    ensures var first := LikeArtwork(db, caller, id).db;
      var second := UnlikeArtwork(first, caller, id);
      second.response.code == HttpOk && second.db == db
  {
    var first := LikeArtwork(db, caller, id).db;
    assert first.gallery.likes - {Like(caller, id)} == db.gallery.likes;
  }

  /** Liking right after an unlike gives the like table back. */
  lemma LikeUndoesUnlike(db: Db, caller: UserId, id: ArtworkId)
    requires Valid(db)
    requires UnlikeArtwork(db, caller, id).response.code == HttpOk
    ensures var first := UnlikeArtwork(db, caller, id).db;
      var second := LikeArtwork(first, caller, id);
      second.response.code == HttpCreated && second.db == db
  {
    var first := UnlikeArtwork(db, caller, id).db;
    assert first.gallery.likes + {Like(caller, id)} == db.gallery.likes;
  }

  // ---------------------------------------------------------------------------
  // ArtworkStatsView
  // ---------------------------------------------------------------------------

  datatype ArtworkStats = ArtworkStats(pending: nat, approved: nat, rejected: nat, total: nat)

  function WithStatus(artworks: map<ArtworkId, Artwork>, s: Status): set<ArtworkId>
  {
    set id | id in artworks && artworks[id].status == s
  }

  /** The three statuses split the artworks into disjoint parts. */
  lemma StatusPartition(artworks: map<ArtworkId, Artwork>)
    ensures |WithStatus(artworks, Pending)| + |WithStatus(artworks, Approved)| + |WithStatus(artworks, Rejected)| == |artworks|
  {
    var p, a, r := WithStatus(artworks, Pending), WithStatus(artworks, Approved), WithStatus(artworks, Rejected);
    assert p * a == {} && (p + a) * r == {};
    assert p + a + r == artworks.Keys;
  }

  /** The four counts ArtworkStatsView reports: the per-status counts add up
      to the total. */
  function Stats(artworks: map<ArtworkId, Artwork>): (r: ArtworkStats)
    ensures r.pending + r.approved + r.rejected == r.total == |artworks|
    ensures r.pending == |WithStatus(artworks, Pending)| && r.approved == |WithStatus(artworks, Approved)|
    ensures r.rejected == |WithStatus(artworks, Rejected)|
  {
    StatusPartition(artworks);
    ArtworkStats(|WithStatus(artworks, Pending)|, |WithStatus(artworks, Approved)|,
                 |WithStatus(artworks, Rejected)|, |artworks|)
  }

  /** Approving a pending artwork moves it from the pending count to the
      approved count and leaves the total alone. */
  lemma ApproveMovesPendingToApproved(db: Db, id: ArtworkId)
    requires id in db.gallery.artworks && db.gallery.artworks[id].status == Pending
    ensures var before := Stats(db.gallery.artworks);
      var after := Stats(ApproveArtwork(db, id).db.gallery.artworks);
      && after.pending == before.pending - 1
      && after.approved == before.approved + 1
      && after.rejected == before.rejected
      && after.total == before.total
  {
    var before := db.gallery.artworks;
    var after := ApproveArtwork(db, id).db.gallery.artworks;
    assert WithStatus(before, Pending) == WithStatus(after, Pending) + {id};
    assert WithStatus(after, Approved) == WithStatus(before, Approved) + {id};
    assert WithStatus(after, Rejected) == WithStatus(before, Rejected);
  }
}
