/** The backend as the views see it: one store whose tables the endpoints
    change in place. Each state-changing endpoint is a method; its contract
    ties the response and the new tables to the endpoint's rule in the views
    modules, applied to the tables as they were, and keeps referential
    integrity. The three endpoints that notify a whole set of users one row at
    a time do so in a loop, proved to notify every user of the set exactly
    once. */
module Backend {
  import opened Common
  import opened Text
  import opened UsersModels
  import opened ArtworkModels
  import opened EventsModels
  import opened ProjectsModels
  import opened NotificationsModels
  import opened Database
  import EV = EventsViews
  import AV = ArtworkViews
  import UV = UsersViews
  import PV = ProjectsViews
  import NV = NotificationsViews

  class Store {
    // users app
    var users: map<UserId, User>
    var nextUserId: nat
    var logs: seq<ActivityLog>
    // artwork app
    var artworks: map<ArtworkId, Artwork>
    var nextArtworkId: nat
    var likes: set<Like>
    // events app
    var events: map<EventId, Event>
    var nextEventId: nat
    var registrations: map<RegistrationId, Registration>
    var nextRegistrationId: nat
    // projects app
    var projects: map<ProjectId, Project>
    var nextProjectId: nat
    var progress: map<ProgressId, Progress>
    var nextProgressId: nat
    // notifications app
    var notifications: seq<Notification>

    /** The tables as one database value. */
    function Snapshot(): Db
      reads this
    {
      Db(Accounts(users, nextUserId, logs),
         Gallery(artworks, nextArtworkId, likes),
         Calendar(events, nextEventId, registrations, nextRegistrationId),
         Workshop(projects, nextProjectId, progress, nextProgressId),
         notifications)
    }

    ghost predicate Valid()
      reads this
    {
      Database.Valid(Snapshot())
    }

    /** The store before any request: every table empty. */
    constructor ()
      ensures Valid() && Snapshot() == EmptyDb()
    {
      users, nextUserId, logs := map[], 1, [];
      artworks, nextArtworkId, likes := map[], 1, {};
      events, nextEventId, registrations, nextRegistrationId := map[], 1, map[], 1;
      projects, nextProjectId, progress, nextProgressId := map[], 1, map[], 1;
      notifications := [];
    }

    // -------------------------------------------------------------------------
    // events
    // -------------------------------------------------------------------------

    /** `register`. */
    method Register(eventId: EventId, user: UserId, now: int) returns (response: Response)
      requires Valid() && user in users
      modifies this
      ensures var r := EV.RegisterForEvent(old(Snapshot()), eventId, user, now);
        response == r.response && Snapshot() == r.db
      ensures Valid()
    {
      if eventId !in events {
        return NotFound;
      }
      var refusal := EV.RegisterRefusal(events[eventId], EV.IsRegistered(Snapshot().calendar, user, eventId), now);
      if refusal.Some? {
        return refusal.value;
      }
      response := AddRegistration(eventId, user, now);
    }

    /** The writes of a registration that passed every guard: the row, the
        attendee and the confirmation. */
    method AddRegistration(eventId: EventId, user: UserId, now: int) returns (response: Response)
      requires Valid() && user in users && eventId in events
      requires EV.RegisterRefusal(events[eventId], EV.IsRegistered(Snapshot().calendar, user, eventId), now).None?
      modifies this
      ensures var r := EV.RegisterForEvent(old(Snapshot()), eventId, user, now);
        response == r.response && Snapshot() == r.db
      ensures Valid()
    {
      ghost var r := EV.RegisterForEvent(Snapshot(), eventId, user, now);
      assert Database.Valid(r.db);
      var e := events[eventId];
      var id := nextRegistrationId;
      registrations := registrations[id := Registration(user, eventId, now)];
      nextRegistrationId := id + 1;
      events := events[eventId := e.(attendees := e.attendees + {user})];
      notifications := notifications + [NewNotification(user, EV.RegisteredMessage(e.title), "event_registration")];
      response := Response(HttpCreated, "Successfully registered!");
      assert Snapshot() == r.db;
    }

    /** `unregister`. */
    method Unregister(eventId: EventId, user: UserId, now: int) returns (response: Response)
      requires Valid()
      modifies this
      ensures var r := EV.UnregisterFromEvent(old(Snapshot()), eventId, user, now);
        response == r.response && Snapshot() == r.db
      ensures Valid()
    {
      ghost var r := EV.UnregisterFromEvent(Snapshot(), eventId, user, now);
      assert Database.Valid(r.db);
      if eventId !in events {
        return NotFound;
      }
      var e := events[eventId];
      var rows := EV.RegistrationsOf(Snapshot().calendar, user, eventId);
      if |rows| != 1 {
        return Response(HttpServerError, "Unregistration failed");
      }
      if EV.HasStarted(e, now) {
        return Response(HttpBadRequest, "Cannot unregister from past events");
      }
      registrations := registrations - rows;
      events := events[eventId := e.(attendees := e.attendees - {user})];
      notifications := notifications + [NewNotification(user, EV.UnregisteredMessage(e.title), "event_unregistration")];
      response := Response(HttpOk, "Successfully unregistered");
    }

    /** `mark_attended`; `userId` is the `user_id` text of the form body. */
    method MarkAttended(eventId: EventId, userId: Option<string>) returns (response: Response)
      requires Valid()
      modifies this
      ensures var r := EV.MarkAttended(old(Snapshot()), eventId, userId);
        response == r.response && Snapshot() == r.db
      ensures Valid()
    {
      if eventId !in events {
        return NotFound;
      }
      if !Present(userId) {
        return Response(HttpBadRequest, "user_id is required");
      }
      var parsed := ParseInt(userId.value);
      if parsed.None? {
        return Response(HttpServerError, "Server error");
      }
      var rows := EV.RowsForUserId(Snapshot().calendar, eventId, parsed.value);
      if rows == {} {
        return Response(HttpNotFound, "Registration not found");
      }
      if |rows| > 1 {
        return Response(HttpServerError, "Server error");
      }
      var id :| id in rows;
      assert rows == {id} by {
        assert |rows - {id}| == 0;
      }
      var recipient := registrations[id].user;
      notifications := notifications + [NewNotification(recipient, EV.AttendanceMessage(events[eventId].title), "event_attendance")];
      response := Response(HttpOk, "Attendance marked for user " + userId.value);
    }

    /** `create`. */
    method CreateEvent(caller: UserId, title: string, location: string, date: int, attendees: set<UserId>,
                       deadline: Option<int>, capacity: Option<nat>, isCompleted: Option<bool>) returns (response: Response)
      requires Valid() && caller in users
      modifies this
      ensures var r := EV.CreateEvent(old(Snapshot()), caller, title, location, date, attendees, deadline, capacity, isCompleted);
        response == r.response && Snapshot() == r.db
      ensures Valid()
    {
      if !(attendees <= users.Keys) {
        return Response(HttpBadRequest, "Invalid attendees");
      }
      var id := nextEventId;
      events := events[id := NewEvent(title, location, date, caller, attendees, deadline, capacity, isCompleted)];
      nextEventId := id + 1;
      response := Response(HttpCreated, title);
    }

    /** `update` and `partial_update` with `perform_update`: the event is
        saved, then every attendee of the saved event receives one
        "event_update" notification; only then does an anonymous request
        fail (500), with the writes in place. */
    method UpdateEvent(caller: Option<UserId>, eventId: EventId, p: EV.EventPatch) returns (response: Response)
      requires Valid()
      modifies this
      ensures var r := EV.UpdateEvent(old(Snapshot()), caller, eventId, p);
        && response == r.response
        && (response.code != HttpOk && response.code != HttpServerError ==> Snapshot() == old(Snapshot()))
        && (response.code == HttpOk || response.code == HttpServerError ==>
              var e := r.db.calendar.events[eventId];
              && Snapshot() == r.db.(notifications := notifications)
              && NotifiedAll(old(notifications), notifications, e.attendees, EV.UpdatedMessage(e.title), "event_update"))
      ensures Valid()
    {
      ghost var r := EV.UpdateEvent(Snapshot(), caller, eventId, p);
      assert Database.Valid(r.db);
      if eventId !in events {
        return NotFound;
      }
      if p.attendees.Some? && !(p.attendees.value <= users.Keys) {
        return Response(HttpBadRequest, "Invalid attendees");
      }
      var e := EV.UpdatedEvent(events[eventId], p);
      events := events[eventId := e];
      assert Snapshot() == r.db;
      assert e.attendees <= users.Keys;
      NotifyEach(e.attendees, EV.UpdatedMessage(e.title), "event_update");
      if caller.None? {
        return Response(HttpServerError, "Server error");
      }
      response := Response(HttpOk, e.title);
    }

    /** `destroy`: the event and its registrations go. */
    method DestroyEvent(eventId: EventId) returns (response: Response)
      requires Valid()
      modifies this
      ensures var r := EV.DestroyEvent(old(Snapshot()), eventId);
        response == r.response && Snapshot() == r.db
      ensures Valid()
    {
      ghost var r := EV.DestroyEvent(Snapshot(), eventId);
      assert Database.Valid(r.db);
      if eventId !in events {
        return NotFound;
      }
      events := events - {eventId};
      registrations := map id | id in registrations && registrations[id].event != eventId :: registrations[id];
      response := Response(HttpNoContent, "");
      assert Snapshot() == r.db;
    }

    /** Creates one notification for each user of `recipients` and keeps
        referential integrity. */
    method NotifyEach(recipients: set<UserId>, message: string, kind: string)
      requires Valid() && recipients <= users.Keys
      modifies this
      ensures NotifiedAll(old(notifications), notifications, recipients, message, kind)
      ensures Snapshot() == old(Snapshot()).(notifications := notifications)
      ensures Valid()
    {
      AppendEach(recipients, message, kind);
      ghost var added := notifications[|old(notifications)|..];
      assert notifications == old(notifications) + added;
      FanoutOncePerRecipient(added, recipients, message, kind);
      NotifyKeepsValid(old(Snapshot()), added);
    }

    /** Appends one notification for each user of `recipients`, one at a
        time, in whatever order the set yields them. */
    method AppendEach(recipients: set<UserId>, message: string, kind: string)
      modifies this`notifications
      ensures NotifiedAll(old(notifications), notifications, recipients, message, kind)
    {
      var todo := recipients;
      ghost var done: set<UserId> := {};
      ghost var added: seq<Notification> := [];
      FanoutEmpty(message, kind);
      while todo != {}
        invariant todo <= recipients && done == recipients - todo
        invariant notifications == old(notifications) + added
        invariant Fanout(added, done, message, kind)
        decreases |todo|
      {
        var u :| u in todo;
        var n := NewNotification(u, message, kind);
        FanoutStep(added, done, u, message, kind);
        notifications := notifications + [n];
        added := added + [n];
        done := done + {u};
        todo := todo - {u};
      }
      assert notifications[|old(notifications)|..] == added;
    }

    // -------------------------------------------------------------------------
    // artwork
    // -------------------------------------------------------------------------

    /** `create` under AllowAny; `caller` is `None` for an anonymous request. */
    method CreateArtwork(caller: Option<UserId>, title: string, description: string, category: Option<Category>)
      returns (response: Response)
      requires Valid() && (caller.Some? ==> caller.value in users)
      modifies this
      ensures var r := AV.CreateArtwork(old(Snapshot()), caller, title, description, category);
        response == r.response && Snapshot() == r.db
      ensures Valid()
    {
      ghost var r := AV.CreateArtwork(Snapshot(), caller, title, description, category);
      assert Database.Valid(r.db);
      if caller.None? {
        return Response(HttpServerError, "Server error");
      }
      var id := nextArtworkId;
      artworks := artworks[id := NewArtwork(title, description, caller.value, category)];
      nextArtworkId := id + 1;
      response := Response(HttpCreated, title);
    }

    /** `update` and `partial_update` with `perform_update`. */
    method UpdateArtwork(id: ArtworkId, title: Option<string>, description: Option<string>, category: Option<Category>)
      returns (response: Response)
      requires Valid()
      modifies this
      ensures var r := AV.UpdateArtwork(old(Snapshot()), id, title, description, category);
        response == r.response && Snapshot() == r.db
      ensures Valid()
    {
      ghost var r := AV.UpdateArtwork(Snapshot(), id, title, description, category);
      assert Database.Valid(r.db);
      if id !in artworks {
        return NotFound;
      }
      var a := AV.UpdatedArtwork(artworks[id], title, description, category);
      artworks := artworks[id := a];
      if a.status == Approved {
        notifications := notifications + [NewNotification(a.artist, AV.ApprovedMessage(a.title), "artwork_approved")];
      }
      response := Response(HttpOk, a.title);
    }

    /** `destroy`: the artwork and its likes go. */
    method DestroyArtwork(id: ArtworkId) returns (response: Response)
      requires Valid()
      modifies this
      ensures var r := AV.DestroyArtwork(old(Snapshot()), id);
        response == r.response && Snapshot() == r.db
      ensures Valid()
    {
      ghost var r := AV.DestroyArtwork(Snapshot(), id);
      assert Database.Valid(r.db);
      if id !in artworks {
        return NotFound;
      }
      artworks := artworks - {id};
      likes := set l | l in likes && l.artwork != id;
      response := Response(HttpNoContent, "");
    }

    /** `approve`. */
    method Approve(id: ArtworkId) returns (response: Response)
      requires Valid()
      modifies this
      ensures var r := AV.ApproveArtwork(old(Snapshot()), id);
        response == r.response && Snapshot() == r.db
      ensures Valid()
    {
      ghost var r := AV.ApproveArtwork(Snapshot(), id);
      assert Database.Valid(r.db);
      if id !in artworks {
        return NotFound;
      }
      var a := artworks[id];
      artworks := artworks[id := a.(status := Approved)];
      notifications := notifications + [NewNotification(a.artist, AV.ApprovedMessage(a.title), "artwork_approved")];
      response := Response(HttpOk, "Artwork approved successfully.");
    }

    /** `reject`; `feedback` is `None` when the request carries none. */
    method Reject(id: ArtworkId, feedback: Option<string>) returns (response: Response)
      requires Valid()
      modifies this
      ensures var r := AV.RejectArtwork(old(Snapshot()), id, feedback);
        response == r.response && Snapshot() == r.db
      ensures Valid()
    {
      ghost var r := AV.RejectArtwork(Snapshot(), id, feedback);
      assert Database.Valid(r.db);
      if id !in artworks {
        return NotFound;
      }
      var text := AV.FeedbackOf(feedback);
      StripEmptyIffBlank(text);
      if Strip(text) == [] {
        return Response(HttpBadRequest, "Feedback is required when rejecting an artwork.");
      }
      var a := artworks[id];
      artworks := artworks[id := a.(status := Rejected, feedback := Some(text))];
      notifications := notifications + [NewNotification(a.artist, AV.RejectedMessage(a.title, text), "artwork_rejected")];
      response := Response(HttpOk, "Artwork rejected successfully.");
      assert Snapshot() == r.db;
    }

    /** `like_artwork`. */
    method AddLike(caller: UserId, id: ArtworkId) returns (response: Response)
      requires Valid() && caller in users
      modifies this
      ensures var r := AV.LikeArtwork(old(Snapshot()), caller, id);
        response == r.response && Snapshot() == r.db
      ensures Valid()
    {
      ghost var r := AV.LikeArtwork(Snapshot(), caller, id);
      assert Database.Valid(r.db);
      if id !in artworks {
        return Response(HttpServerError, "Server error");
      }
      if Like(caller, id) in likes {
        return Response(HttpBadRequest, "Already liked!");
      }
      likes := likes + {Like(caller, id)};
      response := Response(HttpCreated, "Artwork liked!");
    }

    /** `unlike_artwork`. */
    method RemoveLike(caller: UserId, id: ArtworkId) returns (response: Response)
      requires Valid()
      modifies this
      ensures var r := AV.UnlikeArtwork(old(Snapshot()), caller, id);
        response == r.response && Snapshot() == r.db
      ensures Valid()
    {
      ghost var r := AV.UnlikeArtwork(Snapshot(), caller, id);
      assert Database.Valid(r.db);
      if Like(caller, id) !in likes {
        return Response(HttpNotFound, "Like not found");
      }
      likes := likes - {Like(caller, id)};
      response := Response(HttpOk, "Like removed!");
    }

    // -------------------------------------------------------------------------
    // users
    // -------------------------------------------------------------------------

    /** `CustomAuthToken.post`; `authenticated` is the backend's verdict. */
    method Login(email: Option<string>, password: Option<string>, authenticated: Option<UserId>, now: int)
      returns (response: Response)
      requires Valid() && (authenticated.Some? ==> authenticated.value in users)
      modifies this
      ensures var r := UV.TokenLogin(old(Snapshot()), email, password, authenticated, now);
        response == r.response && Snapshot() == r.db
      ensures Valid()
    {
      ghost var r := UV.TokenLogin(Snapshot(), email, password, authenticated, now);
      assert Database.Valid(r.db);
      if !Present(email) || !Present(password) {
        return Response(HttpBadRequest, "Email and password are required.");
      }
      if authenticated.None? {
        return Response(HttpUnauthorized, "Invalid credentials. Please try again.");
      }
      var user := users[authenticated.value];
      if !user.isActive {
        return Response(HttpForbidden, "Your account is pending approval. Please contact an admin.");
      }
      logs := logs + [ActivityLog(authenticated.value, LogAction.Login, None, now)];
      response := Response(HttpOk, RoleName(user.role));
    }

    /** ActivateUserView (`active` true) and DeactivateUserView (`active` false). */
    method SetActive(caller: UserId, target: UserId, active: bool) returns (response: Response)
      requires Valid() && caller in users
      modifies this
      ensures var r := UV.SetActive(old(Snapshot()), caller, target, active);
        response == r.response && Snapshot() == r.db
      ensures Valid()
    {
      ghost var r := UV.SetActive(Snapshot(), caller, target, active);
      assert Database.Valid(r.db);
      if target !in users {
        return Response(HttpNotFound, "User not found.");
      }
      var u := users[target];
      if !UV.MayToggle(users[caller].role, u.role) {
        return Response(HttpForbidden, if active then "You cannot activate admins or managers" else "You cannot deactivate admins or managers");
      }
      users := users[target := u.(isActive := active)];
      response := Response(HttpOk, if active then "User activated successfully." else "User deactivated successfully.");
    }

    /** UpdateUserRoleView. */
    method UpdateRole(caller: UserId, target: UserId, role: Option<string>) returns (response: Response)
      requires Valid() && caller in users
      modifies this
      ensures var r := UV.UpdateRole(old(Snapshot()), caller, target, role);
        response == r.response && Snapshot() == r.db
      ensures Valid()
    {
      ghost var r := UV.UpdateRole(Snapshot(), caller, target, role);
      assert Database.Valid(r.db);
      if target !in users {
        return Response(HttpNotFound, "User not found");
      }
      if role.None? || ParseDeclaredRole(role.value).None? {
        return Response(HttpBadRequest, "Invalid role");
      }
      if role.value == "manager" && users[caller].role != Admin {
        return Response(HttpForbidden, "Only admins can assign the manager role");
      }
      users := users[target := users[target].(role := ParseDeclaredRole(role.value).value)];
      response := Response(HttpOk, role.value);
    }

    /** UserPreferencesView.patch: `dict.update` on the caller's preferences. */
    method PatchPreferences(caller: UserId, patch: map<string, JsonText>) returns (response: Response)
      requires Valid() && caller in users
      modifies this
      ensures var r := UV.PatchPreferences(old(Snapshot()), caller, patch);
        response == r.response && Snapshot() == r.db
      ensures Valid()
    {
      ghost var r := UV.PatchPreferences(Snapshot(), caller, patch);
      assert Database.Valid(r.db);
      var u := users[caller];
      users := users[caller := u.(preferences := u.preferences + patch)];
      response := Response(HttpOk, "");
    }

    /** RegisterView; `wellFormed` is the serializer's verdict on the rest of
        the request. */
    method RegisterUser(email: string, username: Option<string>, formEncoded: bool, wellFormed: bool) returns (response: Response)
      requires Valid()
      modifies this
      ensures var r := UV.RegisterUser(old(Snapshot()), email, username, formEncoded, wellFormed);
        response == r.response && Snapshot() == r.db
      ensures Valid()
    {
      if formEncoded {
        return Response(HttpServerError, "Server error");
      }
      if !wellFormed || IsBlank(email) || UV.EmailTaken(users, Strip(email))
         || (username.Some? && (IsBlank(username.value) || UV.UsernameTaken(users, Strip(username.value)))) {
        return Response(HttpBadRequest, "Invalid registration");
      }
      if UV.UsernameTaken(users, UV.StoredUsername(username)) {
        return Response(HttpServerError, "Server error");
      }
      response := AddAccount(email, username);
    }

    /** The write of a registration that passed validation: one inactive
        member, with the trimmed e-mail and username, under the next free id. */
    method AddAccount(email: string, username: Option<string>) returns (response: Response)
      requires Valid() && !IsBlank(email) && !UV.EmailTaken(users, Strip(email))
      requires !UV.UsernameTaken(users, UV.StoredUsername(username))
      requires username.Some? ==> !IsBlank(username.value)
      modifies this
      ensures var r := UV.RegisterUser(old(Snapshot()), email, username, false, true);
        response == r.response && Snapshot() == r.db
      ensures Valid()
    {
      ghost var r := UV.RegisterUser(Snapshot(), email, username, false, true);
      assert Database.Valid(r.db);
      var id := nextUserId;
      users := users[id := User(Strip(email), UV.StoredUsername(username), Member, false, map[])];
      nextUserId := id + 1;
      response := Response(HttpCreated, "Registration successful. Your account is pending approval.");
    }

    // -------------------------------------------------------------------------
    // projects
    // -------------------------------------------------------------------------

    /** `update` and `partial_update` with `perform_update`: the project is
        saved, then every member new to it receives one "project_invite"
        notification. A request carrying `progress` fails (500) between the
        two, so the project is saved and nobody is invited. */
    method UpdateProject(id: ProjectId, patch: PV.ProjectPatch) returns (response: Response)
      requires Valid()
      modifies this
      ensures var r := PV.UpdateProject(old(Snapshot()), id, patch);
        && response == r.response
        && (response.code != HttpOk && response.code != HttpServerError ==> Snapshot() == old(Snapshot()))
        && (response.code == HttpServerError ==> Snapshot() == r.db)
        && (response.code == HttpOk ==>
              var p := r.db.workshop.projects[id];
              && Snapshot() == r.db.(notifications := notifications)
              && NotifiedAll(old(notifications), notifications,
                             PV.Invitees(old(projects)[id].members, p.members), PV.InviteMessage(p.title), "project_invite"))
      ensures Valid()
    {
      ghost var r := PV.UpdateProject(Snapshot(), id, patch);
      assert Database.Valid(r.db);
      if id !in projects {
        return NotFound;
      }
      if patch.members.Some? && !(patch.members.value <= users.Keys) {
        return Response(HttpBadRequest, "Invalid members");
      }
      var oldMembers := projects[id].members;
      var p := PV.UpdatedProject(projects[id], patch);
      projects := projects[id := p];
      assert Snapshot() == r.db;
      if patch.progress.Some? {
        return Response(HttpServerError, "Server error");
      }
      assert p.members <= users.Keys;
      NotifyEach(PV.Invitees(oldMembers, p.members), PV.InviteMessage(p.title), "project_invite");
      response := Response(HttpOk, p.title);
    }

    /** `destroy`. */
    method DestroyProject(caller: UserId, id: ProjectId) returns (response: Response)
      requires Valid()
      modifies this
      ensures var r := PV.DestroyProject(old(Snapshot()), caller, id);
        response == r.response && Snapshot() == r.db
      ensures Valid()
    {
      ghost var r := PV.DestroyProject(Snapshot(), caller, id);
      assert Database.Valid(r.db);
      if id !in projects {
        return NotFound;
      }
      if projects[id].creator != caller {
        return Response(HttpServerError, "Server error");
      }
      DeleteProjects({id});
      response := Response(HttpNoContent, "");
    }

    /** Deletes the given projects and, by cascade, their progress updates. */
    method DeleteProjects(gone: set<ProjectId>)
      modifies this
      ensures Snapshot() == old(Snapshot()).(workshop := PV.WithoutProjects(old(Snapshot()).workshop, gone))
    {
      projects := map id | id in projects && id !in gone :: projects[id];
      progress := map id | id in progress && progress[id].project !in gone :: progress[id];
    }

    /** ProjectProgressView.post. */
    method PostProgress(id: ProjectId, description: Option<string>, now: int) returns (response: Response)
      requires Valid()
      modifies this
      ensures var r := PV.PostProgress(old(Snapshot()), id, description, now);
        response == r.response && Snapshot() == r.db
      ensures Valid()
    {
      ghost var r := PV.PostProgress(Snapshot(), id, description, now);
      assert Database.Valid(r.db);
      if id !in projects {
        return Response(HttpNotFound, "Project not found");
      }
      if description.None? || IsBlank(description.value) {
        return Response(HttpBadRequest, "Invalid progress");
      }
      var row := Progress(id, Strip(description.value), now);
      progress := progress[nextProgressId := row];
      nextProgressId := nextProgressId + 1;
      response := Response(HttpCreated, row.description);
      assert Snapshot() == r.db;
    }

    /** CompleteProjectView.post. */
    method CompleteProject(caller: UserId, id: ProjectId, now: int) returns (response: Response)
      requires Valid()
      modifies this
      ensures var r := PV.CompleteProject(old(Snapshot()), caller, id, now);
        response == r.response && Snapshot() == r.db
      ensures Valid()
    {
      ghost var r := PV.CompleteProject(Snapshot(), caller, id, now);
      assert Database.Valid(r.db);
      if id !in projects {
        return Response(HttpNotFound, "Project not found");
      }
      var p := projects[id];
      if p.creator != caller {
        return Response(HttpForbidden, "You are not authorized to complete this project");
      }
      projects := projects[id := p.(isCompleted := true, endDate := Some(DateOf(now)))];
      response := Response(HttpOk, "Project marked as completed!");
    }

    /** BulkDeleteProjectsView.post. */
    method BulkDelete(caller: UserId, ids: seq<ProjectId>) returns (response: Response)
      requires Valid()
      modifies this
      ensures var r := PV.BulkDelete(old(Snapshot()), caller, ids);
        response == r.response && Snapshot() == r.db
      ensures Valid()
    {
      ghost var r := PV.BulkDelete(Snapshot(), caller, ids);
      assert Database.Valid(r.db);
      if ids == [] {
        return Response(HttpBadRequest, "No project IDs provided");
      }
      var gone := PV.OwnedAmong(projects, caller, ids);
      var count := |gone|;
      DeleteProjects(gone);
      response := Response(HttpOk, Decimal(count) + " projects deleted successfully");
    }

    // -------------------------------------------------------------------------
    // notifications
    // -------------------------------------------------------------------------

    /** `mark_as_read`. */
    method MarkAsRead(caller: UserId, id: NotificationId) returns (response: Response)
      requires Valid()
      modifies this
      ensures var r := NV.MarkAsRead(old(Snapshot()), caller, id);
        response == r.response && Snapshot() == r.db
      ensures Valid()
    {
      ghost var r := NV.MarkAsRead(Snapshot(), caller, id);
      assert Database.Valid(r.db);
      if id < |notifications| && notifications[id].recipient == caller {
        notifications := notifications[id := notifications[id].(read := true)];
        response := Response(HttpOk, "Notification marked as read.");
      } else {
        response := NotFound;
      }
    }

    /** `mark_all_as_read`: the read flag of each of the caller's
        notifications is set. */
    method MarkAllAsRead(caller: UserId) returns (response: Response)
      requires Valid()
      modifies this
      ensures var r := NV.MarkAllAsRead(old(Snapshot()), caller);
        response == r.response && Snapshot() == r.db
      ensures Valid()
    {
      ghost var r := NV.MarkAllAsRead(Snapshot(), caller);
      assert Database.Valid(r.db);
      ghost var before := notifications;
      var i := 0;
      while i < |notifications|
        invariant |notifications| == |before| && 0 <= i <= |before|
        invariant forall k :: 0 <= k < i ==> notifications[k] == NV.AllReadFor(before, caller)[k]
        invariant forall k :: i <= k < |before| ==> notifications[k] == before[k]
        invariant Snapshot() == old(Snapshot()).(notifications := notifications)
      {
        if notifications[i].recipient == caller {
          notifications := notifications[i := notifications[i].(read := true)];
        }
        i := i + 1;
      }
      assert notifications == NV.AllReadFor(before, caller);
      response := Response(HttpOk, "All notifications marked as read.");
    }

    /** The unsaved notifications `send_bulk` builds before inserting them in
        one batch: one per user of `recipients`, in whatever order the set
        yields them. */
    method BuildBatch(recipients: set<UserId>, message: string, kind: string) returns (batch: seq<Notification>)
      ensures Fanout(batch, recipients, message, kind)
    {
      var todo := recipients;
      batch := [];
      FanoutEmpty(message, kind);
      while todo != {}
        invariant todo <= recipients
        invariant Fanout(batch, recipients - todo, message, kind)
        decreases |todo|
      {
        var u :| u in todo;
        FanoutStep(batch, recipients - todo, u, message, kind);
        assert (recipients - todo) + {u} == recipients - (todo - {u});
        batch := batch + [NewNotification(u, message, kind)];
        todo := todo - {u};
      }
    }

    /** `send_bulk`: the notifications are built in a list, one per user of
        the role, and inserted together. */
    method SendBulk(role: Option<string>, message: Option<string>, kind: Option<string>) returns (response: Response)
      requires Valid()
      modifies this
      ensures NV.SendBulkRefusal(role, message).Some? ==>
        response == NV.SendBulkRefusal(role, message).value && Snapshot() == old(Snapshot())
      ensures NV.SendBulkRefusal(role, message).None? ==>
        && response == Response(HttpOk, "Notifications sent successfully")
        && Snapshot() == old(Snapshot()).(notifications := notifications)
        && NotifiedAll(old(notifications), notifications, NV.BulkRecipients(old(users), role.value),
                       message.value, NV.KindOrDefault(kind))
      ensures Valid()
    {
      var refusal := NV.SendBulkRefusal(role, message);
      if refusal.Some? {
        return refusal.value;
      }
      var recipients := NV.BulkRecipients(users, role.value);
      var batch := BuildBatch(recipients, message.value, NV.KindOrDefault(kind));
      FanoutOncePerRecipient(batch, recipients, message.value, NV.KindOrDefault(kind));
      NotifyKeepsValid(Snapshot(), batch);
      notifications := notifications + batch;
      assert notifications[|old(notifications)|..] == batch;
      response := Response(HttpOk, "Notifications sent successfully");
    }
  }
}
