/** The rules of events/views.py, EventViewSet: its permission table, the
    guard chains of `register`, `unregister` and `mark_attended`, and the
    writes each of them makes. Every endpoint is a function from the database
    before the request to the response and the database after it. */
module EventsViews {
  import opened Common
  import opened UsersModels
  import opened EventsModels
  import opened NotificationsModels
  import opened Database

  // ---------------------------------------------------------------------------
  // Permissions
  // ---------------------------------------------------------------------------

  const EventAdminActions: set<string> := {"create", "update", "destroy", "registrations"}
  const EventSignedInActions: set<string> := {"register", "unregister", "my_events", "my_registrations"}

  /** `get_permissions`: admin for four actions, authentication for four
      others, and anybody for every other action, `partial_update` and
      `mark_attended` among them. */
  function EventPermissions(action: string): (r: seq<Permission>)
    ensures r == [AdminUser] <==> action in EventAdminActions
    ensures r == [IsAuthenticated] <==> action in EventSignedInActions
    ensures r == [AllowAny] <==> action !in EventAdminActions && action !in EventSignedInActions
  {
    if action in EventAdminActions then [AdminUser]
    else if action in EventSignedInActions then [IsAuthenticated]
    else [AllowAny]
  }

  /** The classes the `@action` decorators of EventViewSet declare; `None` for
      an action without a declaration. */
  function EventDeclaredPermissions(action: string): Option<seq<Permission>>
  {
    if action in {"my_events", "register", "registered", "unregister", "my_registrations"} then Some([IsAuthenticated])
    else if action in {"registrations", "mark_attended"} then Some([AdminUser])
    else if action == "past" then Some([AllowAny])
    else None
  }

  /** The override never consults the declarations: exactly two decorated
      actions end up with classes other than the ones they declare, and both
      end up open to anybody. */
  lemma EventOverrideIgnoresDeclarations(action: string)
    requires EventDeclaredPermissions(action).Some?
    ensures EventPermissions(action) != EventDeclaredPermissions(action).value
        <==> action == "mark_attended" || action == "registered"
    ensures action == "mark_attended" || action == "registered" ==> EventPermissions(action) == [AllowAny]
  {
  }

  // ---------------------------------------------------------------------------
  // Registration guards
  // ---------------------------------------------------------------------------

  /** A deadline is set and the request instant is after it. */
  predicate DeadlinePassed(e: Event, now: int)
  {
    e.registrationDeadline.Some? && now > e.registrationDeadline.value
  }

  /** The event's day is today or earlier: same-day events count as past. */
  predicate HasStarted(e: Event, now: int)
  {
    e.date <= DateOf(now)
  }

  /** Capacity is enforced only when it is set and non-zero, against the
      attendee set rather than the registration rows. */
  predicate IsFull(e: Event)
  {
    e.capacity.Some? && e.capacity.value != 0 && |e.attendees| >= e.capacity.value
  }

  /** No capacity and capacity 0 both mean no limit. */
  lemma UnlimitedWithoutCapacity(e: Event)
    requires e.capacity.None? || e.capacity == Some(0)
    ensures !IsFull(e)
  {
  }

  /** The registration rows of one user for one event. */
  function RegistrationsOf(c: Calendar, user: UserId, event: EventId): set<RegistrationId>
  {
    set id | id in c.registrations && c.registrations[id].user == user && c.registrations[id].event == event
  }

  predicate IsRegistered(c: Calendar, user: UserId, event: EventId)
  {
    RegistrationsOf(c, user, event) != {}
  }

  /** The four checks of `register`, in the order the view makes them. */
  function RegisterRefusal(e: Event, registered: bool, now: int): (r: Option<Response>)
    ensures r.None? <==> !DeadlinePassed(e, now) && !HasStarted(e, now) && !registered && !IsFull(e)
    ensures r.Some? ==> r.value.code == HttpBadRequest
    ensures DeadlinePassed(e, now) ==> r == Some(Response(HttpBadRequest, "Registration period has ended"))
    ensures !DeadlinePassed(e, now) && HasStarted(e, now) ==> r == Some(Response(HttpBadRequest, "Cannot register for past events"))
    ensures !DeadlinePassed(e, now) && !HasStarted(e, now) && registered
        ==> r == Some(Response(HttpBadRequest, "Already registered for this event"))
  {
    if DeadlinePassed(e, now) then Some(Response(HttpBadRequest, "Registration period has ended"))
    else if HasStarted(e, now) then Some(Response(HttpBadRequest, "Cannot register for past events"))
    else if registered then Some(Response(HttpBadRequest, "Already registered for this event"))
    else if IsFull(e) then Some(Response(HttpBadRequest, "Event has reached maximum capacity"))
    else None
  }

  function RegisteredMessage(title: string): string { "You've successfully registered for " + title }
  function UnregisteredMessage(title: string): string { "You've unregistered from " + title }
  function AttendanceMessage(title: string): string { "Your attendance for " + title + " has been confirmed" }

  // ---------------------------------------------------------------------------
  // register
  // ---------------------------------------------------------------------------

  /** `register`: after the guard chain, one registration row, the user among
      the attendees, and one "event_registration" notification to the user;
      a refusal changes nothing. */
  ghost function RegisterForEvent(db: Db, eventId: EventId, user: UserId, now: int): (r: Outcome)
    ensures eventId !in db.calendar.events ==> r == Refuse(db, HttpNotFound, NotFound.message)
    ensures r.response.code == HttpCreated <==>
      eventId in db.calendar.events
      && RegisterRefusal(db.calendar.events[eventId], IsRegistered(db.calendar, user, eventId), now).None?
    ensures r.response.code != HttpCreated ==> r.db == db
    ensures eventId in db.calendar.events && r.response.code != HttpCreated ==>
      Some(r.response) == RegisterRefusal(db.calendar.events[eventId], IsRegistered(db.calendar, user, eventId), now)
    ensures r.response.code == HttpCreated ==>
      var e := db.calendar.events[eventId];
      var id := db.calendar.nextRegistrationId;
      r.db == db.(calendar := db.calendar.(registrations := db.calendar.registrations[id := Registration(user, eventId, now)],
                                           nextRegistrationId := id + 1,
                                           events := db.calendar.events[eventId := e.(attendees := e.attendees + {user})]),
                  notifications := db.notifications + [NewNotification(user, RegisteredMessage(e.title), "event_registration")])
    ensures Valid(db) && user in db.accounts.users ==> Valid(r.db)
  {
    if eventId !in db.calendar.events then Refuse(db, HttpNotFound, NotFound.message)
    else
      var e := db.calendar.events[eventId];
      var refusal := RegisterRefusal(e, IsRegistered(db.calendar, user, eventId), now);
      if refusal.Some? then Outcome(refusal.value, db)
      else
        var id := db.calendar.nextRegistrationId;
        var calendar := db.calendar.(
          registrations := db.calendar.registrations[id := Registration(user, eventId, now)],
          nextRegistrationId := id + 1,
          events := db.calendar.events[eventId := e.(attendees := e.attendees + {user})]);
        Outcome(Response(HttpCreated, "Successfully registered!"),
                db.(calendar := calendar,
                    notifications := db.notifications + [NewNotification(user, RegisteredMessage(e.title), "event_registration")]))
  }

  /** A successful registration adds exactly one row, and afterwards the user
      holds exactly that one row for the event. */
  lemma RegisterAddsExactlyOneRow(db: Db, eventId: EventId, user: UserId, now: int)
    requires db.calendar.nextRegistrationId !in db.calendar.registrations
    requires RegisterForEvent(db, eventId, user, now).response.code == HttpCreated
    ensures var after := RegisterForEvent(db, eventId, user, now).db;
      && |after.calendar.registrations| == |db.calendar.registrations| + 1
      && RegistrationsOf(after.calendar, user, eventId) == {db.calendar.nextRegistrationId}
      && user in after.calendar.events[eventId].attendees
      && |after.notifications| == |db.notifications| + 1
  {
    var after := RegisterForEvent(db, eventId, user, now).db;
    var id := db.calendar.nextRegistrationId;
    assert RegistrationsOf(db.calendar, user, eventId) == {};
    forall x | x in RegistrationsOf(after.calendar, user, eventId)
      ensures x == id
    {
      assert x != id ==> x in RegistrationsOf(db.calendar, user, eventId);
    }
  }

  /** Registering twice at the same instant: the second request is refused as
      a duplicate (or by a check that comes earlier) and changes nothing. */
  lemma SecondRegistrationRefused(db: Db, eventId: EventId, user: UserId, now: int)
    requires RegisterForEvent(db, eventId, user, now).response.code == HttpCreated
    ensures var first := RegisterForEvent(db, eventId, user, now).db;
      var second := RegisterForEvent(first, eventId, user, now);
      && second.response == Response(HttpBadRequest, "Already registered for this event")
      && second.db == first
  {
    var first := RegisterForEvent(db, eventId, user, now).db;
    assert db.calendar.nextRegistrationId in RegistrationsOf(first.calendar, user, eventId);
  }

  // ---------------------------------------------------------------------------
  // unregister
  // ---------------------------------------------------------------------------

  /** `unregister`: the registration is looked up before the date check; a
      missing row (or several rows) ends in the generic failure handler. On
      success the row goes, the user leaves the attendees and receives one
      "event_unregistration" notification. */
  ghost function UnregisterFromEvent(db: Db, eventId: EventId, user: UserId, now: int): (r: Outcome)
    ensures eventId !in db.calendar.events ==> r == Refuse(db, HttpNotFound, NotFound.message)
    ensures eventId in db.calendar.events && |RegistrationsOf(db.calendar, user, eventId)| != 1
        ==> r == Refuse(db, HttpServerError, "Unregistration failed")
    ensures r.response.message != "Not registered for this event"
    ensures r.response.code == HttpOk <==>
      eventId in db.calendar.events && |RegistrationsOf(db.calendar, user, eventId)| == 1
      && !HasStarted(db.calendar.events[eventId], now)
    ensures eventId in db.calendar.events && |RegistrationsOf(db.calendar, user, eventId)| == 1
        && HasStarted(db.calendar.events[eventId], now)
        ==> r == Refuse(db, HttpBadRequest, "Cannot unregister from past events")
    ensures r.response.code != HttpOk ==> r.db == db
    ensures r.response.code == HttpOk ==>
      var e := db.calendar.events[eventId];
      && r.db.accounts == db.accounts && r.db.gallery == db.gallery && r.db.workshop == db.workshop
      && r.db.calendar.nextEventId == db.calendar.nextEventId
      && r.db.calendar.nextRegistrationId == db.calendar.nextRegistrationId
      && r.db.calendar.registrations == db.calendar.registrations - RegistrationsOf(db.calendar, user, eventId)
      && r.db.calendar.events == db.calendar.events[eventId := e.(attendees := e.attendees - {user})]
      && r.db.notifications == db.notifications + [NewNotification(user, UnregisteredMessage(e.title), "event_unregistration")]
    ensures Valid(db) ==> Valid(r.db)
  {
    if eventId !in db.calendar.events then Refuse(db, HttpNotFound, NotFound.message)
    else
      var e := db.calendar.events[eventId];
      var rows := RegistrationsOf(db.calendar, user, eventId);
      if |rows| != 1 then Refuse(db, HttpServerError, "Unregistration failed")
      else if HasStarted(e, now) then Refuse(db, HttpBadRequest, "Cannot unregister from past events")
      else
        var calendar := db.calendar.(
          registrations := db.calendar.registrations - rows,
          events := db.calendar.events[eventId := e.(attendees := e.attendees - {user})]);
        Outcome(Response(HttpOk, "Successfully unregistered"),
                db.(calendar := calendar,
                    notifications := db.notifications + [NewNotification(user, UnregisteredMessage(e.title), "event_unregistration")]))
  }

  /** A successful unregistration removes exactly one row and leaves the user
      with no registration for the event and outside its attendees. */
  lemma UnregisterRemovesExactlyOneRow(db: Db, eventId: EventId, user: UserId, now: int)
    requires UnregisterFromEvent(db, eventId, user, now).response.code == HttpOk
    ensures var after := UnregisterFromEvent(db, eventId, user, now).db;
      && |after.calendar.registrations| == |db.calendar.registrations| - 1
      && !IsRegistered(after.calendar, user, eventId)
      && user !in after.calendar.events[eventId].attendees
  {
    var after := UnregisterFromEvent(db, eventId, user, now).db;
    var rows := RegistrationsOf(db.calendar, user, eventId);
    var id :| id in rows;
    assert rows == {id} by {
      assert |rows - {id}| == 0;
    }
    assert after.calendar.registrations.Keys == db.calendar.registrations.Keys - {id};
    assert RegistrationsOf(after.calendar, user, eventId) == {};
  }

  /** `unregister` undoes `register`: a user who was neither registered nor
      attending gets the registration table and the events back as they
      were, with two notifications more. */
  lemma UnregisterUndoesRegister(db: Db, eventId: EventId, user: UserId, now: int)
    requires db.calendar.nextRegistrationId !in db.calendar.registrations
    requires RegisterForEvent(db, eventId, user, now).response.code == HttpCreated
    requires user !in db.calendar.events[eventId].attendees
    ensures var first := RegisterForEvent(db, eventId, user, now).db;
      var second := UnregisterFromEvent(first, eventId, user, now);
      && second.response.code == HttpOk
      && second.db.calendar.registrations == db.calendar.registrations
      && second.db.calendar.events == db.calendar.events
      && |second.db.notifications| == |db.notifications| + 2
  {
    var first := RegisterForEvent(db, eventId, user, now).db;
    var id := db.calendar.nextRegistrationId;
    var e := db.calendar.events[eventId];
    assert RegistrationsOf(first.calendar, user, eventId) == {id} by {
      RegisterAddsExactlyOneRow(db, eventId, user, now);
    }
    assert first.calendar.events == db.calendar.events[eventId := e.(attendees := e.attendees + {user})];
    assert first.calendar.registrations - {id} == db.calendar.registrations;
    UnregisterSingleRow(first, eventId, user, now, id);
    assert (e.attendees + {user}) - {user} == e.attendees;
  }

  /** The success branch of `unregister` when the user holds exactly one row. */
  lemma UnregisterSingleRow(db: Db, eventId: EventId, user: UserId, now: int, id: RegistrationId)
    requires eventId in db.calendar.events && !HasStarted(db.calendar.events[eventId], now)
    requires RegistrationsOf(db.calendar, user, eventId) == {id}
    ensures var r := UnregisterFromEvent(db, eventId, user, now);
      var e := db.calendar.events[eventId];
      && r.response.code == HttpOk
      && r.db.calendar.registrations == db.calendar.registrations - {id}
      && r.db.calendar.events == db.calendar.events[eventId := e.(attendees := e.attendees - {user})]
      && |r.db.notifications| == |db.notifications| + 1
  {
  }

  // ---------------------------------------------------------------------------
  // mark_attended
  // ---------------------------------------------------------------------------

  /** The registration rows of one event whose user has the given id. */
  function RowsForUserId(c: Calendar, eventId: EventId, userId: int): set<RegistrationId>
  {
    set id | id in c.registrations && c.registrations[id].event == eventId && c.registrations[id].user == userId
  }

  /** `mark_attended`. The view parses only form and multipart bodies, so
      `user_id` is the text the request carries: a missing or empty one is
      400, while "0" is truthy and goes on to the lookup. Text that is not a
      number makes the lookup raise a ValueError nobody catches (500); a
      number with no row is 404, with several rows 500. On success one
      "event_attendance" notification goes to the registered user and the
      reply echoes the id as sent. The flag the view sets is not a column of
      EventRegistration, so the registration rows never change. */
  ghost function MarkAttended(db: Db, eventId: EventId, userId: Option<string>): (r: Outcome)
    ensures eventId !in db.calendar.events ==> r == Refuse(db, HttpNotFound, NotFound.message)
    ensures eventId in db.calendar.events && !Present(userId)
        ==> r == Refuse(db, HttpBadRequest, "user_id is required")
    ensures eventId in db.calendar.events && Present(userId) && ParseInt(userId.value).None?
        ==> r == Refuse(db, HttpServerError, "Server error")
    ensures eventId in db.calendar.events && Present(userId) && ParseInt(userId.value).Some?
        && RowsForUserId(db.calendar, eventId, ParseInt(userId.value).value) == {}
        ==> r == Refuse(db, HttpNotFound, "Registration not found")
    ensures eventId in db.calendar.events && Present(userId) && ParseInt(userId.value).Some?
        && |RowsForUserId(db.calendar, eventId, ParseInt(userId.value).value)| > 1
        ==> r == Refuse(db, HttpServerError, "Server error")
    ensures r.response.code == HttpOk <==>
      eventId in db.calendar.events && Present(userId) && ParseInt(userId.value).Some?
      && |RowsForUserId(db.calendar, eventId, ParseInt(userId.value).value)| == 1
    ensures r.db.calendar == db.calendar && r.db.accounts == db.accounts
    ensures r.response.code != HttpOk ==> r.db == db
    ensures r.response.code == HttpOk ==>
      var n := ParseInt(userId.value).value;
      && n >= 0
      && r.response.message == "Attendance marked for user " + userId.value
      && r.db == db.(notifications := db.notifications +
           [NewNotification(n, AttendanceMessage(db.calendar.events[eventId].title), "event_attendance")])
    ensures Valid(db) ==> Valid(r.db)
  {
    if eventId !in db.calendar.events then Refuse(db, HttpNotFound, NotFound.message)
    else if !Present(userId) then Refuse(db, HttpBadRequest, "user_id is required")
    else if ParseInt(userId.value).None? then Refuse(db, HttpServerError, "Server error")
    else
      var rows := RowsForUserId(db.calendar, eventId, ParseInt(userId.value).value);
      if rows == {} then Refuse(db, HttpNotFound, "Registration not found")
      else if |rows| > 1 then Refuse(db, HttpServerError, "Server error")
      else
        var id :| id in rows;
        var recipient := db.calendar.registrations[id].user;
        var e := db.calendar.events[eventId];
        Outcome(Response(HttpOk, "Attendance marked for user " + userId.value),
                db.(notifications := db.notifications + [NewNotification(recipient, AttendanceMessage(e.title), "event_attendance")]))
  }

  /** "0" passes the view's `if not user_id` guard: it is looked up like any
      other id, and with nobody registered under id 0 the answer is 404. */
  lemma ZeroIdIsLookedUp(db: Db, eventId: EventId)
    requires eventId in db.calendar.events && RowsForUserId(db.calendar, eventId, 0) == {}
    ensures MarkAttended(db, eventId, Some("0")).response == Response(HttpNotFound, "Registration not found")
  {
  }

  // ---------------------------------------------------------------------------
  // create, update (its validation) and destroy
  // ---------------------------------------------------------------------------

  /** `perform_create`: the caller becomes the creator; attendee ids that name
      no user fail validation. The serializer writes every other field the
      request supplies, `is_completed` included. */
  ghost function CreateEvent(db: Db, caller: UserId, title: string, location: string, date: int,
                             attendees: set<UserId>, deadline: Option<int>, capacity: Option<nat>,
                             isCompleted: Option<bool>): (r: Outcome)
    ensures r.response.code == HttpCreated <==> attendees <= db.accounts.users.Keys
    ensures r.response.code != HttpCreated ==> r == Refuse(db, HttpBadRequest, "Invalid attendees")
    ensures r.response.code == HttpCreated ==>
      && db.calendar.nextEventId in r.db.calendar.events
      && r.db.calendar.events[db.calendar.nextEventId] == NewEvent(title, location, date, caller, attendees, deadline, capacity, isCompleted)
      && r.db.calendar.events.Keys == db.calendar.events.Keys + {db.calendar.nextEventId}
      && r.db.calendar.registrations == db.calendar.registrations
      && r.db.notifications == db.notifications && r.db.accounts == db.accounts
    ensures Valid(db) && caller in db.accounts.users ==> Valid(r.db)
  {
    if !(attendees <= db.accounts.users.Keys) then Refuse(db, HttpBadRequest, "Invalid attendees")
    else
      var id := db.calendar.nextEventId;
      var e := NewEvent(title, location, date, caller, attendees, deadline, capacity, isCompleted);
      Outcome(Response(HttpCreated, title),
              db.(calendar := db.calendar.(events := db.calendar.events[id := e], nextEventId := id + 1)))
  }

  /** The fields an update request supplies. The serializer exposes every
      column but the creator; for a nullable column, `Some(None)` clears it. */
  datatype EventPatch = EventPatch(
    title: Option<string>,
    location: Option<string>,
    date: Option<int>,
    attendees: Option<set<UserId>>,
    isCompleted: Option<bool>,
    registrationDeadline: Option<Option<int>>,
    capacity: Option<Option<nat>>)

  /** The event as an update saves it: each field the request supplies
      replaces the stored one, every other field stays. */
  function UpdatedEvent(e: Event, p: EventPatch): (u: Event)
    ensures u.title == (if p.title.Some? then p.title.value else e.title)
    ensures u.location == (if p.location.Some? then p.location.value else e.location)
    ensures u.date == (if p.date.Some? then p.date.value else e.date)
    ensures u.attendees == (if p.attendees.Some? then p.attendees.value else e.attendees)
    ensures u.isCompleted == (if p.isCompleted.Some? then p.isCompleted.value else e.isCompleted)
    ensures u.registrationDeadline == (if p.registrationDeadline.Some? then p.registrationDeadline.value else e.registrationDeadline)
    ensures u.capacity == (if p.capacity.Some? then p.capacity.value else e.capacity)
    ensures u.creator == e.creator
  {
    Event(if p.title.Some? then p.title.value else e.title,
          if p.location.Some? then p.location.value else e.location,
          if p.date.Some? then p.date.value else e.date,
          e.creator,
          if p.attendees.Some? then p.attendees.value else e.attendees,
          if p.isCompleted.Some? then p.isCompleted.value else e.isCompleted,
          if p.registrationDeadline.Some? then p.registrationDeadline.value else e.registrationDeadline,
          if p.capacity.Some? then p.capacity.value else e.capacity)
  }

  function UpdatedMessage(title: string): string { "The event '" + title + "' has been updated." }

  /** `update` and `partial_update`: a missing event is 404 and attendee ids
      that name no user fail validation; otherwise the event is saved and
      every attendee of the saved event is told of the change (see
      Backend.Store.UpdateEvent, which sends those notifications one by one).
      `partial_update` is open to anybody: for an anonymous caller (`None`)
      the save and the notifications happen, then reading the caller's
      e-mail for the log raises and the answer is 500. */
  ghost function UpdateEvent(db: Db, caller: Option<UserId>, eventId: EventId, p: EventPatch): (r: Outcome)
    ensures eventId !in db.calendar.events ==> r == Refuse(db, HttpNotFound, NotFound.message)
    ensures eventId in db.calendar.events && p.attendees.Some? && !(p.attendees.value <= db.accounts.users.Keys)
        ==> r == Refuse(db, HttpBadRequest, "Invalid attendees")
    ensures r.response.code == HttpOk || r.response.code == HttpServerError <==>
      eventId in db.calendar.events && (p.attendees.Some? ==> p.attendees.value <= db.accounts.users.Keys)
    ensures r.response.code == HttpServerError ==> caller.None?
    ensures r.response.code == HttpOk ==> caller.Some?
    ensures r.response.code == HttpOk || r.response.code == HttpServerError ==>
      r.db == db.(calendar := db.calendar.(events := db.calendar.events[eventId :=
                    UpdatedEvent(db.calendar.events[eventId], p)]))
    ensures Valid(db) ==> Valid(r.db)
  {
    if eventId !in db.calendar.events then Refuse(db, HttpNotFound, NotFound.message)
    else if p.attendees.Some? && !(p.attendees.value <= db.accounts.users.Keys) then Refuse(db, HttpBadRequest, "Invalid attendees")
    else
      var e := UpdatedEvent(db.calendar.events[eventId], p);
      var response := if caller.None? then Response(HttpServerError, "Server error") else Response(HttpOk, e.title);
      Outcome(response, db.(calendar := db.calendar.(events := db.calendar.events[eventId := e])))
  }

  /** Since `partial_update` is open to anybody, an anonymous request can
      shrink an event's capacity and move its deadline: the writes persist
      although the answer is 500. */
  lemma AnonymousUpdateStillWrites(db: Db, eventId: EventId, capacity: nat, deadline: int)
    requires eventId in db.calendar.events
    ensures var r := UpdateEvent(db, None, eventId, EventPatch(None, None, None, None, None, Some(Some(deadline)), Some(Some(capacity))));
      && r.response.code == HttpServerError
      && r.db.calendar.events[eventId].capacity == Some(capacity)
      && r.db.calendar.events[eventId].registrationDeadline == Some(deadline)
  {
  }

  /** `destroy`: the event goes, and with it (by cascade) its registrations. */
  ghost function DestroyEvent(db: Db, eventId: EventId): (r: Outcome)
    ensures eventId !in db.calendar.events ==> r == Refuse(db, HttpNotFound, NotFound.message)
    ensures eventId in db.calendar.events ==>
      && r.response.code == HttpNoContent
      && r.db.calendar.events == db.calendar.events - {eventId}
      && (forall id :: id in r.db.calendar.registrations <==>
            id in db.calendar.registrations && db.calendar.registrations[id].event != eventId)
      && (forall id :: id in r.db.calendar.registrations ==> r.db.calendar.registrations[id] == db.calendar.registrations[id])
      && r.db.accounts == db.accounts && r.db.gallery == db.gallery && r.db.workshop == db.workshop
      && r.db.notifications == db.notifications
    ensures Valid(db) ==> Valid(r.db)
  {
    if eventId !in db.calendar.events then Refuse(db, HttpNotFound, NotFound.message)
    else
      var regs := db.calendar.registrations;
      var kept := map id | id in regs && regs[id].event != eventId :: regs[id];
      var calendar := db.calendar.(events := db.calendar.events - {eventId}, registrations := kept);
      CascadeKeepsCalendarValid(db, eventId, calendar);
      Outcome(Response(HttpNoContent, ""),
              db.(calendar := calendar))
  }

  /** Dropping an event together with its registrations leaves no dangling
      foreign key behind. */
  lemma CascadeKeepsCalendarValid(db: Db, eventId: EventId, c: Calendar)
    requires c.events == db.calendar.events - {eventId}
    requires c.nextEventId == db.calendar.nextEventId && c.nextRegistrationId == db.calendar.nextRegistrationId
    requires forall id :: id in c.registrations ==>
      id in db.calendar.registrations && c.registrations[id] == db.calendar.registrations[id]
      && c.registrations[id].event != eventId
    ensures Valid(db) ==> Valid(db.(calendar := c))
  {
  }
}
