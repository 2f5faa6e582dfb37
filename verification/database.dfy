/** The database the views read and write, as one value: the tables grouped by
    the app that owns them. Row ids are handed out by per-table counters, as
    auto-increment primary keys are. `Valid` is referential integrity: every
    foreign key names an existing row. The models declare every foreign key
    with `on_delete=CASCADE`, which is what keeps this true when rows are
    deleted. */
module Database {
  import opened Common
  import opened UsersModels
  import opened ArtworkModels
  import opened EventsModels
  import opened ProjectsModels
  import opened NotificationsModels

  datatype Accounts = Accounts(users: map<UserId, User>, nextUserId: nat, logs: seq<ActivityLog>)

  datatype Gallery = Gallery(artworks: map<ArtworkId, Artwork>, nextArtworkId: nat, likes: set<Like>)

  datatype Calendar = Calendar(
    events: map<EventId, Event>,
    nextEventId: nat,
    registrations: map<RegistrationId, Registration>,
    nextRegistrationId: nat)

  datatype Workshop = Workshop(
    projects: map<ProjectId, Project>,
    nextProjectId: nat,
    progress: map<ProgressId, Progress>,
    nextProgressId: nat)

  /** Notifications are a sequence; a notification's id is its position. */
  datatype Db = Db(
    accounts: Accounts,
    gallery: Gallery,
    calendar: Calendar,
    workshop: Workshop,
    notifications: seq<Notification>)

  /** What an endpoint answers, together with the database after the request. */
  datatype Outcome = Outcome(response: Response, db: Db)

  /** A request that is refused changes nothing. */
  function Refuse(db: Db, code: nat, message: string): (r: Outcome)
    ensures r.db == db && r.response.code == code
  {
    Outcome(Response(code, message), db)
  }

  ghost predicate AccountsValid(a: Accounts)
  {
    && (forall id :: id in a.users ==> id < a.nextUserId)
    && (forall x, y :: x in a.users && y in a.users && a.users[x].email == a.users[y].email ==> x == y)
    && (forall i :: 0 <= i < |a.logs| ==> a.logs[i].user in a.users)
  }

  ghost predicate GalleryValid(g: Gallery, users: set<UserId>)
  {
    && (forall id :: id in g.artworks ==> id < g.nextArtworkId && g.artworks[id].artist in users)
    && (forall l :: l in g.likes ==> l.user in users && l.artwork in g.artworks)
  }

  ghost predicate CalendarValid(c: Calendar, users: set<UserId>)
  {
    && (forall id :: id in c.events ==> id < c.nextEventId && c.events[id].creator in users && c.events[id].attendees <= users)
    && (forall id :: id in c.registrations ==>
          id < c.nextRegistrationId && c.registrations[id].user in users && c.registrations[id].event in c.events)
  }

  ghost predicate WorkshopValid(w: Workshop, users: set<UserId>)
  {
    && (forall id :: id in w.projects ==> id < w.nextProjectId && w.projects[id].creator in users && w.projects[id].members <= users)
    && (forall id :: id in w.progress ==> id < w.nextProgressId && w.progress[id].project in w.projects)
  }

  ghost predicate Valid(db: Db)
  {
    var users := db.accounts.users.Keys;
    && AccountsValid(db.accounts)
    && GalleryValid(db.gallery, users)
    && CalendarValid(db.calendar, users)
    && WorkshopValid(db.workshop, users)
    && (forall i :: 0 <= i < |db.notifications| ==> db.notifications[i].recipient in users)
  }

  /** The database before any request. */
  function EmptyDb(): (db: Db)
    ensures Valid(db)
  {
    Db(Accounts(map[], 1, []), Gallery(map[], 1, {}), Calendar(map[], 1, map[], 1),
       Workshop(map[], 1, map[], 1), [])
  }

  /** Adding notifications for existing users keeps the notification table valid. */
  lemma NotifyKeepsValid(db: Db, added: seq<Notification>)
    requires Valid(db)
    requires forall i :: 0 <= i < |added| ==> added[i].recipient in db.accounts.users
    ensures Valid(db.(notifications := db.notifications + added))
  {
  }
}
