/** The entities of events/models.py: an Event with its date, optional
    registration deadline, optional capacity and attendee set, and the
    EventRegistration rows, which are kept apart from the attendee set. */
module EventsModels {
  import opened Common
  import opened UsersModels

  type EventId = nat
  type RegistrationId = nat

  /** `date` is a day number; `registrationDeadline` is an instant (see
      Common.DateOf); `capacity` is a PositiveIntegerField, so 0 is allowed. */
  datatype Event = Event(
    title: string,
    location: string,
    date: int,
    creator: UserId,
    attendees: set<UserId>,
    isCompleted: bool,
    registrationDeadline: Option<int>,
    capacity: Option<nat>)

  /** An event as a creation stores it: `is_completed` is false unless the
      request sets it. */
  function NewEvent(title: string, location: string, date: int, creator: UserId, attendees: set<UserId>,
                    registrationDeadline: Option<int>, capacity: Option<nat>, isCompleted: Option<bool>): (e: Event)
    ensures e.isCompleted <==> isCompleted == Some(true)
    ensures e.creator == creator && e.attendees == attendees && e.title == title && e.location == location
    ensures e.registrationDeadline == registrationDeadline && e.capacity == capacity && e.date == date
  {
    Event(title, location, date, creator, attendees, isCompleted == Some(true), registrationDeadline, capacity)
  }

  /** An EventRegistration row. The model declares no uniqueness of
      (user, event): the table is a map from row id to row. */
  datatype Registration = Registration(user: UserId, event: EventId, registeredAt: int)
}
