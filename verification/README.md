# Visual arts backend: the rules behind the endpoints

The system is a REST backend for a visual-arts community. It has five apps:

- **users**: accounts with a role, an active flag and notification preferences, plus an activity log;
- **artwork**: submissions that admins moderate, and a like table;
- **events**: events with a deadline, a capacity, attendees and registration rows;
- **projects**: collaborative projects with members, a completion flag and progress updates;
- **notifications**: per-user messages with a read flag.

Almost every endpoint follows the same pattern. It checks a short chain of guards, writes a few rows, and answers with a status code and a message. This project models those rules.

## How the model is organised

- **Entities.** `UsersModels`, `ArtworkModels`, `EventsModels`, `ProjectsModels` and `NotificationsModels` hold the entities, with their enumerations and field defaults. There is one module per `models.py`.
- **Database.** `Database` groups the tables into one value, `Db`. Its `Valid` predicate is referential integrity: every foreign key names an existing row. Every foreign key in the source is declared `on_delete=CASCADE`, which is what keeps `Valid` true when rows are deleted.
- **Endpoint rules.** `UsersViews`, `ArtworkViews`, `EventsViews`, `ProjectsViews` and `NotificationsViews` model the rules of each endpoint. There is one module per `views.py`.
  - Each endpoint is a function from the database before the request to an `Outcome`: the response plus the database after the request.
  - Its contract states, in the view's order:
    - which guard refuses the request, with which status code and message;
    - that a refusal changes nothing;
    - the exact new state on success;
    - that referential integrity is preserved.
  - Lemmas relate endpoints to one another:
    - round trips (an unlike undoes a like, an unregister undoes a register);
    - idempotence of the flag setters;
    - how the counting views move when moderation or completion runs.
  - Each view's permission table is a function of the action name.
- **Backend.** `Backend.Store` is the database as a mutable object, with one field per table and one method per state-changing endpoint. Each method changes its fields in place. Its contract ties the response and the new fields to the endpoint's rule, applied to the fields as they were, and keeps `Valid()`.
  - Three endpoints notify a whole set of users: updating an event, updating a project, and `send_bulk`. Their methods do it in a loop, as the views do. The loop is proved to notify every user of the set exactly once (`Fanout`).
- **Clock and authentication.** The clock is an input: `now` is an instant in seconds, and `DateOf(now)` is its day. Authentication is the framework's business, so the account it vouches for is an input too.

## Where the intended rules and the code disagree

Each item quotes a rule the system is meant to keep, then says what the code does instead. The model follows the code.

- **Capacity.** Rule: "registrations never exceed capacity". In the code, capacity 0 means "no limit" (events/views.py:122). The check counts the attendee set, not the registration rows. And `partial_update` is open to anybody, so anyone can rewrite the attendees or the capacity (`EventsViews.AnonymousUpdateStillWrites`).
- **Event date.** Rule: no registration "after" the event date. The code also refuses registration on the day of the event (events/views.py:108).
- **Missing registration.** Rule: "a missing resource is 404". Unregistering without a registration is a 500 "Unregistration failed": `get_object_or_404` raises `Http404`, and the generic handler catches it first (events/views.py:182-186, 219-224). The 400 branch at events/views.py:214-218 is never reached.
- **Duplicate registrations.** Rule: "unregistering removes exactly one row". If duplicate rows exist, which the model does not forbid (events/models.py:21-24), the lookup fails with the same 500.
- **Completing a project.** Rule: only the creator completes a project. `CompleteProjectView` checks this (projects/views.py:132-133), but `update` needs only a signed-in user, and the serializer lets the request write `is_completed`, `start_date` and `end_date` (projects/serializers.py:22-25). So anybody signed in can complete a project (`ProjectsViews.NonCreatorCompletesThroughUpdate`).
- **Pending accounts at login.** Rule: an inactive account is told it awaits approval (403, users/views.py:52-53). Django's default authentication backend returns no user for an inactive account, so such a login gets 401 "Invalid credentials" first (`UsersViews.PendingAccountSeesInvalidCredentials`). `TokenLogin` keeps the 403 branch as written, for a backend that does vouch for inactive accounts.
- **Staff flags at registration.** Rule: a self-registered account is an inactive member until an admin approves it. `RegisterView` overwrites only `role` and `is_active` (users/views.py:305-306). `UserSerializer` lists `is_staff` and `is_superuser` among its writable fields (users/serializers.py:9), so a registration can ask for both. Once such an account is activated, it passes every `IsAdminUser` guard. The model has no staff flags, so it does not capture this.

## Model

| member | source | states |
|---|---|---|
| Common.DateOf | events/views.py:108 | the day of an instant is the one whose 86400 seconds contain it |
| Common.Decimal | projects/views.py:162 | a count renders as a non-empty string of decimal digits without a leading zero |
| Common.DecimalRoundTrip | projects/views.py:162 | reading the rendered count back gives the count |
| Common.ParseInt | events/views.py:271-274 | text reads as an integer exactly when it is decimal digits, optionally after one sign; the value is that of the digits, negated after "-" |
| Common.ParseRendered | events/views.py:285 | an id rendered in decimal reads back as the same id |
| Text.TrimStart | artwork/views.py:93 | the result is a suffix of the input that does not start with whitespace, and only whitespace was cut |
| Text.TrimEnd | artwork/views.py:93 | the result is a prefix of the input that does not end with whitespace, and only whitespace was cut |
| Text.StripEmptyIffBlank | artwork/views.py:93 | `feedback.strip()` is empty exactly when the feedback is whitespace only (or empty) |
| Text.StripIdempotent | users/serializers.py:4-13 | trimming a trimmed value changes nothing |
| Text.BlankIffStrippedBlank | users/serializers.py:4-13 | a value is blank exactly when its trimmed form is |
| Text.StrippedHasNoOuterSpace | users/serializers.py:4-13 | a value that is not blank trims to a non-empty value with no whitespace at either end |
| UsersModels.ParseDeclaredRole | users/models.py:9-13 | a name parses exactly when it is one of the three declared roles, and it parses to the role of that name |
| UsersModels.DeclaredRoleRoundTrip | users/models.py:9-13 | every declared role reads back from its own name |
| UsersModels.DefaultUser | users/models.py:14-17 | a user built from defaults has an empty username, the undeclared role "visitor", the active flag and empty preferences |
| ArtworkModels.NewArtwork | artwork/models.py:16-29 | a new artwork is pending with no feedback; its category is the one given, otherwise sketch |
| EventsModels.NewEvent | events/serializers.py:19-22 | a new event keeps every field the request gives (date, location, deadline, capacity, attendees) and is completed only when the request says so |
| NotificationsModels.NewNotification | notifications/models.py:11-15 | a created notification is unread and carries the given recipient, message and type |
| NotificationsModels.Recipients | notifications/models.py:11 | the recipients column of a notification list, position by position |
| NotificationsModels.FanoutEmpty | events/views.py:61 | notifying nobody adds nothing |
| NotificationsModels.FanoutStep | events/views.py:61-66 | notifying one more user extends a fan-out by that user |
| NotificationsModels.SetAsMultisetSize | notifications/views.py:49-55 | a set of recipients has as many elements as its multiset |
| NotificationsModels.FanoutOncePerRecipient | notifications/views.py:49-57 | a fan-out adds exactly one notification per recipient and none to anybody else |
| Database.Refuse | events/views.py:103-106 | a refused request leaves the database as it was and answers the given code |
| Database.EmptyDb | users/models.py:8 | the empty database satisfies referential integrity |
| Database.NotifyKeepsValid | notifications/models.py:11 | notifying existing users keeps referential integrity |
| EventsViews.EventPermissions | events/views.py:40-47 | admin for create/update/destroy/registrations; authentication for register/unregister/my_events/my_registrations; anybody for every other action |
| EventsViews.EventOverrideIgnoresDeclarations | events/views.py:258 | the override overrules the decorators: exactly `mark_attended` and `registered` lose their declared classes, and both end up open to anybody |
| EventsViews.UnlimitedWithoutCapacity | events/views.py:122 | no capacity and capacity 0 both mean an event is never full |
| EventsViews.RegisterRefusal | events/views.py:102-126 | the four guards of `register` in order: deadline passed, the event is today or earlier, already registered, attendee count at capacity; no refusal iff all four pass |
| EventsViews.RegisterForEvent | events/views.py:93-164 | 404 for a missing event; a refused guard changes nothing; success adds one registration row, puts the user among the attendees and adds one "event_registration" notification; integrity is kept |
| EventsViews.RegisterAddsExactlyOneRow | events/views.py:129-142 | a successful registration adds exactly one row, which is the user's only row for the event, and one notification |
| EventsViews.SecondRegistrationRefused | events/views.py:115-119 | registering again is refused as a duplicate and changes nothing |
| EventsViews.UnregisterFromEvent | events/views.py:174-224 | no registration, or several, ends in 500 "Unregistration failed", never the 400 "not registered"; a past or same-day event is refused and the row stays; success removes the row, the attendee and sends one "event_unregistration" notification |
| EventsViews.UnregisterRemovesExactlyOneRow | events/views.py:195-198 | a successful unregistration removes exactly one row and the user from the attendees |
| EventsViews.UnregisterUndoesRegister | events/views.py:195-204 | registering then unregistering restores the registration table and the events, with two notifications more |
| EventsViews.UnregisterSingleRow | events/views.py:182-211 | with exactly one row and a future event, unregistering succeeds and removes that row |
| EventsViews.MarkAttended | events/views.py:259-293 | 404 for a missing event; a missing or empty `user_id` is 400 while "0" is looked up; text that is not an integer is 500; no registration 404, several 500; success sends one "event_attendance" notification, echoes the id as sent and changes no registration |
| EventsViews.ZeroIdIsLookedUp | events/views.py:264-273 | "0" passes the emptiness guard and, with nobody registered under id 0, ends in 404 |
| EventsViews.CreateEvent | events/views.py:49-55 | the caller becomes the creator of one new event built from the request, `is_completed` included; attendee ids that name no user are refused |
| EventsViews.UpdatedEvent | events/serializers.py:19-22 | every column but the creator can be replaced by the request; columns it does not supply stay |
| EventsViews.UpdateEvent | events/views.py:57-70 | 404 for a missing event, 400 for unknown attendees; otherwise the saved event replaces the old one, and an anonymous `partial_update` still saves but answers 500 |
| EventsViews.AnonymousUpdateStillWrites | events/views.py:57-70 | an anonymous request changes an event's capacity and deadline although it answers 500 |
| EventsViews.DestroyEvent | events/models.py:21-23 | the event and exactly its registrations go; other rows stay |
| EventsViews.CascadeKeepsCalendarValid | events/models.py:23 | the cascade leaves no registration pointing at a deleted event |
| ArtworkViews.ArtworkPermissions | artwork/views.py:37-44 | authenticated admin for update/partial_update/destroy, anybody for every other action |
| ArtworkViews.ArtworkOverrideIgnoresDeclarations | artwork/views.py:71-87 | every decorated action, approve and reject included, ends up open to anybody, contrary to its declaration |
| ArtworkViews.CreateArtwork | artwork/views.py:47-48 | the caller becomes the artist of one new pending artwork; an anonymous caller fails with 500 |
| ArtworkViews.UpdatedArtwork | artwork/views.py:51-53 | an update changes title, description and category only; status, feedback and artist are read-only |
| ArtworkViews.UpdateArtwork | artwork/views.py:51-67 | every update of an approved artwork sends another "artwork_approved" notification; no update ever sends "artwork_feedback" |
| ArtworkViews.DestroyArtwork | artwork/models.py:39-41 | the artwork and exactly its likes go |
| ArtworkViews.ApproveArtwork | artwork/views.py:71-83 | from any status the artwork becomes approved, and its artist gets exactly one "artwork_approved" notification |
| ArtworkViews.RejectArtwork | artwork/views.py:86-110 | blank feedback (missing, empty, whitespace) is 400 and changes nothing; otherwise the status becomes rejected, the feedback is stored unstripped and one "artwork_rejected" notification is sent |
| ArtworkViews.ModerationKeepsValid | artwork/views.py:99-109 | moderating an artwork and notifying its artist keeps integrity |
| ArtworkViews.LikeArtwork | artwork/views.py:142-149 | a missing artwork is 500; the first like adds the pair with 201; a repeat is 400 and changes nothing |
| ArtworkViews.UnlikeArtwork | artwork/views.py:151-159 | an existing like is removed with 200; otherwise 404 and nothing changes |
| ArtworkViews.OneLikePerUser | artwork/models.py:44-45 | the likes of one artwork number exactly as many as the users who gave them |
| ArtworkViews.LikesCount | artwork/views.py:161-164 | the likes count is the number of distinct users who liked the artwork |
| ArtworkViews.LikeCountsOnce | artwork/views.py:146-148 | a like raises that artwork's count by one and no other artwork's |
| ArtworkViews.UnlikeCountsOnce | artwork/views.py:155-157 | an unlike lowers that artwork's count by one and no other artwork's |
| ArtworkViews.UnlikeUndoesLike | artwork/views.py:142-157 | unliking right after a first like restores the database |
| ArtworkViews.LikeUndoesUnlike | artwork/views.py:142-157 | liking right after an unlike restores the database |
| ArtworkViews.StatusPartition | artwork/models.py:16-20 | the three statuses split the artworks into disjoint parts covering all of them |
| ArtworkViews.Stats | artwork/views.py:196-206 | the per-status counts are the sizes of the status classes and add up to the total |
| ArtworkViews.ApproveMovesPendingToApproved | artwork/views.py:72-75 | approving a pending artwork moves one from pending to approved and leaves the total |
| UsersViews.TokenLogin | users/views.py:37-66 | missing credentials 400, no authenticated account 401, inactive account 403, none logged; success appends one entry whose stored action is "login" |
| UsersViews.DefaultBackend | users/views.py:46 | the default backend vouches for correct credentials only when the account is active |
| UsersViews.PendingAccountSeesInvalidCredentials | users/views.py:46-53 | with the default backend a pending account with the right password gets 401, and no login answers 403 |
| UsersViews.LoginLogsOnce | users/views.py:56-59 | a login adds exactly one login entry for that user and none for anybody else |
| UsersViews.VisibleUsers | users/views.py:77-84 | admins list everybody, managers exactly the members, everybody else nobody |
| UsersViews.OnlyAdminsSeeStaff | users/views.py:79-84 | only an admin ever lists an admin or a manager |
| UsersViews.SetActive | users/views.py:105-131 | 404 for a missing user; a non-admin touching an admin or manager is 403 and the flag stays; otherwise the flag is set |
| UsersViews.SetActiveIdempotent | users/views.py:111-114 | repeating an activation or deactivation changes nothing more |
| UsersViews.UpdateRole | users/views.py:135-154 | 404, then 400 for a role outside admin/manager/member, then 403 for a manager role from a non-admin; otherwise the role becomes exactly the one named |
| UsersViews.UpdateRoleNeverStoresVisitor | users/views.py:144-152 | a role update never leaves a user with the undeclared "visitor" role |
| UsersViews.PatchPreferences | users/views.py:188-191 | the patch is a map merge: supplied keys overwrite, all other keys stay |
| UsersViews.PatchPreferencesIdempotent | users/views.py:189 | applying the same patch twice equals applying it once |
| UsersViews.RegisterUser | users/views.py:302-312 | a form or multipart request is 500 before anything; e-mail and username are compared after trimming; a malformed request, a blank or taken e-mail, or a blank or taken username is 400; a valid request without a username, while an account already holds the empty one, is 500 and changes nothing; otherwise exactly one inactive member is added, with the trimmed e-mail, the trimmed (or empty) username and no preferences |
| UsersViews.PaddingIsIgnored | users/serializers.py:4-13 | a request whose e-mail or username has surrounding whitespace is answered and stored exactly as the trimmed request |
| UsersViews.RegisteredNamesAreTrimmed | users/views.py:308-310 | a stored registration has a non-empty e-mail and a username with no whitespace at either end, and a supplied username is non-empty |
| UsersViews.AddUserKeepsValid | users/models.py:14 | a new account under the next id with an unused e-mail keeps integrity and e-mail uniqueness |
| UsersViews.SecondUnnamedRegistrationFails | users/views.py:308-310 | after one registration without a username, the next one without a username passes validation and fails with 500 |
| UsersViews.PendingUserCount | users/views.py:336-339 | the pending count is at most the number of users, and zero iff every account is active |
| UsersViews.NonePendingIffAllActive | users/views.py:338 | nobody is pending iff every account is active |
| UsersViews.RegistrationAwaitsApproval | users/views.py:305-306 | every registration raises the pending count by one |
| UsersViews.PendingGrows | users/views.py:338 | adding one inactive account raises the pending count by one |
| UsersViews.ActivationApproves | users/views.py:113 | activating a pending account lowers the pending count by one |
| ProjectsViews.ProjectPermissions | projects/views.py:33-38 | authentication for create/update/partial_update/destroy, anybody otherwise; no action needs an admin |
| ProjectsViews.Invitees | projects/views.py:57-59 | the invited users are the new members minus the old members |
| ProjectsViews.UpdatedProject | projects/serializers.py:22-25 | every column but the creator can be replaced, completion flag and dates included; columns the request does not supply stay |
| ProjectsViews.UpdateProject | projects/views.py:40-65 | 404 for a missing project, 400 for unknown members; otherwise the saved project replaces the old one; a request carrying `progress` is 500 with the project saved |
| ProjectsViews.NonCreatorCompletesThroughUpdate | projects/views.py:132-133 | a user other than the creator is refused by the completion endpoint yet completes the project through `update` |
| ProjectsViews.InvitationsReachOnlyNewMembers | projects/views.py:55-65 | each newly added member gets exactly one "project_invite"; retained and removed members get none |
| ProjectsViews.WithoutProjects | projects/models.py:20-21 | exactly the given projects and their progress updates go; all other rows stay |
| ProjectsViews.CascadeKeepsWorkshopValid | projects/models.py:21 | the cascade leaves no progress update pointing at a deleted project |
| ProjectsViews.DestroyProject | projects/views.py:68-73 | the creator deletes with 204; anybody else hits the undefined `is_admin` and fails with 500, deleting nothing |
| ProjectsViews.PostProgress | projects/views.py:111-124 | 404 "Project not found" for a missing project, 400 for a missing or blank description; otherwise one progress row holding the trimmed description |
| ProjectsViews.WithProgress | projects/models.py:20-24 | one new progress row under the next id; the projects stay |
| ProjectsViews.WithProgressKeepsValid | projects/models.py:21 | a progress row for an existing project keeps integrity |
| ProjectsViews.PostedProgressIsTrimmed | projects/serializers.py:6-10 | a stored progress description is non-empty and neither starts nor ends with whitespace |
| ProjectsViews.CompleteProject | projects/views.py:126-140 | 404 for a missing project, 403 for a non-creator with nothing changed; the creator sets the flag and today's end date |
| ProjectsViews.CompleteProjectIdempotent | projects/views.py:135-137 | completing twice on the same day changes nothing the second time |
| ProjectsViews.BulkDelete | projects/views.py:152-162 | an empty list is 400; otherwise exactly the listed projects the caller created go, and the reply names their number |
| ProjectsViews.BulkDeleteSparesOthers | projects/views.py:159 | bulk delete never touches another user's project |
| ProjectsViews.CompletionPartition | projects/views.py:87-89 | open and completed projects add up to the total |
| ProjectsViews.Stats | projects/views.py:83-106 | a member caller fails on the missing `contributors` field; others get in_progress + completed = total, recent at most total, contributions 0 |
| ProjectsViews.CompleteMovesOneProject | projects/views.py:135 | completing an open project moves one from in progress to completed |
| NotificationsViews.Visible | notifications/views.py:35-36 | the list holds exactly the caller's notifications, newest first |
| NotificationsViews.VisibleExactlyOwn | notifications/views.py:16-18 | an id is visible iff it names one of the caller's notifications |
| NotificationsViews.MarkAsRead | notifications/views.py:20-26 | only the caller's own notification can be marked (another's is 404); that one becomes read and nothing else changes |
| NotificationsViews.MarkAsReadIdempotent | notifications/views.py:24-25 | marking twice changes nothing the second time |
| NotificationsViews.AllReadFor | notifications/views.py:31-32 | every notification of the caller becomes read; every other user's stays as it was |
| NotificationsViews.MarkAllAsRead | notifications/views.py:29-33 | `mark_all_as_read` changes only the read flags of the caller's notifications |
| NotificationsViews.MarkAllLeavesNothingUnread | notifications/views.py:29-33 | afterwards nothing the caller sees is unread, the visible list is unchanged, and marking one more read changes nothing |
| NotificationsViews.SameRecipientsSameVisible | notifications/views.py:35-36 | what a user sees depends only on the recipients column |
| NotificationsViews.BulkRecipients | notifications/views.py:49 | the users named by a bulk send are exactly those whose stored role has that name |
| NotificationsViews.SendBulkRefusal | notifications/views.py:46-47 | a missing or empty role or message is refused with 400; otherwise nothing is refused |
| NotificationsViews.BulkSendToEmptyRole | notifications/views.py:49-58 | a bulk send to a role nobody holds creates nothing |
| Backend.Store.constructor | users/models.py:8 | the store starts empty and valid |
| Backend.Store.Register | events/views.py:93-164 | `register` performed in place: guards first, then the writes of `AddRegistration`; response and new tables are those of `RegisterForEvent`; integrity kept |
| Backend.Store.AddRegistration | events/views.py:129-142 | the row, the attendee and the confirmation of a registration that passed the guards, as `RegisterForEvent` |
| Backend.Store.Unregister | events/views.py:174-224 | `unregister` in place, as `UnregisterFromEvent` |
| Backend.Store.MarkAttended | events/views.py:258-293 | `mark_attended` in place, as `EventsViews.MarkAttended` |
| Backend.Store.CreateEvent | events/views.py:49-55 | `create` in place, as `EventsViews.CreateEvent` |
| Backend.Store.UpdateEvent | events/views.py:57-70 | saves the event as `EventsViews.UpdateEvent` does, then notifies every attendee of the saved event exactly once with "event_update"; an anonymous request then answers 500 with all of it in place |
| Backend.Store.DestroyEvent | events/models.py:21-23 | `destroy` in place with the registration cascade, as `EventsViews.DestroyEvent` |
| Backend.Store.NotifyEach | events/views.py:61-66 | one notification per user of a set, exactly one to each; no other table changes and integrity is kept |
| Backend.Store.AppendEach | events/views.py:61-66 | the loop appending one notification per user of the set, in any order: exactly one to each and none to anybody else |
| Backend.Store.CreateArtwork | artwork/views.py:47-48 | `create` in place, as `ArtworkViews.CreateArtwork` |
| Backend.Store.UpdateArtwork | artwork/views.py:51-67 | `perform_update` in place, as `ArtworkViews.UpdateArtwork` |
| Backend.Store.DestroyArtwork | artwork/models.py:39-41 | `destroy` in place with the like cascade |
| Backend.Store.Approve | artwork/views.py:71-83 | `approve` in place, as `ApproveArtwork` |
| Backend.Store.Reject | artwork/views.py:86-110 | `reject` in place, as `RejectArtwork` |
| Backend.Store.AddLike | artwork/views.py:142-149 | `like_artwork` in place, as `LikeArtwork` |
| Backend.Store.RemoveLike | artwork/views.py:151-159 | `unlike_artwork` in place, as `UnlikeArtwork` |
| Backend.Store.Login | users/views.py:37-66 | login in place, as `TokenLogin` |
| Backend.Store.SetActive | users/views.py:105-131 | activation and deactivation in place, as `UsersViews.SetActive` |
| Backend.Store.UpdateRole | users/views.py:135-154 | role update in place, as `UsersViews.UpdateRole` |
| Backend.Store.PatchPreferences | users/views.py:188-191 | preferences merge in place, as `UsersViews.PatchPreferences` |
| Backend.Store.RegisterUser | users/views.py:302-312 | registration in place, as `UsersViews.RegisterUser` |
| Backend.Store.AddAccount | users/views.py:309-310 | the save of a registration that passed validation, as `UsersViews.RegisterUser` |
| Backend.Store.UpdateProject | projects/views.py:55-65 | saves the project as `ProjectsViews.UpdateProject` does, then notifies exactly the members new to it, once each, with "project_invite"; a request carrying `progress` answers 500 with the project saved and nobody invited |
| Backend.Store.DestroyProject | projects/views.py:68-73 | `destroy` in place, as `ProjectsViews.DestroyProject` |
| Backend.Store.DeleteProjects | projects/views.py:159-161 | deletes the given projects and their progress updates, nothing else |
| Backend.Store.PostProgress | projects/views.py:111-124 | progress posting in place, as `PostProgress` |
| Backend.Store.CompleteProject | projects/views.py:126-140 | completion in place, as `ProjectsViews.CompleteProject` |
| Backend.Store.BulkDelete | projects/views.py:152-162 | bulk delete in place, as `ProjectsViews.BulkDelete` |
| Backend.Store.MarkAsRead | notifications/views.py:20-26 | `mark_as_read` in place, as `NotificationsViews.MarkAsRead` |
| Backend.Store.MarkAllAsRead | notifications/views.py:29-33 | a loop over the notifications leaves exactly `AllReadFor` of the old list |
| Backend.Store.SendBulk | notifications/views.py:40-58 | 400 and no change without role or message; otherwise one batch, inserted at once, holding exactly one notification per user of the role, with the type defaulting to "general" |
| Backend.Store.BuildBatch | notifications/views.py:49-55 | the loop building the batch holds exactly one notification, with the given message and type, per user of the set |

## Left out

- **Serializers.** Field validation is reduced to what the endpoints need:
  - unknown attendee or member ids are refused;
  - a missing or blank progress description is refused, and the stored one is trimmed;
  - registration takes the serializer's verdict on the rest of the request as the input `wellFormed`.

  Not modelled: field lengths, image URLs, and the fields that `RegisterView` passes on besides role and active.
- **Project creation.** `perform_create` of ProjectViewSet is not modelled. Its serializer's `create` writes a `progress` column that ProjectProgress does not have (projects/serializers.py:32-35), so a create with a non-zero `progress` fails with 500 after the project is saved. The same write in `update` is modelled (`ProjectsViews.UpdateProject`).
- **Artwork feedback type.** A `feedback` that is JSON null or not a string makes `reject` raise. The model takes feedback as an optional string.
- **Authentication.** Passwords, token issuance and password reset are library behaviour. The authenticated account is an input.
- **Permission layer.** The permission classes are tabulated per action but never evaluated. The methods assume the framework let the request through: an authenticated caller is an existing user.
  - Anonymous callers of the AllowAny actions are modelled where they reach the code: artwork creation, and an event's `partial_update`, which saves and notifies before failing.
  - Not modelled: `UserListView` for an anonymous caller, and the project's own permission classes (users/permissions.py is not part of this model).
- **Transactions, logging and debug output.** Each request is one atomic step.
- **Read-only listing views.** Pagination, filtering, search and ordering, including `upcoming`, `past`, `my_events`, `my_registrations`, `registered`, `my_artworks`, `LikedArtworksView` and `FeaturedArtworkViewSet`. They build ORM queries and change nothing. The same goes for `category_analytics`, `PendingArtworkCountView`, `ActiveProjectCountView` and the `registrations` action.
- **Analytics views.** Float percentages and monthly grouping are floating point and database aggregation.
- **Image uploads** and `EventImageViewSet`.
- **Deleting users.** The model has no endpoint that deletes a user, so the cascades on user deletion are not exercised.
- **NotificationsViews.Visible.** Newest first is modelled as descending id. Notifications created in the same instant are ordered by id, whereas the database may order ties arbitrarily.
- **Naive and aware datetimes.** The deadline check in `register` compares a naive `datetime.now()` with a stored deadline. If the settings enable time zones, that comparison raises and `register` answers 500 for any event with a deadline. The settings module is not part of this model, so instants are assumed comparable.
- **Notification type.** The `max_length=20` of `notification_type` is not checked: "event_unregistration" is exactly 20 characters and fits.
- **Backend.Store.UpdateEvent and Backend.Store.UpdateProject.** These notify the users of a set in the order the loop picks them. The order of the notification rows is left unspecified: `NotifiedAll` fixes their multiset, not their sequence.
- **EventsViews.MarkAttended** reads `user_id` as decimal digits with an optional sign. Python's `int()` also accepts surrounding whitespace, underscores between digits, and decimal digits outside ASCII (such as "٣" for 3); the model answers 500 for those.
- **UsersViews.RegisterUser** takes the serializer's verdict on the e-mail's shape and the fields other than username as the input `wellFormed`. Length limits and the character set of usernames are part of that verdict.
- **Username uniqueness.** The database refuses a second account with the same username. The model checks this where it matters, in registration, but `Valid` does not include it.
