/** The rules of projects/views.py: the permission table of ProjectViewSet,
    who is invited by an update, who may delete or complete a project,
    progress posting, the caller-scoped bulk delete and the counts of
    ProjectStatsView. */
module ProjectsViews {
  import opened Common
  import opened Text
  import opened UsersModels
  import opened ProjectsModels
  import opened NotificationsModels
  import opened Database

  // ---------------------------------------------------------------------------
  // Permissions
  // ---------------------------------------------------------------------------

  const ProjectWriteActions: set<string> := {"create", "update", "partial_update", "destroy"}

  /** `get_permissions`: any signed-in user for the four writing actions,
      anybody for the others. No action needs an admin. */
  function ProjectPermissions(action: string): (r: seq<Permission>)
    ensures r == [IsAuthenticated] <==> action in ProjectWriteActions
    ensures r == [AllowAny] <==> action !in ProjectWriteActions
    ensures AdminUser !in r && StaffUser !in r
  {
    if action in ProjectWriteActions then [IsAuthenticated] else [AllowAny]
  }

  // ---------------------------------------------------------------------------
  // update
  // ---------------------------------------------------------------------------

  function InviteMessage(title: string): string { "You have been added to the project '" + title + "'." }

  /** The users an update invites: those in the new member set that were not
      in the old one. */
  function Invitees(oldMembers: set<UserId>, newMembers: set<UserId>): (r: set<UserId>)
    ensures forall u :: u in r <==> u in newMembers && u !in oldMembers
  {
    newMembers - oldMembers
  }

  /** The fields an update request supplies. The serializer exposes every
      column but the creator; `Some(None)` clears the end date. `progress` is
      the serializer's extra write-only integer. */
  datatype ProjectPatch = ProjectPatch(
    title: Option<string>,
    description: Option<string>,
    members: Option<set<UserId>>,
    isCompleted: Option<bool>,
    startDate: Option<int>,
    endDate: Option<Option<int>>,
    progress: Option<int>)

  /** The project as an update saves it: each field the request supplies
      replaces the stored one; the creator is read-only. */
  function UpdatedProject(p: Project, patch: ProjectPatch): (u: Project)
    ensures u.creator == p.creator
    ensures u.title == (if patch.title.Some? then patch.title.value else p.title)
    ensures u.description == (if patch.description.Some? then patch.description.value else p.description)
    ensures u.members == (if patch.members.Some? then patch.members.value else p.members)
    ensures u.isCompleted == (if patch.isCompleted.Some? then patch.isCompleted.value else p.isCompleted)
    ensures u.startDate == (if patch.startDate.Some? then patch.startDate.value else p.startDate)
    ensures u.endDate == (if patch.endDate.Some? then patch.endDate.value else p.endDate)
  {
    Project(if patch.title.Some? then patch.title.value else p.title,
            if patch.description.Some? then patch.description.value else p.description,
            p.creator,
            if patch.members.Some? then patch.members.value else p.members,
            if patch.isCompleted.Some? then patch.isCompleted.value else p.isCompleted,
            if patch.startDate.Some? then patch.startDate.value else p.startDate,
            if patch.endDate.Some? then patch.endDate.value else p.endDate)
  }

  /** `update`: a missing project is 404 and member ids that name no user fail
      validation. Otherwise the project is saved; who is then notified is
      `Invitees` of the old and new member sets (see Backend.Store.UpdateProject,
      which sends the notifications one by one). Any signed-in user may
      update, not only the creator. A request carrying `progress` has the
      serializer create a progress row with a `progress` column that
      ProjectProgress lacks: that raises after the project is saved and
      before any invitation, and the answer is 500. */
  ghost function UpdateProject(db: Db, id: ProjectId, patch: ProjectPatch): (r: Outcome)
    ensures id !in db.workshop.projects ==> r == Refuse(db, HttpNotFound, NotFound.message)
    ensures id in db.workshop.projects && patch.members.Some? && !(patch.members.value <= db.accounts.users.Keys)
        ==> r == Refuse(db, HttpBadRequest, "Invalid members")
    ensures r.response.code == HttpOk <==>
      id in db.workshop.projects && (patch.members.Some? ==> patch.members.value <= db.accounts.users.Keys)
      && patch.progress.None?
    ensures r.response.code == HttpServerError <==>
      id in db.workshop.projects && (patch.members.Some? ==> patch.members.value <= db.accounts.users.Keys)
      && patch.progress.Some?
    ensures r.response.code == HttpOk || r.response.code == HttpServerError ==>
      r.db == db.(workshop := db.workshop.(projects := db.workshop.projects[id :=
                    UpdatedProject(db.workshop.projects[id], patch)]))
    ensures Valid(db) ==> Valid(r.db)
  {
    if id !in db.workshop.projects then Refuse(db, HttpNotFound, NotFound.message)
    else if patch.members.Some? && !(patch.members.value <= db.accounts.users.Keys) then Refuse(db, HttpBadRequest, "Invalid members")
    else
      var p := UpdatedProject(db.workshop.projects[id], patch);
      var response := if patch.progress.Some? then Response(HttpServerError, "Server error") else Response(HttpOk, p.title);
      Outcome(response, db.(workshop := db.workshop.(projects := db.workshop.projects[id := p])))
  }

  /** Completion through `update` bypasses the creator check of
      CompleteProjectView: a signed-in user who did not create the project is
      refused by `CompleteProject` but completes it by updating its flag. */
  lemma NonCreatorCompletesThroughUpdate(db: Db, caller: UserId, id: ProjectId, now: int)
    requires id in db.workshop.projects && db.workshop.projects[id].creator != caller
    ensures CompleteProject(db, caller, id, now).response.code == HttpForbidden
    ensures CompleteProject(db, caller, id, now).db == db
    ensures var r := UpdateProject(db, id, ProjectPatch(None, None, None, Some(true), None, None, None));
      r.response.code == HttpOk && r.db.workshop.projects[id].isCompleted
  {
  }

  /** The invitations an update sends reach exactly the newly added members,
      once each: retained and removed members receive none. */
  lemma InvitationsReachOnlyNewMembers(oldMembers: set<UserId>, newMembers: set<UserId>,
                                       sent: seq<Notification>, title: string)
    requires Fanout(sent, Invitees(oldMembers, newMembers), InviteMessage(title), "project_invite")
    ensures |sent| == |newMembers - oldMembers|
    ensures forall i :: 0 <= i < |sent| ==> sent[i].recipient in newMembers && sent[i].recipient !in oldMembers
    ensures forall u :: u in newMembers && u !in oldMembers ==> multiset(Recipients(sent))[u] == 1
    ensures forall u :: u in oldMembers ==> multiset(Recipients(sent))[u] == 0
  {
    FanoutOncePerRecipient(sent, Invitees(oldMembers, newMembers), InviteMessage(title), "project_invite");
  }

  // ---------------------------------------------------------------------------
  // destroy
  // ---------------------------------------------------------------------------

  /** The project and, by cascade, its progress updates. */
  function WithoutProjects(w: Workshop, gone: set<ProjectId>): (r: Workshop)
    ensures r.projects.Keys == w.projects.Keys - gone
    ensures forall id :: id in r.projects ==> r.projects[id] == w.projects[id]
    ensures forall id :: id in r.progress <==> id in w.progress && w.progress[id].project !in gone
    ensures forall id :: id in r.progress ==> r.progress[id] == w.progress[id]
    ensures r.nextProjectId == w.nextProjectId && r.nextProgressId == w.nextProgressId
  {
    w.(projects := map id | id in w.projects && id !in gone :: w.projects[id],
       progress := map id | id in w.progress && w.progress[id].project !in gone :: w.progress[id])
  }

  /** Dropping projects together with their progress updates leaves no
      dangling foreign key behind. */
  lemma CascadeKeepsWorkshopValid(db: Db, gone: set<ProjectId>)
    ensures Valid(db) ==> Valid(db.(workshop := WithoutProjects(db.workshop, gone)))
  {
  }

  /** `destroy`: the creator deletes the project. For anybody else the guard
      reads `is_admin`, which the user model does not define, so the request
      fails and nothing is deleted. */
  ghost function DestroyProject(db: Db, caller: UserId, id: ProjectId): (r: Outcome)
    ensures id !in db.workshop.projects ==> r == Refuse(db, HttpNotFound, NotFound.message)
    ensures id in db.workshop.projects && db.workshop.projects[id].creator != caller
        ==> r == Refuse(db, HttpServerError, "Server error")
    ensures r.response.code == HttpNoContent <==> id in db.workshop.projects && db.workshop.projects[id].creator == caller
    ensures r.response.code == HttpNoContent ==> r.db == db.(workshop := WithoutProjects(db.workshop, {id}))
    ensures Valid(db) ==> Valid(r.db)
  {
    if id !in db.workshop.projects then Refuse(db, HttpNotFound, NotFound.message)
    else if db.workshop.projects[id].creator != caller then Refuse(db, HttpServerError, "Server error")
    else
      CascadeKeepsWorkshopValid(db, {id});
      Outcome(Response(HttpNoContent, ""), db.(workshop := WithoutProjects(db.workshop, {id})))
  }

  // ---------------------------------------------------------------------------
  // ProjectProgressView and CompleteProjectView
  // ---------------------------------------------------------------------------

  /** The workshop with one more progress row, under the next free id. */
  function WithProgress(w: Workshop, row: Progress): (r: Workshop)
    ensures r.progress == w.progress[w.nextProgressId := row] && r.nextProgressId == w.nextProgressId + 1
    ensures r.projects == w.projects && r.nextProjectId == w.nextProjectId
  {
    w.(progress := w.progress[w.nextProgressId := row], nextProgressId := w.nextProgressId + 1)
  }

  /** A progress row for an existing project keeps referential integrity. */
  lemma WithProgressKeepsValid(db: Db, row: Progress)
    requires row.project in db.workshop.projects
    ensures Valid(db) ==> Valid(db.(workshop := WithProgress(db.workshop, row)))
  {
  }

  /** Posting a progress update: a missing project is 404. The serializer
      trims the description and refuses it when it is missing or nothing but
      whitespace; otherwise one progress row holding the trimmed text is
      added. Any signed-in user may post. */
  ghost function PostProgress(db: Db, id: ProjectId, description: Option<string>, now: int): (r: Outcome)
    ensures id !in db.workshop.projects ==> r == Refuse(db, HttpNotFound, "Project not found")
    ensures id in db.workshop.projects && (description.None? || IsBlank(description.value))
        ==> r == Refuse(db, HttpBadRequest, "Invalid progress")
    ensures r.response.code == HttpCreated <==>
      id in db.workshop.projects && description.Some? && !IsBlank(description.value)
    ensures r.response.code == HttpCreated ==>
      r.db == db.(workshop := WithProgress(db.workshop, Progress(id, Strip(description.value), now)))
    ensures Valid(db) ==> Valid(r.db)
  {
    if id !in db.workshop.projects then Refuse(db, HttpNotFound, "Project not found")
    else if description.None? || IsBlank(description.value) then Refuse(db, HttpBadRequest, "Invalid progress")
    else
      var row := Progress(id, Strip(description.value), now);
      WithProgressKeepsValid(db, row);
      Outcome(Response(HttpCreated, row.description), db.(workshop := WithProgress(db.workshop, row)))
  }

  /** What a successful post stores is the trimmed description: not empty, and
      neither starting nor ending with whitespace. */
  lemma {:induction false} PostedProgressIsTrimmed(db: Db, id: ProjectId, description: Option<string>, now: int)
    requires PostProgress(db, id, description, now).response.code == HttpCreated
    ensures var t := PostProgress(db, id, description, now).db.workshop.progress[db.workshop.nextProgressId].description;
      t != [] && !IsSpace(t[0]) && !IsSpace(t[|t| - 1])
  {
    StripEmptyIffBlank(description.value);
  }

  /** Completing a project: a missing project is 404, a caller other than the
      creator is 403 and nothing changes; the creator marks it completed
      (whatever it was) and sets the end date to today. */
  ghost function CompleteProject(db: Db, caller: UserId, id: ProjectId, now: int): (r: Outcome)
    ensures id !in db.workshop.projects ==> r == Refuse(db, HttpNotFound, "Project not found")
    ensures id in db.workshop.projects && db.workshop.projects[id].creator != caller
        ==> r == Refuse(db, HttpForbidden, "You are not authorized to complete this project")
    ensures r.response.code == HttpOk <==> id in db.workshop.projects && db.workshop.projects[id].creator == caller
    ensures r.response.code == HttpOk ==>
      var p := db.workshop.projects[id];
      r.db == db.(workshop := db.workshop.(projects := db.workshop.projects[id := p.(isCompleted := true, endDate := Some(DateOf(now)))]))
    ensures Valid(db) ==> Valid(r.db)
  {
    if id !in db.workshop.projects then Refuse(db, HttpNotFound, "Project not found")
    else
      var p := db.workshop.projects[id];
      if p.creator != caller then Refuse(db, HttpForbidden, "You are not authorized to complete this project")
      else
        Outcome(Response(HttpOk, "Project marked as completed!"),
                db.(workshop := db.workshop.(projects := db.workshop.projects[id := p.(isCompleted := true, endDate := Some(DateOf(now)))])))
  }

  /** Completing twice on the same day changes nothing the second time. */
  lemma CompleteProjectIdempotent(db: Db, caller: UserId, id: ProjectId, now: int)
    ensures var once := CompleteProject(db, caller, id, now);
      CompleteProject(once.db, caller, id, now) == once
  {
    var once := CompleteProject(db, caller, id, now);
    if id in db.workshop.projects && db.workshop.projects[id].creator == caller {
      var p := once.db.workshop.projects[id];
      assert once.db.workshop.projects[id := p.(isCompleted := true, endDate := Some(DateOf(now)))] == once.db.workshop.projects;
    }
  }

  // ---------------------------------------------------------------------------
  // BulkDeleteProjectsView
  // ---------------------------------------------------------------------------

  /** The listed projects the caller created. */
  function OwnedAmong(projects: map<ProjectId, Project>, caller: UserId, ids: seq<ProjectId>): set<ProjectId>
  {
    set id | id in projects && id in ids && projects[id].creator == caller
  }

  /** Bulk delete: an empty list is refused; otherwise exactly the listed
      projects the caller created go (with their progress updates), every
      other project stays, and the reply names how many went. */
  ghost function BulkDelete(db: Db, caller: UserId, ids: seq<ProjectId>): (r: Outcome)
    ensures ids == [] ==> r == Refuse(db, HttpBadRequest, "No project IDs provided")
    ensures ids != [] ==>
      var gone := OwnedAmong(db.workshop.projects, caller, ids);
      && r.response == Response(HttpOk, Decimal(|gone|) + " projects deleted successfully")
      && r.db == db.(workshop := WithoutProjects(db.workshop, gone))
      && (forall id :: id in db.workshop.projects ==>
            (id in r.db.workshop.projects <==> id !in ids || db.workshop.projects[id].creator != caller))
    ensures Valid(db) ==> Valid(r.db)
  {
    if ids == [] then Refuse(db, HttpBadRequest, "No project IDs provided")
    else
      var gone := OwnedAmong(db.workshop.projects, caller, ids);
      CascadeKeepsWorkshopValid(db, gone);
      Outcome(Response(HttpOk, Decimal(|gone|) + " projects deleted successfully"),
              db.(workshop := WithoutProjects(db.workshop, gone)))
  }

  /** Bulk delete never touches another user's project. */
  lemma BulkDeleteSparesOthers(db: Db, caller: UserId, ids: seq<ProjectId>, id: ProjectId)
    requires id in db.workshop.projects && db.workshop.projects[id].creator != caller
    ensures var after := BulkDelete(db, caller, ids).db;
      id in after.workshop.projects && after.workshop.projects[id] == db.workshop.projects[id]
  {
  }

  // ---------------------------------------------------------------------------
  // ProjectStatsView
  // ---------------------------------------------------------------------------

  datatype ProjectStats = ProjectStats(total: nat, inProgress: nat, completed: nat, recent: nat, userContributions: nat)

  function WithCompletion(projects: map<ProjectId, Project>, done: bool): set<ProjectId>
  {
    set id | id in projects && projects[id].isCompleted == done
  }

  function StartedSince(projects: map<ProjectId, Project>, day: int): set<ProjectId>
  {
    set id | id in projects && projects[id].startDate >= day
  }

  /** The completion flag splits the projects into two disjoint parts. */
  lemma CompletionPartition(projects: map<ProjectId, Project>)
    ensures |WithCompletion(projects, false)| + |WithCompletion(projects, true)| == |projects|
  {
    var open, done := WithCompletion(projects, false), WithCompletion(projects, true);
    assert open * done == {};
    assert open + done == projects.Keys;
  }

  /** The counts of ProjectStatsView. For a caller with the member role the
      view filters on `contributors`, which Project does not have, so the
      request fails (`None`); any other caller gets the counts with no
      contributions. Projects in progress and completed ones add up to the
      total; "recent" counts the projects that started in the last seven
      days. */
  function Stats(db: Db, caller: UserId, now: int): (r: Option<ProjectStats>)
    requires caller in db.accounts.users
    ensures r.None? <==> db.accounts.users[caller].role == Member
    ensures r.Some? ==>
      && r.value.inProgress + r.value.completed == r.value.total == |db.workshop.projects|
      && r.value.recent == |StartedSince(db.workshop.projects, DateOf(now - 7 * SecondsPerDay))|
      && r.value.recent <= r.value.total
      && r.value.userContributions == 0
  {
    if db.accounts.users[caller].role == Member then None
    else
      var projects := db.workshop.projects;
      var recent := StartedSince(projects, DateOf(now - 7 * SecondsPerDay));
      CompletionPartition(projects);
      SubsetNoLarger(recent, projects.Keys);
      Some(ProjectStats(|projects|, |WithCompletion(projects, false)|, |WithCompletion(projects, true)|, |recent|, 0))
  }

  /** Completing an open project moves it from "in progress" to "completed". */
  lemma CompleteMovesOneProject(db: Db, caller: UserId, id: ProjectId, now: int, statsCaller: UserId)
    requires statsCaller in db.accounts.users && db.accounts.users[statsCaller].role != Member
    requires CompleteProject(db, caller, id, now).response.code == HttpOk
    requires !db.workshop.projects[id].isCompleted
    ensures var after := CompleteProject(db, caller, id, now).db;
      var s0 := Stats(db, statsCaller, now).value;
      var s1 := Stats(after, statsCaller, now).value;
      s1.inProgress == s0.inProgress - 1 && s1.completed == s0.completed + 1 && s1.total == s0.total
  {
    var before := db.workshop.projects;
    var after := CompleteProject(db, caller, id, now).db.workshop.projects;
    assert WithCompletion(before, false) == WithCompletion(after, false) + {id};
    assert WithCompletion(after, true) == WithCompletion(before, true) + {id};
  }
}
