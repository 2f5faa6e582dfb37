/** The account rules of users/views.py: login gating, the role-scoped user
    list, activation limits for non-admins, role validation, the forced
    defaults of self-registration, the preferences merge and the count of
    accounts awaiting approval. */
module UsersViews {
  import opened Common
  import opened Text
  import opened UsersModels
  import opened Database

  // ---------------------------------------------------------------------------
  // CustomAuthToken.post
  // ---------------------------------------------------------------------------

  /** Login. Checking the password is the authentication backend's business:
      `authenticated` is the account it vouches for, if any. Missing
      credentials, a failed authentication and an inactive account are refused
      in that order, and none of them is logged; a login that succeeds adds
      one "login" entry to the activity log. */
  ghost function TokenLogin(db: Db, email: Option<string>, password: Option<string>,
                       authenticated: Option<UserId>, now: int): (r: Outcome)
    requires authenticated.Some? ==> authenticated.value in db.accounts.users
    ensures !Present(email) || !Present(password) ==> r == Refuse(db, HttpBadRequest, "Email and password are required.")
    ensures Present(email) && Present(password) && authenticated.None?
        ==> r == Refuse(db, HttpUnauthorized, "Invalid credentials. Please try again.")
    ensures Present(email) && Present(password) && authenticated.Some? && !db.accounts.users[authenticated.value].isActive
        ==> r == Refuse(db, HttpForbidden, "Your account is pending approval. Please contact an admin.")
    ensures r.response.code == HttpOk <==>
      Present(email) && Present(password) && authenticated.Some? && db.accounts.users[authenticated.value].isActive
    ensures r.response.code != HttpOk ==> r.db == db
    ensures r.response.code == HttpOk ==>
      && r.db == db.(accounts := db.accounts.(logs := db.accounts.logs + [ActivityLog(authenticated.value, Login, None, now)]))
      && ActionName(r.db.accounts.logs[|db.accounts.logs|].action) == "login"
    ensures Valid(db) ==> Valid(r.db)
  {
    if !Present(email) || !Present(password) then Refuse(db, HttpBadRequest, "Email and password are required.")
    else if authenticated.None? then Refuse(db, HttpUnauthorized, "Invalid credentials. Please try again.")
    else
      var user := db.accounts.users[authenticated.value];
      if !user.isActive then Refuse(db, HttpForbidden, "Your account is pending approval. Please contact an admin.")
      else
        Outcome(Response(HttpOk, RoleName(user.role)),
                db.(accounts := db.accounts.(logs := db.accounts.logs + [ActivityLog(authenticated.value, Login, None, now)])))
  }
  /** What Django's default authentication backend answers for correct
      credentials: the account, unless it is inactive, in which case it
      answers as for wrong credentials. */
  function DefaultBackend(users: map<UserId, User>, account: UserId): (r: Option<UserId>)
    requires account in users
    ensures r == Some(account) <==> users[account].isActive
    ensures r.None? <==> !users[account].isActive
  {
    if users[account].isActive then Some(account) else None
  }

  /** With the default backend, the pending-approval branch is never reached:
      a pending account with the right password is told its credentials are
      invalid (401), and no login ever answers 403. */
  lemma PendingAccountSeesInvalidCredentials(db: Db, email: string, password: string, account: UserId, now: int)
    requires account in db.accounts.users && email != [] && password != []
    ensures var r := TokenLogin(db, Some(email), Some(password), DefaultBackend(db.accounts.users, account), now);
      && r.response.code != HttpForbidden
      && (!db.accounts.users[account].isActive ==> r.response.code == HttpUnauthorized)
  {
  }


  /** The login entries of one user. */
  function LoginCount(logs: seq<ActivityLog>, user: UserId): nat
  {
    if logs == [] then 0
    else
      var last := logs[|logs| - 1];
      LoginCount(logs[..|logs| - 1], user) + (if last.user == user && last.action == Login then 1 else 0)
  }

  /** A successful login adds exactly one login entry for that user and none
      for anybody else; a refused one adds none at all. */
  lemma LoginLogsOnce(db: Db, email: Option<string>, password: Option<string>,
                      authenticated: Option<UserId>, now: int, other: UserId)
    requires authenticated.Some? ==> authenticated.value in db.accounts.users
    ensures var after := TokenLogin(db, email, password, authenticated, now).db.accounts.logs;
      LoginCount(after, other) == LoginCount(db.accounts.logs, other) +
        (if TokenLogin(db, email, password, authenticated, now).response.code == HttpOk && authenticated == Some(other) then 1 else 0)
  {
    var after := TokenLogin(db, email, password, authenticated, now).db.accounts.logs;
    if after != db.accounts.logs {
      assert after[..|after| - 1] == db.accounts.logs;
    }
  }

  // ---------------------------------------------------------------------------
  // UserListView.get_queryset
  // ---------------------------------------------------------------------------

  /** The users a caller may list: everybody for an admin, the members for a
      manager, nobody for any other role. */
  function VisibleUsers(users: map<UserId, User>, caller: UserId): (r: set<UserId>)
    requires caller in users
    ensures r <= users.Keys
    ensures users[caller].role == Admin ==> r == users.Keys
    ensures users[caller].role == Manager ==> forall id :: id in r <==> id in users && users[id].role == Member
    ensures users[caller].role != Admin && users[caller].role != Manager ==> r == {}
  {
    match users[caller].role
    case Admin => users.Keys
    case Manager => set id | id in users && users[id].role == Member
    case _ => {}
  }

  /** Only an admin ever sees an admin or a manager. */
  lemma OnlyAdminsSeeStaff(users: map<UserId, User>, caller: UserId, id: UserId)
    requires caller in users && id in VisibleUsers(users, caller)
    requires users[id].role == Admin || users[id].role == Manager
    ensures users[caller].role == Admin
  {
  }

  // ---------------------------------------------------------------------------
  // ActivateUserView and DeactivateUserView
  // ---------------------------------------------------------------------------

  /** Whether the caller may change a target's active flag: only an admin may
      touch an admin or a manager. */
  predicate MayToggle(callerRole: Role, targetRole: Role)
  {
    !((targetRole == Admin || targetRole == Manager) && callerRole != Admin)
  }

  /** Activation (`active` true) and deactivation (`active` false): a missing
      user is 404, a non-admin targeting an admin or a manager is refused and
      the flag stays; otherwise the flag is set, whatever it was. */
  ghost function SetActive(db: Db, caller: UserId, target: UserId, active: bool): (r: Outcome)
    requires caller in db.accounts.users
    ensures target !in db.accounts.users ==> r == Refuse(db, HttpNotFound, "User not found.")
    ensures target in db.accounts.users && !MayToggle(db.accounts.users[caller].role, db.accounts.users[target].role)
        ==> r == Refuse(db, HttpForbidden,
                        if active then "You cannot activate admins or managers" else "You cannot deactivate admins or managers")
    ensures r.response.code == HttpOk <==>
      target in db.accounts.users && MayToggle(db.accounts.users[caller].role, db.accounts.users[target].role)
    ensures r.response.code == HttpOk ==>
      var u := db.accounts.users[target];
      r.db == db.(accounts := db.accounts.(users := db.accounts.users[target := u.(isActive := active)]))
    ensures Valid(db) ==> Valid(r.db)
  {
    if target !in db.accounts.users then Refuse(db, HttpNotFound, "User not found.")
    else
      var u := db.accounts.users[target];
      if !MayToggle(db.accounts.users[caller].role, u.role) then
        Refuse(db, HttpForbidden, if active then "You cannot activate admins or managers" else "You cannot deactivate admins or managers")
      else
        Outcome(Response(HttpOk, if active then "User activated successfully." else "User deactivated successfully."),
                db.(accounts := db.accounts.(users := db.accounts.users[target := u.(isActive := active)])))
  }

  /** Repeating an activation or a deactivation changes nothing more. */
  lemma SetActiveIdempotent(db: Db, caller: UserId, target: UserId, active: bool)
    requires caller in db.accounts.users
    ensures var once := SetActive(db, caller, target, active);
      SetActive(once.db, caller, target, active) == once
  {
    var once := SetActive(db, caller, target, active);
    if target in db.accounts.users && MayToggle(db.accounts.users[caller].role, db.accounts.users[target].role) {
      var u := db.accounts.users[target];
      assert once.db.accounts.users[target := u.(isActive := active)] == once.db.accounts.users;
    }
  }

  // ---------------------------------------------------------------------------
  // UpdateUserRoleView
  // ---------------------------------------------------------------------------

  /** Role update: a missing user is 404; a role other than the three declared
      names is 400; the manager role asked for by a non-admin is 403; otherwise
      the role becomes exactly the one requested. */
  ghost function UpdateRole(db: Db, caller: UserId, target: UserId, role: Option<string>): (r: Outcome)
    requires caller in db.accounts.users
    ensures target !in db.accounts.users ==> r == Refuse(db, HttpNotFound, "User not found")
    ensures target in db.accounts.users && (role.None? || ParseDeclaredRole(role.value).None?)
        ==> r == Refuse(db, HttpBadRequest, "Invalid role")
    ensures target in db.accounts.users && role == Some("manager") && db.accounts.users[caller].role != Admin
        ==> r == Refuse(db, HttpForbidden, "Only admins can assign the manager role")
    ensures r.response.code == HttpOk <==>
      && target in db.accounts.users && role.Some? && ParseDeclaredRole(role.value).Some?
      && (role.value == "manager" ==> db.accounts.users[caller].role == Admin)
    ensures r.response.code != HttpOk ==> r.db == db
    ensures r.response.code == HttpOk ==>
      var u := db.accounts.users[target];
      var newRole := ParseDeclaredRole(role.value).value;
      && IsDeclaredRole(newRole) && RoleName(newRole) == role.value
      && r.db == db.(accounts := db.accounts.(users := db.accounts.users[target := u.(role := newRole)]))
    ensures Valid(db) ==> Valid(r.db)
  {
    if target !in db.accounts.users then Refuse(db, HttpNotFound, "User not found")
    else if role.None? || ParseDeclaredRole(role.value).None? then Refuse(db, HttpBadRequest, "Invalid role")
    else if role.value == "manager" && db.accounts.users[caller].role != Admin then
      Refuse(db, HttpForbidden, "Only admins can assign the manager role")
    else
      var u := db.accounts.users[target];
      var newRole := ParseDeclaredRole(role.value).value;
      Outcome(Response(HttpOk, role.value),
              db.(accounts := db.accounts.(users := db.accounts.users[target := u.(role := newRole)])))
  }

  /** No role update ever leaves a user with the undeclared default role. */
  lemma UpdateRoleNeverStoresVisitor(db: Db, caller: UserId, target: UserId, role: Option<string>)
    requires caller in db.accounts.users
    requires target in db.accounts.users && db.accounts.users[target].role != Visitor
    ensures UpdateRole(db, caller, target, role).db.accounts.users[target].role != Visitor
  {
  }

  // ---------------------------------------------------------------------------
  // UserPreferencesView.patch
  // ---------------------------------------------------------------------------

  /** The preferences patch is `dict.update`: keys the request supplies take
      the supplied values, every other key keeps its value. */
  ghost function PatchPreferences(db: Db, caller: UserId, patch: map<string, JsonText>): (r: Outcome)
    requires caller in db.accounts.users
    ensures r.response.code == HttpOk
    ensures caller in r.db.accounts.users
    ensures var before := db.accounts.users[caller].preferences;
      var after := r.db.accounts.users[caller].preferences;
      && after.Keys == before.Keys + patch.Keys
      && (forall k :: k in patch ==> after[k] == patch[k])
      && (forall k :: k in before && k !in patch ==> after[k] == before[k])
    ensures r.db == db.(accounts := db.accounts.(users := db.accounts.users[caller := db.accounts.users[caller].(preferences := r.db.accounts.users[caller].preferences)]))
    ensures Valid(db) ==> Valid(r.db)
  {
    var u := db.accounts.users[caller];
    var merged := u.preferences + patch;
    Outcome(Response(HttpOk, ""), db.(accounts := db.accounts.(users := db.accounts.users[caller := u.(preferences := merged)])))
  }

  /** Sending the same patch twice is the same as sending it once. */
  lemma PatchPreferencesIdempotent(db: Db, caller: UserId, patch: map<string, JsonText>)
    requires caller in db.accounts.users
    ensures var once := PatchPreferences(db, caller, patch).db;
      PatchPreferences(once, caller, patch).db == once
  {
    var once := PatchPreferences(db, caller, patch).db;
    var twice := PatchPreferences(once, caller, patch).db;
    var p1 := once.accounts.users[caller].preferences;
    assert p1 + patch == p1;
    assert twice.accounts.users == once.accounts.users;
  }

  // ---------------------------------------------------------------------------
  // RegisterView
  // ---------------------------------------------------------------------------

  predicate EmailTaken(users: map<UserId, User>, email: string)
  {
    exists id :: id in users && users[id].email == email
  }

  predicate UsernameTaken(users: map<UserId, User>, username: string)
  {
    exists id :: id in users && users[id].username == username
  }

  /** A new account under the next free id, with an e-mail nobody has, keeps
      referential integrity and e-mail uniqueness. */
  lemma AddUserKeepsValid(db: Db, u: User)
    requires !EmailTaken(db.accounts.users, u.email)
    ensures var id := db.accounts.nextUserId;
      Valid(db) ==> Valid(db.(accounts := db.accounts.(users := db.accounts.users[id := u], nextUserId := id + 1)))
  {
  }

  /** The username a registration stores: the one given, trimmed as the
      serializer's character fields trim their input, or the column's empty
      default. */
  function StoredUsername(username: Option<string>): string
  {
    if username.Some? then Strip(username.value) else []
  }

  /** The serializer's refusals (400): a request it finds malformed, a blank
      e-mail or one an account holds after trimming, or a supplied username
      that is blank or held by an account after trimming. */
  predicate Rejected(users: map<UserId, User>, email: string, username: Option<string>, wellFormed: bool)
  {
    || !wellFormed || IsBlank(email) || EmailTaken(users, Strip(email))
    || (username.Some? && (IsBlank(username.value) || UsernameTaken(users, Strip(username.value))))
  }

  /** Self-registration. Whatever the request says, the account is stored as a
      member and inactive. The view writes the role and the flag into the
      request data, which a form or multipart request holds immutable: such a
      request fails with 500 before anything else. The serializer trims the
      e-mail and the username before it checks them, so both are compared
      and stored without surrounding whitespace. `wellFormed` is the
      serializer's verdict on the rest of the request (the e-mail's shape and
      the other fields); a blank or taken e-mail, or a username that is blank
      or taken, fails validation. The username is optional, but an unset one
      is stored as the empty string under a unique column: once one account
      has it, the next registration without a username passes validation and
      fails at save with 500. */
  ghost function RegisterUser(db: Db, email: string, username: Option<string>, formEncoded: bool, wellFormed: bool): (r: Outcome)
    ensures formEncoded ==> r == Refuse(db, HttpServerError, "Server error")
    ensures !formEncoded && Rejected(db.accounts.users, email, username, wellFormed)
        ==> r == Refuse(db, HttpBadRequest, "Invalid registration")
    ensures r.response.code == HttpServerError && !formEncoded ==>
      r == Refuse(db, HttpServerError, "Server error") && username.None? && UsernameTaken(db.accounts.users, [])
    ensures !formEncoded && !Rejected(db.accounts.users, email, username, wellFormed)
        && username.None? && UsernameTaken(db.accounts.users, [])
        ==> r == Refuse(db, HttpServerError, "Server error")
    ensures r.response.code == HttpCreated <==>
      !formEncoded && !Rejected(db.accounts.users, email, username, wellFormed)
      && !UsernameTaken(db.accounts.users, StoredUsername(username))
    ensures r.response.code == HttpCreated ==>
      var id := db.accounts.nextUserId;
      && r.db.accounts.users == db.accounts.users[id := User(Strip(email), StoredUsername(username), Member, false, map[])]
      && r.db.accounts.nextUserId == id + 1
      && r.db == db.(accounts := db.accounts.(users := r.db.accounts.users, nextUserId := id + 1))
    ensures Valid(db) ==> Valid(r.db)
  {
    if formEncoded then Refuse(db, HttpServerError, "Server error")
    else if Rejected(db.accounts.users, email, username, wellFormed) then Refuse(db, HttpBadRequest, "Invalid registration")
    else if UsernameTaken(db.accounts.users, StoredUsername(username)) then Refuse(db, HttpServerError, "Server error")
    else
      var id := db.accounts.nextUserId;
      var u := User(Strip(email), StoredUsername(username), Member, false, map[]);
      AddUserKeepsValid(db, u);
      Outcome(Response(HttpCreated, "Registration successful. Your account is pending approval."),
              db.(accounts := db.accounts.(users := db.accounts.users[id := u], nextUserId := id + 1)))
  }

  /** Surrounding whitespace in the e-mail or the username makes no
      difference: a padded request is answered and stored exactly as the
      trimmed one. */
  lemma PaddingIsIgnored(db: Db, email: string, username: Option<string>, formEncoded: bool, wellFormed: bool)
    ensures var trimmed := if username.Some? then Some(Strip(username.value)) else None;
      RegisterUser(db, email, username, formEncoded, wellFormed)
        == RegisterUser(db, Strip(email), trimmed, formEncoded, wellFormed)
  {
    StripIdempotent(email);
    BlankIffStrippedBlank(email);
    if username.Some? {
      StripIdempotent(username.value);
      BlankIffStrippedBlank(username.value);
    }
  }

  /** A stored registration holds a non-empty e-mail with no surrounding
      whitespace, and a username with none either, non-empty when the
      request supplied one. */
  lemma RegisteredNamesAreTrimmed(db: Db, email: string, username: Option<string>, formEncoded: bool, wellFormed: bool)
    requires RegisterUser(db, email, username, formEncoded, wellFormed).response.code == HttpCreated
    ensures var u := RegisterUser(db, email, username, formEncoded, wellFormed).db.accounts.users[db.accounts.nextUserId];
      && u.email != [] && Trimmed(u.email) && Trimmed(u.username)
      && (username.Some? ==> u.username != [])
  {
    var r := RegisterUser(db, email, username, formEncoded, wellFormed);
    var u := User(Strip(email), StoredUsername(username), Member, false, map[]);
    assert r.db.accounts.users[db.accounts.nextUserId] == u;
    StrippedHasNoOuterSpace(email);
    if username.Some? {
      StrippedHasNoOuterSpace(username.value);
    }
  }

  /** Only the first account registered without a username can be created:
      after it, a well-formed JSON registration without a username, under a
      fresh e-mail, fails with 500. */
  lemma SecondUnnamedRegistrationFails(db: Db, first: string, second: string)
    requires RegisterUser(db, first, None, false, true).response.code == HttpCreated
    requires !IsBlank(second) && Strip(first) != Strip(second) && !EmailTaken(db.accounts.users, Strip(second))
    ensures var after := RegisterUser(db, first, None, false, true).db;
      RegisterUser(after, second, None, false, true).response.code == HttpServerError
  {
    var after := RegisterUser(db, first, None, false, true).db;
    var id := db.accounts.nextUserId;
    assert after.accounts.users == db.accounts.users[id := User(Strip(first), [], Member, false, map[])];
    assert UsernameTaken(after.accounts.users, []) by {
      assert after.accounts.users[id].username == [];
    }
    assert !EmailTaken(after.accounts.users, Strip(second));
  }

  // ---------------------------------------------------------------------------
  // PendingUserCountView
  // ---------------------------------------------------------------------------

  function Pending(users: map<UserId, User>): set<UserId>
  {
    set id | id in users && !users[id].isActive
  }

  /** The number of accounts awaiting approval. */
  function PendingUserCount(users: map<UserId, User>): (n: nat)
    ensures n <= |users|
    ensures n == 0 <==> forall id :: id in users ==> users[id].isActive
  {
    SubsetNoLarger(Pending(users), users.Keys);
    NonePendingIffAllActive(users);
    |Pending(users)|
  }

  lemma NonePendingIffAllActive(users: map<UserId, User>)
    ensures Pending(users) == {} <==> forall id :: id in users ==> users[id].isActive
  {
    if !forall id :: id in users ==> users[id].isActive {
      var id :| id in users && !users[id].isActive;
      assert id in Pending(users);
    }
  }

  /** Every successful registration adds one account to the pending count. */
  lemma RegistrationAwaitsApproval(db: Db, email: string, username: Option<string>, formEncoded: bool, wellFormed: bool)
    requires Valid(db)
    requires RegisterUser(db, email, username, formEncoded, wellFormed).response.code == HttpCreated
    ensures PendingUserCount(RegisterUser(db, email, username, formEncoded, wellFormed).db.accounts.users)
         == PendingUserCount(db.accounts.users) + 1
  {
    assert db.accounts.nextUserId !in db.accounts.users by {
      assert AccountsValid(db.accounts);
    }
    PendingGrows(db.accounts.users, db.accounts.nextUserId, User(Strip(email), StoredUsername(username), Member, false, map[]));
  }

  lemma PendingGrows(before: map<UserId, User>, n: UserId, u: User)
    requires n !in before && !u.isActive
    ensures PendingUserCount(before[n := u]) == PendingUserCount(before) + 1
  {
    assert Pending(before[n := u]) == Pending(before) + {n};
  }

  /** Activating an account that was pending takes it off the pending count. */
  lemma ActivationApproves(db: Db, caller: UserId, target: UserId)
    requires caller in db.accounts.users
    requires SetActive(db, caller, target, true).response.code == HttpOk
    requires !db.accounts.users[target].isActive
    ensures PendingUserCount(SetActive(db, caller, target, true).db.accounts.users) == PendingUserCount(db.accounts.users) - 1
  {
    var before := db.accounts.users;
    var after := SetActive(db, caller, target, true).db.accounts.users;
    assert Pending(before) == Pending(after) + {target};
  }
}
