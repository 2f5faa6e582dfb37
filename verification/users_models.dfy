/** The account entities of users/models.py: CustomUser with its role and
    notification preferences, and the append-only ActivityLog. */
module UsersModels {
  import opened Common

  type UserId = nat

  /** The stored role. The model declares three choices; its default,
      "visitor", lies outside them, so the type admits it too. */
  datatype Role = Admin | Manager | Member | Visitor

  function RoleName(r: Role): string
  {
    match r
    case Admin => "admin"
    case Manager => "manager"
    case Member => "member"
    case Visitor => "visitor"
  }

  /** One of the three declared choices. */
  predicate IsDeclaredRole(r: Role)
  {
    r != Visitor
  }

  /** The role a request names, when it names one of the declared choices. */
  function ParseDeclaredRole(s: string): (r: Option<Role>)
    ensures r.Some? ==> IsDeclaredRole(r.value) && RoleName(r.value) == s
    ensures r.None? ==> forall x :: IsDeclaredRole(x) ==> RoleName(x) != s
  {
    if s == "admin" then Some(Admin)
    else if s == "manager" then Some(Manager)
    else if s == "member" then Some(Member)
    else None
  }

  /** Every declared role reads back from its own name. */
  lemma DeclaredRoleRoundTrip(r: Role)
    requires IsDeclaredRole(r)
    ensures ParseDeclaredRole(RoleName(r)) == Some(r)
  {
  }

  /** JSON values of the preferences object are kept as their serialized text. */
  type JsonText = string

  /** `username` is optional when registering; unset, it takes the column's
      implicit default, the empty string, and the column is unique. */
  datatype User = User(
    email: string,
    username: string,
    role: Role,
    isActive: bool,
    preferences: map<string, JsonText>)

  /** A user as the model's field defaults build it: empty username, role
      "visitor", active (the framework's default for is_active), no
      preferences. */
  function DefaultUser(email: string): (u: User)
    ensures u.email == email && u.username == [] && !IsDeclaredRole(u.role) && u.isActive && u.preferences == map[]
  {
    User(email, [], Visitor, true, map[])
  }

  datatype LogAction = Login | Logout | UpdateProfile | CreateResource | DeleteResource

  /** The text stored in the `action` column. */
  function ActionName(a: LogAction): string
  {
    match a
    case Login => "login"
    case Logout => "logout"
    case UpdateProfile => "update"
    case CreateResource => "create"
    case DeleteResource => "delete"
  }

  datatype ActivityLog = ActivityLog(
    user: UserId,
    action: LogAction,
    resource: Option<string>,
    timestamp: int)
}
