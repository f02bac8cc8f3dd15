/**
 * The role gate of the admin API (lib/auth/auth-server.ts): a role name is
 * checked against the allowed roles without regard to case, and a wrapped
 * route handler runs only for a signed-in user whose role is allowed. The
 * session and the user's role come from the auth library and the database;
 * here they are parameters: the signed-in user's id, if any, and a table from
 * user ids to the name of the user's role, if the user has one.
 */
module AuthServer {
  import opened Prelude
  import opened Strings

  /** `RoleName`. */
  datatype RoleName = Admin | Editor | Author | Subscriber

  function RoleText(role: RoleName): (s: string)
    ensures s != [] && Upper(s) == s
  {
    match role
    case Admin => "ADMIN"
    case Editor => "EDITOR"
    case Author => "AUTHOR"
    case Subscriber => "SUBSCRIBER"
  }

  /** The role a text names exactly, if any. */
  function RoleOf(s: string): (r: Option<RoleName>)
    ensures r.Some? ==> RoleText(r.value) == s
  {
    if s == "ADMIN" then Some(Admin)
    else if s == "EDITOR" then Some(Editor)
    else if s == "AUTHOR" then Some(Author)
    else if s == "SUBSCRIBER" then Some(Subscriber)
    else None
  }

  /** Every role's text names that role, and only that one. */
  lemma RoleOfText(role: RoleName)
    ensures RoleOf(RoleText(role)) == Some(role)
  {
  }

  /** `hasAnyRole`: a missing or empty role never passes; otherwise its upper-cased text must be an allowed role's. */
  function HasAnyRole(roleName: Option<string>, allowed: seq<RoleName>): (b: bool)
    ensures roleName.None? || roleName == Some("") ==> !b
    ensures b <==> roleName.Some? && roleName.value != [] && exists role :: role in allowed && RoleText(role) == Upper(roleName.value)
  {
    if roleName.None? || roleName.value == [] then false
    else
      var normalized := Upper(roleName.value);
      RoleOf(normalized).Some? && RoleOf(normalized).value in allowed
  }

  /** The check does not depend on the case the role was stored in. */
  lemma HasAnyRoleIgnoresCase(roleName: string, allowed: seq<RoleName>)
    ensures HasAnyRole(Some(Lower(roleName)), allowed) == HasAnyRole(Some(roleName), allowed)
    ensures HasAnyRole(Some(Upper(roleName)), allowed) == HasAnyRole(Some(roleName), allowed)
  {
    UpperOfLower(roleName);
    assert Upper(Upper(roleName)) == Upper(roleName);
  }

  /** Every allowed role passes, in any spelling of its case. */
  lemma AllowedRolePasses(role: RoleName, allowed: seq<RoleName>)
    requires role in allowed
    ensures HasAnyRole(Some(RoleText(role)), allowed)
    ensures HasAnyRole(Some(Lower(RoleText(role))), allowed)
  {
    HasAnyRoleIgnoresCase(RoleText(role), allowed);
  }

  /** `getUserRole`: no id, an unknown user or a user without a role give no role. */
  function GetUserRole(roles: map<string, Option<string>>, userId: Option<string>): (r: Option<string>)
    ensures userId.None? || userId == Some("") ==> r.None?
    ensures r.Some? <==> userId.Some? && userId.value != [] && userId.value in roles && roles[userId.value].Some?
    ensures r.Some? ==> r == roles[userId.value]
  {
    if userId.None? || userId.value == [] then None
    else if userId.value in roles then roles[userId.value]
    else None
  }

  /** What the wrapped handler does with a request, as the code is written: the handler sees the role text as stored. */
  datatype RawDecision = RawUnauthorized | RawCallHandler(userId: string, roleName: string)

  /** `withAuth`, as written: the stored role text is passed on, whatever its case. */
  function WithAuthAsWritten(sessionUserId: Option<string>, roles: map<string, Option<string>>, allowed: seq<RoleName>): (d: RawDecision)
    ensures sessionUserId.None? || sessionUserId == Some("") ==> d == RawUnauthorized
    ensures d.RawCallHandler? <==> sessionUserId.Some? && sessionUserId.value != [] && HasAnyRole(GetUserRole(roles, sessionUserId), allowed)
    ensures d.RawCallHandler? ==> d.userId == sessionUserId.value && Some(d.roleName) == GetUserRole(roles, sessionUserId)
  {
    if sessionUserId.None? || sessionUserId.value == [] then RawUnauthorized
    else
      var roleName := GetUserRole(roles, sessionUserId);
      if !HasAnyRole(roleName, allowed) then RawUnauthorized
      else RawCallHandler(sessionUserId.value, roleName.value)
  }

  /** A role stored in lower case passes the gate, and the handler then holds a text that is no `RoleName`. */
  lemma WithAuthPassesUnnormalisedRole()
    ensures WithAuthAsWritten(Some("u1"), map["u1" := Some("admin")], [Admin]) == RawCallHandler("u1", "admin")
    ensures RoleOf("admin").None?
  {
    assert Upper("admin") == "ADMIN";
  }

  /** What the wrapped handler does with a request: refuse it, or run the handler once with the user and the role. */
  datatype Decision = Unauthorized | CallHandler(userId: string, role: RoleName)

  /** `withAuth` with the role handed over as the `RoleName` the check matched. */
  function WithAuth(sessionUserId: Option<string>, roles: map<string, Option<string>>, allowed: seq<RoleName>): (d: Decision)
    ensures sessionUserId.None? || sessionUserId == Some("") ==> d == Unauthorized
    ensures d.CallHandler? <==> sessionUserId.Some? && sessionUserId.value != [] && HasAnyRole(GetUserRole(roles, sessionUserId), allowed)
    ensures d.CallHandler? ==> d.userId == sessionUserId.value && d.role in allowed
    ensures d.CallHandler? ==> RoleText(d.role) == Upper(GetUserRole(roles, sessionUserId).value)
  {
    if sessionUserId.None? || sessionUserId.value == [] then Unauthorized
    else
      var roleName := GetUserRole(roles, sessionUserId);
      if !HasAnyRole(roleName, allowed) then Unauthorized
      else CallHandler(sessionUserId.value, RoleOf(Upper(roleName.value)).value)
  }

  /** The two agree on whether the handler runs and for whom; they differ only in the role handed over. */
  lemma WithAuthAgrees(sessionUserId: Option<string>, roles: map<string, Option<string>>, allowed: seq<RoleName>)
    ensures WithAuth(sessionUserId, roles, allowed).CallHandler? <==> WithAuthAsWritten(sessionUserId, roles, allowed).RawCallHandler?
    ensures WithAuth(sessionUserId, roles, allowed).CallHandler? ==>
      WithAuth(sessionUserId, roles, allowed).userId == WithAuthAsWritten(sessionUserId, roles, allowed).userId
      && RoleText(WithAuth(sessionUserId, roles, allowed).role) == Upper(WithAuthAsWritten(sessionUserId, roles, allowed).roleName)
  {
  }
}
