/** utils/auth.py: the credentials handed to the login widget, the current
    user read back from the session, and the role gate at the top of every
    protected page. The session is passed in as a value. */
module Auth {
  import opened Common

  /** One user's object in the users file: field name to text. */
  type Info = map<string, string>

  /** The users file's "usernames" object: username to that user's object. */
  type RawUsers = map<string, Info>

  /** What the login widget is given for one user. */
  datatype Credential = Credential(email: string, name: string, password: string)

  /** One user's credential: email defaults to "", name and password must be
      present (a missing one raises KeyError, here None). */
  function Project(info: Info): (r: Option<Credential>)
    ensures r.Some? <==> "name" in info && "password" in info
    ensures r.Some? ==> r.value.name == info["name"] && r.value.password == info["password"]
    ensures r.Some? ==> r.value.email == (if "email" in info then info["email"] else "")
  {
    if "name" in info && "password" in info then
      Some(Credential(if "email" in info then info["email"] else "", info["name"], info["password"]))
    else None
  }

  /** The credentials of every user, or None if some user lacks a name or a password. */
  function Credentials(data: RawUsers): Option<map<string, Credential>> {
    if forall u :: u in data ==> Project(data[u]).Some? then
      Some(map u | u in data :: Project(data[u]).value)
    else None
  }

  /** _load_credentials: the loop that copies email, name and password of
      every user, and only those. */
  method LoadCredentials(data: RawUsers) returns (r: Option<map<string, Credential>>)
    ensures r == Credentials(data)
    ensures r.Some? ==> r.value.Keys == data.Keys
  {
    var pending := data.Keys;
    var creds: map<string, Credential> := map[];
    while pending != {}
      invariant pending <= data.Keys
      invariant creds.Keys == data.Keys - pending
      invariant forall u :: u in creds ==> Project(data[u]) == Some(creds[u])
      decreases pending
    {
      var u :| u in pending;
      var c := Project(data[u]);
      if c.None? {
        return None;
      }
      creds := creds[u := c.value];
      pending := pending - {u};
    }
    assert creds == map u | u in data :: Project(data[u]).value;
    r := Some(creds);
  }

  /** The session values get_current_user reads. */
  datatype Session = Session(authenticated: bool, username: Option<string>, name: string, rawUsers: RawUsers)

  /** The user record get_current_user returns: these three keys only. */
  datatype CurrentUser = CurrentUser(username: Option<string>, name: string, role: string)

  /** get_current_user: None unless authenticated; the role comes from the
      users file and is "unknown" when the user or its role is not there. */
  function GetCurrentUser(s: Session): (r: Option<CurrentUser>)
    ensures r.Some? <==> s.authenticated
    ensures r.Some? ==> r.value.username == s.username && r.value.name == s.name
    ensures r.Some? ==> (r.value.role == "unknown" <==>
                         s.username.None? || s.username.value !in s.rawUsers ||
                         "role" !in s.rawUsers[s.username.value] ||
                         s.rawUsers[s.username.value]["role"] == "unknown")
  {
    if !s.authenticated then None
    else
      var info := if s.username.Some? && s.username.value in s.rawUsers then s.rawUsers[s.username.value] else map[];
      Some(CurrentUser(s.username, s.name, if "role" in info then info["role"] else "unknown"))
  }

  /** `user.get(k)` on the record get_current_user returns: only username,
      name and role are there; a None username reads as None. */
  function Field(u: CurrentUser, k: string): (r: Option<Value>)
    ensures r.Some? <==> k in {"username", "name", "role"}
  {
    if k == "username" then Some(if u.username.Some? then Str(u.username.value) else Null)
    else if k == "name" then Some(Str(u.name))
    else if k == "role" then Some(Str(u.role))
    else None
  }

  /** The signed-in user's email as the users file gives it, "" when it
      gives none. get_current_user does not pass it on (see Field). */
  function FileEmail(s: Session): (r: string)
    ensures s.username.Some? && s.username.value in s.rawUsers && "email" in s.rawUsers[s.username.value] ==>
              r == s.rawUsers[s.username.value]["email"]
    ensures s.username.None? || s.username.value !in s.rawUsers || "email" !in s.rawUsers[s.username.value] ==> r == ""
  {
    if s.username.Some? && s.username.value in s.rawUsers && "email" in s.rawUsers[s.username.value]
    then s.rawUsers[s.username.value]["email"] else ""
  }

  /** What a protected page does at its top. */
  datatype Gate = RedirectToLogin | Forbidden | Admitted(user: CurrentUser)

  /** require_role: redirect when not signed in, stop when the single role
      is not one of those listed, otherwise go on. */
  function RequireRole(s: Session, roles: seq<string>): (g: Gate)
    ensures g.RedirectToLogin? <==> !s.authenticated
    ensures g.Admitted? <==> s.authenticated && GetCurrentUser(s).value.role in roles
    ensures g.Admitted? ==> g.user == GetCurrentUser(s).value
  {
    if !s.authenticated then RedirectToLogin
    else
      var user := GetCurrentUser(s).value;
      if user.role in roles then Admitted(user) else Forbidden
  }

  /** The roles the dashboard and the waiver review admit. */
  const Reviewers: seq<string> := ["admin", "cadre", "flight_commander"]

  /** The role the waiver submission page admits. */
  const CadetOnly: seq<string> := ["cadet"]

  /** There is no role hierarchy: an admin is refused the cadet page and a
      cadet the reviewer pages, and a role the users file does not give
      ("unknown") is refused everywhere. */
  lemma NoRoleHierarchy(s: Session)
    requires s.authenticated
    ensures GetCurrentUser(s).value.role == "admin" ==> RequireRole(s, CadetOnly) == Forbidden
    ensures GetCurrentUser(s).value.role == "cadet" ==> RequireRole(s, Reviewers) == Forbidden
    ensures GetCurrentUser(s).value.role == "unknown" ==>
              RequireRole(s, CadetOnly) == Forbidden && RequireRole(s, Reviewers) == Forbidden
  {
  }

  /** The state init_auth keeps in the session: the credentials the
      authenticator was built from and the raw users file. */
  class AuthCache {
    var authenticator: Option<map<string, Credential>>
    var rawUsers: RawUsers

    constructor ()
      ensures authenticator.None? && rawUsers == map[]
    {
      authenticator := None;
      rawUsers := map[];
    }

    /** init_auth: the users file is read and the authenticator built only
      the first time; later calls reuse the cached one. False when reading
      the credentials raises. */
    method InitAuth(data: RawUsers) returns (ok: bool)
      modifies this
      ensures old(authenticator).Some? ==> ok && authenticator == old(authenticator) && rawUsers == old(rawUsers)
      ensures old(authenticator).None? ==> (ok <==> Credentials(data).Some?)
      ensures old(authenticator).None? && ok ==> authenticator == Credentials(data) && rawUsers == data
      ensures !ok ==> authenticator == old(authenticator) && rawUsers == old(rawUsers)
    {
      if authenticator.Some? {
        return true;
      }
      var creds := LoadCredentials(data);
      if creds.None? {
        return false;
      }
      authenticator := creds;
      rawUsers := data;
      ok := true;
    }
  }
}
