/**
 * The access gates in front of the handlers: token extraction and the
 * mapping of verification outcomes, the role gates, and the self-or-admin
 * and owner-or-admin checks. Each gate either lets the request through
 * (`Next`) or answers it (`Deny`).
 */
module AuthMiddleware {
  import opened Wrappers
  import opened Domain

  // ----------------------------------------------------- header parsing

  /** `s.split(' ')`: the pieces between single spaces; empty pieces are kept and there is always one. */
  function Split(s: string): (parts: seq<string>)
    ensures |parts| >= 1
    ensures forall i :: 0 <= i < |parts| ==> ' ' !in parts[i]
  {
    if s == [] then [""]
    else
      var rest := Split(s[1..]);
      if s[0] == ' ' then [""] + rest
      else [[s[0]] + rest[0]] + rest[1..]
  }

  /** `parts.join(' ')`, the inverse of `Split`. */
  function Join(parts: seq<string>): string
    requires |parts| >= 1
  {
    if |parts| == 1 then parts[0] else parts[0] + " " + Join(parts[1..])
  }

  /** Splitting and joining back gives the header unchanged. */
  lemma {:induction false} JoinSplit(s: string)
    ensures Join(Split(s)) == s
  {
    if s != [] {
      var rest := Split(s[1..]);
      JoinSplit(s[1..]);
      if s[0] == ' ' {
        assert Split(s) == [""] + rest;
        assert ([""] + rest)[1..] == rest;
        assert s == [s[0]] + s[1..];
      } else {
        var parts := Split(s);
        assert parts == [[s[0]] + rest[0]] + rest[1..];
        if |rest| == 1 {
          assert s == [s[0]] + rest[0];
        } else {
          assert parts[1..] == rest[1..];
          assert Join(rest) == rest[0] + " " + Join(rest[1..]);
          assert s == [s[0]] + s[1..];
        }
      }
    }
  }

  /** Joining space-free pieces and splitting again gives the same pieces. */
  lemma {:induction false} SplitJoin(parts: seq<string>)
    requires |parts| >= 1
    requires forall i :: 0 <= i < |parts| ==> ' ' !in parts[i]
    ensures Split(Join(parts)) == parts
  {
    if |parts| == 1 {
      SplitWord(parts[0], []);
      assert parts[0] + [] == parts[0];
      assert parts == [parts[0]];
    } else {
      var tail := " " + Join(parts[1..]);
      SplitJoin(parts[1..]);
      SplitWord(parts[0], tail);
      assert Split(tail) == [""] + parts[1..] by {
        assert tail[1..] == Join(parts[1..]);
      }
      assert parts[0] + " " + Join(parts[1..]) == parts[0] + tail;
      assert parts[0] + "" == parts[0];
      assert ([""] + parts[1..])[1..] == parts[1..];
      assert parts == [parts[0]] + parts[1..];
    }
  }

  /** A space-free word in front of a text joins onto the text's first piece. */
  lemma {:induction false} SplitWord(w: string, t: string)
    requires ' ' !in w
    ensures var rest := Split(t);
      Split(w + t) == [w + rest[0]] + rest[1..]
  {
    if w != [] {
      SplitWord(w[1..], t);
      assert (w + t)[1..] == w[1..] + t;
      assert w[0] != ' ' by { assert w[0] in w; }
      assert [w[0]] + (w[1..] + Split(t)[0]) == w + Split(t)[0];
    } else {
      var rest := Split(t);
      assert w + t == t;
      assert w + rest[0] == rest[0];
      assert rest == [rest[0]] + rest[1..];
    }
  }

  /**
   * `authHeader && authHeader.split(' ')[1]`: the second space-separated
   * piece of the header; no token when the header is absent or that piece
   * is missing or empty. The first piece is never looked at.
   */
  function BearerToken(header: Option<string>): (token: Option<string>)
    ensures token.Some? <==> header.Some? && |Split(header.value)| >= 2 && Split(header.value)[1] != ""
    ensures token.Some? ==> token.value == Split(header.value)[1] && token.value != "" && ' ' !in token.value
  {
    if header.None? then None
    else
      var parts := Split(header.value);
      if |parts| >= 2 && parts[1] != "" then Some(parts[1]) else None
  }

  /** A header `<scheme> <token>` yields the token, whatever the scheme word. */
  lemma BearerTokenRoundTrip(scheme: string, token: string)
    requires ' ' !in scheme && ' ' !in token && token != ""
    ensures BearerToken(Some(scheme + " " + token)) == Some(token)
  {
    SplitJoin([scheme, token]);
    assert Join([scheme, token]) == scheme + " " + token by {
      assert [scheme, token][1..] == [token];
    }
  }

  // ----------------------------------------------------- authenticateToken

  /** What `jwt.verify` does with a token: the id it carries, or the error it throws. */
  datatype VerifyResult = Verified(userId: Id) | JsonWebTokenError | TokenExpiredError | OtherError

  /**
   * `authenticateToken`: 401 without a token; 401 "Invalid token" for a
   * malformed token or one naming no user; 401 "Token expired"; 500 for any
   * other failure; otherwise the request proceeds as the named user.
   */
  function Authenticate(header: Option<string>, verify: string -> VerifyResult, users: map<Id, User>)
    : (r: Outcome<User>)
    ensures BearerToken(header).None? ==> r == Failure(Reply(401, "Access token required"))
    ensures BearerToken(header).Some? ==>
      var v := verify(BearerToken(header).value);
      && (v.JsonWebTokenError? ==> r == Failure(Reply(401, "Invalid token")))
      && (v.TokenExpiredError? ==> r == Failure(Reply(401, "Token expired")))
      && (v.OtherError? ==> r == Failure(InternalError))
      && (v.Verified? && v.userId !in users ==> r == Failure(Reply(401, "Invalid token")))
    ensures r.Success? <==>
      && BearerToken(header).Some?
      && verify(BearerToken(header).value).Verified?
      && verify(BearerToken(header).value).userId in users
    ensures r.Success? ==> r.value == users[verify(BearerToken(header).value).userId]
  {
    var token := BearerToken(header);
    if token.None? then Failure(Reply(401, "Access token required"))
    else
      match verify(token.value)
      case JsonWebTokenError => Failure(Reply(401, "Invalid token"))
      case TokenExpiredError => Failure(Reply(401, "Token expired"))
      case OtherError => Failure(InternalError)
      case Verified(id) =>
        if id in users then Success(users[id]) else Failure(Reply(401, "Invalid token"))
  }

  // ------------------------------------------------------------ role gates

  /** `authorizeRoles(...roles)`: 401 without a user, 403 for a role outside the list, else through. */
  function AuthorizeRoles(user: Option<User>, roles: seq<UserRole>): (d: Decision)
    ensures user.None? ==> d == Deny(Reply(401, "Authentication required"))
    ensures user.Some? ==> (d == Next <==> user.value.role in roles)
    ensures user.Some? && d.Deny? ==> d == Deny(Reply(403, "You don't have permission to perform this action"))
  {
    if user.None? then Deny(Reply(401, "Authentication required"))
    else if user.value.role !in roles then Deny(Reply(403, "You don't have permission to perform this action"))
    else Next
  }

  /** A longer role list lets through everyone a shorter one does. */
  lemma AuthorizeRolesMonotone(user: Option<User>, fewer: seq<UserRole>, more: seq<UserRole>)
    requires forall r :: r in fewer ==> r in more
    ensures AuthorizeRoles(user, fewer) == Next ==> AuthorizeRoles(user, more) == Next
  {
  }

  function IsAdmin(user: Option<User>): (d: Decision)
    ensures d == Next <==> user.Some? && user.value.role == Admin
  {
    AuthorizeRoles(user, [Admin])
  }

  function IsProjectManager(user: Option<User>): (d: Decision)
    ensures d == Next <==> user.Some? && (user.value.role == Admin || user.value.role == ProjectManager)
  {
    AuthorizeRoles(user, [Admin, ProjectManager])
  }

  function IsTeamLead(user: Option<User>): (d: Decision)
    ensures d == Next <==> user.Some? && user.value.role in {Admin, ProjectManager, TeamLead}
  {
    AuthorizeRoles(user, [Admin, ProjectManager, TeamLead])
  }

  /** The three gates are nested: each lets through everyone the stricter one does, and they refuse alike. */
  lemma RoleGatesNested(user: Option<User>)
    ensures IsAdmin(user) == Next ==> IsProjectManager(user) == Next
    ensures IsProjectManager(user) == Next ==> IsTeamLead(user) == Next
    ensures user.None? ==> IsAdmin(user) == IsProjectManager(user) == IsTeamLead(user)
  {
    AuthorizeRolesMonotone(user, [Admin], [Admin, ProjectManager]);
    AuthorizeRolesMonotone(user, [Admin, ProjectManager], [Admin, ProjectManager, TeamLead]);
  }

  // ------------------------------------------------------- ownership gates

  /** `canManageUser`: 401 without a user; through for an admin or for the user's own id; else 403. */
  function CanManageUser(user: Option<User>, targetUserId: Id): (d: Decision)
    ensures user.None? ==> d == Deny(Reply(401, "Authentication required"))
    ensures user.Some? ==> (d == Next <==> user.value.role == Admin || user.value.id == targetUserId)
    ensures user.Some? && d.Deny? ==> d == Deny(Reply(403, "You don't have permission to manage this user"))
  {
    if user.None? then Deny(Reply(401, "Authentication required"))
    else if user.value.role == Admin || user.value.id == targetUserId then Next
    else Deny(Reply(403, "You don't have permission to manage this user"))
  }

  /**
   * `canManageProject`: 401 without a user; an admin goes through without a
   * lookup, even for a project that does not exist; otherwise 404 for an
   * unknown project, through for its manager whatever their role, else 403.
   */
  function CanManageProject(user: Option<User>, projects: map<Id, Project>, projectId: Id): (d: Decision)
    ensures user.None? ==> d == Deny(Reply(401, "Authentication required"))
    ensures user.Some? && user.value.role == Admin ==> d == Next
    ensures user.Some? && user.value.role != Admin && projectId !in projects ==>
      d == Deny(Reply(404, "Project not found"))
    ensures user.Some? && user.value.role != Admin && projectId in projects ==>
      (d == Next <==> projects[projectId].projectManager == user.value.id)
    ensures d.Deny? && d.reply.code == 403 ==>
      d == Deny(Reply(403, "You don't have permission to manage this project"))
    ensures d == Next ==>
      user.Some? && (user.value.role == Admin ||
                     (projectId in projects && projects[projectId].projectManager == user.value.id))
  {
    if user.None? then Deny(Reply(401, "Authentication required"))
    else if user.value.role == Admin then Next
    else if projectId !in projects then Deny(Reply(404, "Project not found"))
    else if projects[projectId].projectManager == user.value.id then Next
    else Deny(Reply(403, "You don't have permission to manage this project"))
  }
}
