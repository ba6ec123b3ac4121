/** backend/middleware/authMiddleware.js: reading the Bearer token from the
    Authorization header, resolving it to the stored user (`authenticate`,
    `optionalAuth`), and the role gate `authorize(...roles)`.

    Signature checking (`jwt.verify`) is an oracle passed in by the caller:
    it yields the token's claims, or None when the library throws because the
    token is invalid or expired (both answered with 401). */
module AuthMiddleware {
  import opened Common
  import opened Schema

  /** `req.user` as the middleware sets it. */
  datatype AuthUser = AuthUser(userId: nat, email: string, role: Role, name: string)

  /** The payload the login handler signs into a token. */
  datatype Claims = Claims(userId: nat, email: string, role: Role)

  type Verifier = string -> Option<Claims>

  /** What a middleware does: call `next()`, or answer with an error status. */
  datatype Gate = Next | Reject(error: Error)

  /** `authorize(...roles)`: 401 without an authenticated user, 403 when the
      user's role is not listed, otherwise `next()`. */
  function Authorize(roles: seq<Role>, user: Option<AuthUser>): (g: Gate)
    ensures g == Next <==> user.Some? && user.value.role in roles
    ensures g == Reject(Unauthorized) <==> user.None?
    ensures g == Reject(Forbidden) <==> user.Some? && user.value.role !in roles
  {
    if user.None? then Reject(Unauthorized)
    else if user.value.role !in roles then Reject(Forbidden)
    else Next
  }

  const BearerPrefix: string := "Bearer "

  /** The characters of `s` before its first space. */
  function FirstField(s: string): (f: string)
    ensures ' ' !in f
    ensures StartsWith(s, f)
    ensures |f| == |s| || s[|f|] == ' '
  {
    if s == [] || s[0] == ' ' then [] else [s[0]] + FirstField(s[1..])
  }

  /** `s.split(" ")`: the fields between single spaces, empty ones included. */
  function SplitOnSpace(s: string): (r: seq<string>)
    ensures |r| >= 1
    decreases |s|
  {
    var f := FirstField(s);
    if |f| == |s| then [s] else [f] + SplitOnSpace(s[|f| + 1..])
  }

  /** A space-free prefix followed by a space is the first field. */
  lemma {:induction false} FirstFieldOfPrefix(p: string, s: string)
    requires ' ' !in p
    requires |p| < |s| && s[..|p|] == p && s[|p|] == ' '
    ensures FirstField(s) == p
  {
    if p != [] {
      FirstFieldOfPrefix(p[1..], s[1..]);
    }
  }

  /** The token: the field after "Bearer", when the header starts with "Bearer ". */
  function BearerToken(header: Option<string>): (tok: Option<string>)
    ensures tok.Some? <==> header.Some? && StartsWith(header.value, BearerPrefix)
    ensures tok.Some? ==> |SplitOnSpace(header.value)| >= 2 && tok.value == SplitOnSpace(header.value)[1]
    ensures tok.Some? ==> ' ' !in tok.value && StartsWith(header.value, BearerPrefix + tok.value)
  {
    if header.Some? && StartsWith(header.value, BearerPrefix) then
      var h := header.value;
      FirstFieldOfPrefix("Bearer", h);
      assert h[7..] == h[|FirstField(h)| + 1..];
      var tok := FirstField(h[7..]);
      assert h[..7 + |tok|] == BearerPrefix + tok by {
        assert h[..7] == BearerPrefix;
        assert h[7..][..|tok|] == tok;
      }
      Some(tok)
    else None
  }

  /** `req.user` built from the stored row, whatever the token's claims say. */
  function UserInfo(id: nat, u: User): AuthUser {
    AuthUser(id, u.email, u.role, u.name)
  }

  /** `authenticate`: 401 when there is no usable Bearer header, when the
      token does not verify, or when its user no longer exists; otherwise
      the stored user. */
  function Authentication(t: Tables, header: Option<string>, verify: Verifier): (r: Result<AuthUser>)
    ensures BearerToken(header).None? ==> r == Fail(Unauthorized)
    ensures r.Fail? ==> r.error == Unauthorized
    ensures r.Ok? <==> BearerToken(header).Some? && verify(BearerToken(header).value).Some?
                       && verify(BearerToken(header).value).value.userId in t.users
    ensures r.Ok? ==> var id := verify(BearerToken(header).value).value.userId;
                      r.value == UserInfo(id, t.users[id])
  {
    match BearerToken(header)
    case None => Fail(Unauthorized)
    case Some(token) =>
      match verify(token)
      case None => Fail(Unauthorized)
      case Some(claims) =>
        if claims.userId in t.users then Ok(UserInfo(claims.userId, t.users[claims.userId]))
        else Fail(Unauthorized)
  }

  /** The role the gates see is the stored one: a token signed before the
      user's role changed authenticates with the new role. */
  lemma {:induction false} RoleComesFromStore(t: Tables, header: Option<string>, verify: Verifier)
    requires Authentication(t, header, verify).Ok?
    ensures var u := Authentication(t, header, verify).value;
            u.userId in t.users && u.role == t.users[u.userId].role
  {
  }

  /** An incoming request: its Authorization header and the user the
      middleware attaches. */
  class Request {
    const authorization: Option<string>
    var user: Option<AuthUser>

    constructor (authorization: Option<string>)
      ensures this.authorization == authorization && user == None
    {
      this.authorization := authorization;
      user := None;
    }
  }

  /** `authenticate`: on success `req.user` is set and `next()` is called. */
  method Authenticate(req: Request, db: Database, verify: Verifier) returns (g: Gate)
    modifies req
    ensures var a := Authentication(db.State(), req.authorization, verify);
            && (g == Next <==> a.Ok?)
            && (a.Ok? ==> req.user == Some(a.value))
            && (a.Fail? ==> g == Reject(Unauthorized) && req.user == old(req.user))
  {
    var header := req.authorization;
    if header.None? || !StartsWith(header.value, BearerPrefix) {
      return Reject(Unauthorized);
    }
    assert BearerToken(header).Some?;
    var token := SplitOnSpace(header.value)[1];
    var decoded := verify(token);
    if decoded.None? {
      return Reject(Unauthorized);
    }
    var id := decoded.value.userId;
    if id !in db.users {
      return Reject(Unauthorized);
    }
    var row := db.users[id];
    req.user := Some(AuthUser(id, row.email, row.role, row.name));
    g := Next;
  }

  /** `optionalAuth`: never answers; sets `req.user` only when the header,
      the token and the user all check out. */
  method OptionalAuth(req: Request, db: Database, verify: Verifier) returns (g: Gate)
    modifies req
    ensures g == Next
    ensures var a := Authentication(db.State(), req.authorization, verify);
            req.user == if a.Ok? then Some(a.value) else old(req.user)
  {
    var header := req.authorization;
    if header.None? || !StartsWith(header.value, BearerPrefix) {
      return Next;
    }
    assert BearerToken(header).Some?;
    var token := SplitOnSpace(header.value)[1];
    var decoded := verify(token);
    if decoded.Some? && decoded.value.userId in db.users {
      var row := db.users[decoded.value.userId];
      req.user := Some(AuthUser(decoded.value.userId, row.email, row.role, row.name));
    }
    g := Next;
  }

  /** A request that `authenticate` lets through passes `authorize(roles)`
      exactly when the stored role is listed. */
  lemma AuthenticatedGate(t: Tables, header: Option<string>, verify: Verifier, roles: seq<Role>)
    requires Authentication(t, header, verify).Ok?
    ensures var u := Authentication(t, header, verify).value;
            Authorize(roles, Some(u)) == Next <==> t.users[u.userId].role in roles
  {
  }
}
