/**
 * The authentication middleware: read the `Authorization` header, verify the
 * bearer token, load the user it names and attach that user to the request,
 * or answer 401 without calling the next stage.
 *
 * Token verification is a foreign library; it enters as a function from the
 * token string to a decoded payload or a failure reason.
 */
module Authenticate {
  import opened Common
  import opened Strings
  import AuthService

  const BearerPrefix := "Bearer "

  const NoToken := Failure(401, "Access denied. No token provided.")
  const UserGone := Failure(401, "Invalid token. User not found.")

  /** The catch branch, which echoes the verifier's error message. */
  function InvalidToken(reason: string): (r: Response)
    ensures r.status == 401 && !r.body.success && r.body.error == Some(reason)
    ensures r.body.message == "Invalid or expired token." && r.body.errors.None? && r.body.field.None?
  {
    Response(401, Body(false, "Invalid or expired token.", None, None, Some(reason)))
  }

  /** `req.user`: the columns selected by the lookup, never the password. */
  datatype RequestUser = RequestUser(id: Id, email: string, name: string, role: Role)

  function Projection(u: AuthService.User): (p: RequestUser)
    ensures p.id == u.id && p.email == u.email && p.name == u.name && p.role == u.role
  {
    RequestUser(u.id, u.email, u.name, u.role)
  }

  /** What `verifyToken` does with a token: decode it, or throw with a reason. */
  datatype Verified = Decoded(payload: AuthService.TokenPayload) | Rejected(reason: string)

  /** A header is present and starts with the exact, case-sensitive `"Bearer "`. */
  predicate HasBearer(header: Option<string>) {
    header.Some? && StartsWith(header.value, BearerPrefix)
  }

  /** `authHeader.substring(7)`. */
  function TokenOf(header: string): (token: string)
    requires StartsWith(header, BearerPrefix)
    ensures header == BearerPrefix + token
  {
    header[7..]
  }

  /** Building a header from a token and extracting it again gives the token back. */
  lemma {:induction false} TokenRoundTrip(token: string)
    ensures HasBearer(Some(BearerPrefix + token))
    ensures TokenOf(BearerPrefix + token) == token
  {
    assert (BearerPrefix + token)[..|BearerPrefix|] == BearerPrefix;
  }

  lemma PrefixIsCaseSensitive()
    ensures !HasBearer(Some("bearer abc")) && !HasBearer(Some("Bearer")) && !HasBearer(Some(""))
    ensures !HasBearer(None)
  {
    assert "bearer abc"[..7] != BearerPrefix by { assert "bearer abc"[0] == 'b'; }
  }

  datatype Decision = Proceed(user: RequestUser) | Reject(response: Response)

  /** The middleware's decision for a header, a user table and a verifier. */
  function Decide(header: Option<string>, users: map<Id, AuthService.User>,
                  verify: string -> Verified): (d: Decision)
    ensures d.Reject? ==> d.response.status == 401 && !d.response.body.success
    ensures d.Proceed? <==>
      && HasBearer(header)
      && verify(TokenOf(header.value)).Decoded?
      && verify(TokenOf(header.value)).payload.userId in users
    ensures d.Proceed? ==>
      d.user == Projection(users[verify(TokenOf(header.value)).payload.userId])
  {
    if !HasBearer(header) then Reject(NoToken)
    else
      match verify(TokenOf(header.value))
      case Rejected(reason) => Reject(InvalidToken(reason))
      case Decoded(payload) =>
        if payload.userId in users then Proceed(Projection(users[payload.userId]))
        else Reject(UserGone)
  }

  /**
   * The three ways to be refused are told apart: no bearer header, a token the
   * verifier rejects, a token for a user who no longer exists.
   */
  lemma RejectionReasons(header: Option<string>, users: map<Id, AuthService.User>, verify: string -> Verified)
    ensures !HasBearer(header) ==> Decide(header, users, verify) == Reject(NoToken)
    ensures HasBearer(header) && verify(TokenOf(header.value)).Rejected? ==>
      Decide(header, users, verify) == Reject(InvalidToken(verify(TokenOf(header.value)).reason))
    ensures HasBearer(header) && verify(TokenOf(header.value)).Decoded?
            && verify(TokenOf(header.value)).payload.userId !in users ==>
      Decide(header, users, verify) == Reject(UserGone)
  {
  }

  /** Without a bearer header neither the verifier nor the user table is consulted. */
  lemma NoHeaderNoLookup(header: Option<string>, users: map<Id, AuthService.User>, users': map<Id, AuthService.User>,
                         verify: string -> Verified, verify': string -> Verified)
    requires !HasBearer(header)
    ensures Decide(header, users, verify) == Decide(header, users', verify') == Reject(NoToken)
  {
  }

  /** The verifier is asked about nothing but the header with its first seven characters removed. */
  lemma OnlyTheTokenIsVerified(header: string, users: map<Id, AuthService.User>,
                               verify: string -> Verified, verify': string -> Verified)
    requires StartsWith(header, BearerPrefix)
    requires verify(header[7..]) == verify'(header[7..])
    ensures Decide(Some(header), users, verify) == Decide(Some(header), users, verify')
  {
  }

  /**
   * A token issued by `register` authenticates its holder, provided the
   * verifier decodes what the signer signed.
   */
  lemma RegisteredTokenAuthenticates(users: map<Id, AuthService.User>, reg: AuthService.Registration,
                                     creds: AuthService.Credentials, id: Id, stamp: nat, verify: string -> Verified)
    requires AuthService.WellFormed(users) && id !in users
    requires AuthService.RegisterStep(users, reg, creds, id, stamp).0.Ok?
    requires forall p :: verify(creds.sign(p)) == Decoded(p)
    ensures var (r, after) := AuthService.RegisterStep(users, reg, creds, id, stamp);
      var u := r.value.user;
      Decide(Some(BearerPrefix + r.value.token), after, verify) == Proceed(RequestUser(u.id, u.email, u.name, u.role))
  {
    var r := AuthService.RegisterStep(users, reg, creds, id, stamp).0;
    TokenRoundTrip(r.value.token);
  }

  /** An incoming request; only the header and the attached user matter here. */
  class Request {
    const authorization: Option<string>
    var user: Option<RequestUser>

    constructor (authorization: Option<string>)
      ensures this.authorization == authorization && user.None?
    {
      this.authorization := authorization;
      user := None;
    }
  }

  /** Whether the middleware called `next()` or sent a response. */
  datatype Outcome = Next | Responded(response: Response)

  /** `authenticate(req, res, next)`: `next` is called once, and only with `req.user` set. */
  method Authenticate(req: Request, users: map<Id, AuthService.User>, verify: string -> Verified)
    returns (outcome: Outcome)
    modifies req
    ensures match Decide(req.authorization, users, verify)
      case Proceed(u) => outcome == Next && req.user == Some(u)
      case Reject(response) => outcome == Responded(response) && req.user == old(req.user)
  {
    var header := req.authorization;
    if header.None? || !StartsWith(header.value, BearerPrefix) {
      return Responded(NoToken);
    }
    var token := header.value[7..];
    var decoded := verify(token);
    if decoded.Rejected? {
      return Responded(InvalidToken(decoded.reason));
    }
    var userId := decoded.payload.userId;
    if userId !in users {
      return Responded(UserGone);
    }
    req.user := Some(Projection(users[userId]));
    outcome := Next;
  }
}
