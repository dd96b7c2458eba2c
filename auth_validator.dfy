/**
 * The auth request schemas as predicates over a request. The email format
 * check belongs to the schema library and is a parameter here.
 */
module AuthValidator {
  import opened Common
  import opened Schema
  import AuthService

  const Roles: set<string> := {"ADMIN", "EDITOR", "VIEWER"}

  /** `z.string().email(...)`. */
  predicate EmailField(f: Fields, isEmail: string -> bool) {
    "email" in f && f["email"].Str? && isEmail(f["email"].s)
  }

  /** `registerSchema`. */
  predicate RegisterSchema(req: Request, isEmail: string -> bool) {
    && EmailField(req.body, isEmail)
    && RequiredString(req.body, "password", 6, Some(100))
    && RequiredString(req.body, "name", 2, Some(100))
    && OptionalOneOf(req.body, "role", Roles)
  }

  /** `loginSchema`. */
  predicate LoginSchema(req: Request, isEmail: string -> bool) {
    && EmailField(req.body, isEmail)
    && RequiredString(req.body, "password", 1, None)
  }

  /** What an accepted registration guarantees about its fields. */
  lemma RegisterBounds(req: Request, isEmail: string -> bool)
    requires RegisterSchema(req, isEmail)
    ensures 6 <= |req.body["password"].s| <= 100
    ensures 2 <= |req.body["name"].s| <= 100
    ensures "role" in req.body ==> req.body["role"] in {Str("ADMIN"), Str("EDITOR"), Str("VIEWER")}
    ensures isEmail(req.body["email"].s)
  {
  }

  /** Role names are matched exactly: a lower-case role is refused. */
  lemma RoleIsCaseSensitive(req: Request, isEmail: string -> bool)
    ensures !RegisterSchema(req.(body := req.body["role" := Str("admin")]), isEmail)
  {
    assert "admin" !in Roles by { assert "admin"[0] != "ADMIN"[0]; }
  }

  /** Whatever can register can log in; the empty password cannot. */
  lemma RegisteredCredentialsPassLogin(req: Request, isEmail: string -> bool)
    ensures RegisterSchema(req, isEmail) ==> LoginSchema(req, isEmail)
    ensures !LoginSchema(req.(body := req.body["password" := Str("")]), isEmail)
  {
  }

  function RoleOf(s: string): (r: Role)
    requires s in Roles
    ensures r == Admin <==> s == "ADMIN"
    ensures r == Editor <==> s == "EDITOR"
  {
    if s == "ADMIN" then Admin else if s == "EDITOR" then Editor else Viewer
  }

  /** The arguments `register` receives for an accepted body. */
  function RegistrationOf(req: Request, isEmail: string -> bool): (reg: AuthService.Registration)
    requires RegisterSchema(req, isEmail)
    ensures reg.email == req.body["email"].s && reg.password == req.body["password"].s
    ensures reg.name == req.body["name"].s
    ensures reg.role.None? <==> "role" !in req.body
    ensures "role" in req.body ==> reg.role == Some(RoleOf(req.body["role"].s))
  {
    AuthService.Registration(
      req.body["email"].s, req.body["password"].s, req.body["name"].s,
      if "role" in req.body then Some(RoleOf(req.body["role"].s)) else None)
  }
}
