/**
 * The auth service over an in-memory user table.
 *
 * Password hashing, password comparison and token signing are foreign
 * libraries; they enter the model as the function values of `Credentials`,
 * about which nothing is assumed unless a lemma says so.
 */
module AuthService {
  import opened Common

  /** A row of the user table; `password` holds the hash, never the plaintext. */
  datatype User = User(id: Id, email: string, password: string, name: string, role: Role, createdAt: nat)

  /** The fields a client may see: every column but `password`. */
  datatype PublicUser = PublicUser(id: Id, email: string, name: string, role: Role, createdAt: nat)

  /** What a token encodes. */
  datatype TokenPayload = TokenPayload(userId: Id, role: Role)

  /** `hashPassword`, `comparePassword` and `generateToken`. */
  datatype Credentials = Credentials(
    hash: string -> string,
    compare: (string, string) -> bool,
    sign: TokenPayload -> string)

  /** The `{ user, token }` that register and login return. */
  datatype Session = Session(user: PublicUser, token: string)

  /** The body `register` receives; `role` may be omitted. */
  datatype Registration = Registration(email: string, password: string, name: string, role: Option<Role>)

  const DefaultRole := Viewer
  const EmailTaken := AppError(409, "User with this email already exists")
  const InvalidCredentials := AppError(401, "Invalid email or password")

  function Public(u: User): (p: PublicUser)
    ensures p.id == u.id && p.email == u.email && p.name == u.name && p.role == u.role
    ensures p.createdAt == u.createdAt
  {
    PublicUser(u.id, u.email, u.name, u.role, u.createdAt)
  }

  /** The payload `generateToken` signs for a user, in register and login alike. */
  function PayloadOf(u: User): (p: TokenPayload)
    ensures p.userId == u.id && p.role == u.role
  {
    TokenPayload(u.id, u.role)
  }

  /** The unique index on `email`. */
  ghost predicate EmailsUnique(users: map<Id, User>) {
    forall i, j | i in users && j in users && users[i].email == users[j].email :: i == j
  }

  /** Every row is stored under its own id and emails are unique. */
  ghost predicate WellFormed(users: map<Id, User>) {
    (forall id | id in users :: users[id].id == id) && EmailsUnique(users)
  }

  predicate HasEmail(users: map<Id, User>, email: string) {
    exists id | id in users :: users[id].email == email
  }

  /** `prisma.user.findUnique({ where: { email } })`. */
  function FindByEmail(users: map<Id, User>, email: string): (r: Option<User>)
    requires EmailsUnique(users)
    ensures r.Some? <==> HasEmail(users, email)
    ensures r.Some? ==> r.value.email == email && exists id | id in users :: users[id] == r.value
  {
    if HasEmail(users, email) then
      var id :| id in users && users[id].email == email;
      Some(users[id])
    else None
  }

  /** The row `register` inserts: the role defaults to VIEWER and the password is stored hashed. */
  function NewUser(reg: Registration, creds: Credentials, id: Id, stamp: nat): (u: User)
    ensures u.id == id && u.email == reg.email && u.name == reg.name && u.createdAt == stamp
    ensures u.password == creds.hash(reg.password)
    ensures u.role == if reg.role.None? then DefaultRole else reg.role.value
  {
    User(id, reg.email, creds.hash(reg.password), reg.name,
         if reg.role.Some? then reg.role.value else DefaultRole, stamp)
  }

  /**
   * `register`: a taken email fails 409 and leaves the table as it was;
   * otherwise exactly one row is added and the caller gets its public
   * projection and a token for `{ userId, role }`.
   */
  function RegisterStep(users: map<Id, User>, reg: Registration, creds: Credentials, id: Id, stamp: nat)
    : (out: (Result<Session>, map<Id, User>))
    requires EmailsUnique(users) && id !in users
    ensures EmailsUnique(out.1)
    ensures HasEmail(users, reg.email) ==> out == (Err(EmailTaken), users)
    ensures out.0.Ok? <==> !HasEmail(users, reg.email)
    ensures out.0.Ok? ==>
      var u := NewUser(reg, creds, id, stamp);
      && out.1 == users[id := u]
      && out.0.value == Session(Public(u), creds.sign(PayloadOf(u)))
  {
    if FindByEmail(users, reg.email).Some? then (Err(EmailTaken), users)
    else
      var u := NewUser(reg, creds, id, stamp);
      InsertKeepsEmailsUnique(users, u);
      (Ok(Session(Public(u), creds.sign(PayloadOf(u)))), users[id := u])
  }

  lemma InsertKeepsEmailsUnique(users: map<Id, User>, u: User)
    requires EmailsUnique(users) && u.id !in users && !HasEmail(users, u.email)
    ensures EmailsUnique(users[u.id := u])
  {
    assert forall j | j in users :: users[j].email != u.email;
  }

  /**
   * `login`: an unknown email and a wrong password produce the same error;
   * on success the stored row, without its password, and a token for it.
   */
  function Login(users: map<Id, User>, creds: Credentials, email: string, password: string)
    : (r: Result<Session>)
    requires EmailsUnique(users)
    ensures r.Err? ==> r.error == InvalidCredentials
    ensures r.Ok? <==> exists id | id in users ::
      users[id].email == email && creds.compare(password, users[id].password)
    ensures r.Ok? ==> exists id | id in users ::
      && users[id].email == email
      && r.value == Session(Public(users[id]), creds.sign(PayloadOf(users[id])))
  {
    match FindByEmail(users, email)
    case None => Err(InvalidCredentials)
    case Some(user) =>
      if !creds.compare(password, user.password) then Err(InvalidCredentials)
      else Ok(Session(Public(user), creds.sign(PayloadOf(user))))
  }

  /** Both ways of failing a login look the same to the client. */
  lemma LoginFailuresIdentical(users: map<Id, User>, creds: Credentials, email: string, password: string,
                               other: string)
    requires EmailsUnique(users)
    requires !HasEmail(users, other)
    requires Login(users, creds, email, password).Err?
    ensures Login(users, creds, email, password) == Login(users, creds, other, password)
  {
  }

  /** Registering keeps every row under its own id (emails stay unique by RegisterStep). */
  lemma RegisterPreservesInvariant(users: map<Id, User>, reg: Registration, creds: Credentials, id: Id, stamp: nat)
    requires WellFormed(users) && id !in users
    ensures WellFormed(RegisterStep(users, reg, creds, id, stamp).1)
  {
  }

  /** A second registration with the same email fails 409, whatever else it carries. */
  lemma RegisterTwiceConflicts(users: map<Id, User>, reg: Registration, again: Registration, creds: Credentials,
                               id: Id, id2: Id, stamp: nat, stamp2: nat)
    requires WellFormed(users) && id !in users
    requires RegisterStep(users, reg, creds, id, stamp).0.Ok?
    requires again.email == reg.email && id2 !in RegisterStep(users, reg, creds, id, stamp).1
    ensures var after := RegisterStep(users, reg, creds, id, stamp).1;
      RegisterStep(after, again, creds, id2, stamp2) == (Err(EmailTaken), after)
  {
    var after := RegisterStep(users, reg, creds, id, stamp).1;
    assert after[id].email == again.email;
  }

  /**
   * Logging in with the password just registered returns the registered user
   * and the same token payload, provided the comparison accepts a password
   * against its own hash.
   */
  lemma RegisterThenLogin(users: map<Id, User>, reg: Registration, creds: Credentials, id: Id, stamp: nat)
    requires WellFormed(users) && id !in users
    requires RegisterStep(users, reg, creds, id, stamp).0.Ok?
    requires creds.compare(reg.password, creds.hash(reg.password))
    ensures var (r, after) := RegisterStep(users, reg, creds, id, stamp);
      Login(after, creds, reg.email, reg.password) == r
  {
    var after := RegisterStep(users, reg, creds, id, stamp).1;
    assert after[id].email == reg.email;
    assert FindByEmail(after, reg.email) == Some(after[id]);
  }

  // ------------------------------------------------------------------ the table

  class UserTable {
    var users: map<Id, User>
    var clock: nat

    ghost predicate Valid()
      reads this
    {
      WellFormed(users)
    }

    constructor ()
      ensures Valid() && users == map[] && clock == 0
    {
      users := map[];
      clock := 0;
    }

    /** `register`; `id` is the fresh UUID the database generates. */
    method Register(reg: Registration, creds: Credentials, id: Id) returns (r: Result<Session>)
      requires Valid() && id !in users
      modifies this
      ensures Valid()
      ensures (r, users) == RegisterStep(old(users), reg, creds, id, old(clock))
      ensures clock == if r.Ok? then old(clock) + 1 else old(clock)
    {
      var existing := FindByEmail(users, reg.email);
      if existing.Some? {
        r := Err(EmailTaken);
        return;
      }
      var hashed := creds.hash(reg.password);
      var role := if reg.role.Some? then reg.role.value else DefaultRole;
      var user := User(id, reg.email, hashed, reg.name, role, clock);
      users := users[id := user];
      clock := clock + 1;
      var token := creds.sign(PayloadOf(user));
      r := Ok(Session(Public(user), token));
    }

  }
}
