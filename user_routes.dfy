/** The `/api/users` handlers: the second registration route, the local
    login decision, and the profile and admin pages behind this file's own
    authentication gate. The password check is the `matches` parameter
    (bcrypt's comparison of a password against a stored hash); the session
    is the user it holds, if any. */
module UserRoutes {
  import opened Wrappers
  import opened Text
  import opened UserSchema

  /** The registration body; an absent field is "". */
  datatype RegisterBody = RegisterBody(
    username: string,
    phoneNumber: string,
    aadharNumber: string,
    email: string,
    password: string,
    role: string)

  const AllFieldsRequired := "All fields are required."

  const DuplicatePrefix := "A user with this "
  const DuplicateSuffix := " already exists."

  /** The message for a duplicate-key error on `field`. */
  function DuplicateUserMessage(field: string): (m: string)
    ensures |m| == |DuplicatePrefix| + |field| + |DuplicateSuffix|
    ensures m[..|DuplicatePrefix|] == DuplicatePrefix
    ensures m[|DuplicatePrefix|..|DuplicatePrefix| + |field|] == field
    ensures m[|DuplicatePrefix| + |field|..] == DuplicateSuffix
  {
    DuplicatePrefix + field + DuplicateSuffix
  }

  /** The role the route stores: the body's when present, otherwise "user". */
  function StoredRole(body: RegisterBody): (r: string)
    ensures r == "user" || r == body.role
    ensures r == "user" <==> body.role == "" || body.role == "user"
  {
    if body.role != "" then body.role else "user"
  }

  function NewUser(id: string, body: RegisterBody): User {
    Construct(id, UserInput(body.username, body.phoneNumber, body.aadharNumber, body.email, body.password,
                            Some(StoredRole(body))))
  }

  /** `POST /register`: the five fields must be present; then `save()`
      decides, its duplicate-key and validation errors becoming 400s. */
  function RegisterUser(users: seq<User>, body: RegisterBody, newId: string): (Reply<string>, seq<User>) {
    if !AllPresent(body) then (Fail(400, AllFieldsRequired), users)
    else
      var u := NewUser(newId, body);
      match Save(users, u)
      case Saved(v) => (Ok(201, "User registered successfully."), users + [v])
      case DuplicateKey(field) => (Fail(400, DuplicateUserMessage(field)), users)
      case ValidationError => (Fail(400, "Validation error."), users)
  }

  predicate AllPresent(body: RegisterBody) {
    body.username != "" && body.phoneNumber != "" && body.aadharNumber != ""
    && body.email != "" && body.password != ""
  }

  /** The refusals of registration, in order: the required-field check;
      then the document's own validation; then the first unique index the
      new user would violate, named in the message. Each is a 400 that
      stores nothing. */
  lemma {:induction false} RegisterUserRefusals(users: seq<User>, body: RegisterBody, newId: string)
    ensures var (reply, after) := RegisterUser(users, body, newId);
      var u := NewUser(newId, body);
      && (!AllPresent(body) ==> reply == Fail(400, AllFieldsRequired))
      && (AllPresent(body) && !Validates(u) ==> reply == Fail(400, "Validation error."))
      && ((AllPresent(body) && Validates(u) && Taken(users, "aadharNumber", u.aadharNumber))
            ==> reply == Fail(400, "A user with this aadharNumber already exists."))
      && ((AllPresent(body) && Validates(u) && !Taken(users, "aadharNumber", u.aadharNumber)
           && Taken(users, "email", u.email))
            ==> reply == Fail(400, "A user with this email already exists."))
      && ((AllPresent(body) && Validates(u) && !Taken(users, "aadharNumber", u.aadharNumber)
           && !Taken(users, "email", u.email) && Taken(users, "username", u.username))
            ==> reply == Fail(400, "A user with this username already exists."))
      && (reply.Fail? ==> reply.status == 400 && after == users)
  {
    var u := NewUser(newId, body);
    if AllPresent(body) && Validates(u) {
      AadharUserMessage();
      EmailUserMessage();
      UsernameUserMessage();
      var c := Conflict(users, u);
      PreSaveCleaningInert(u);
      assert Save(users, u) == if c.Some? then DuplicateKey(c.value) else Saved(u);
    }
  }

  /** Examples of `DuplicateUserMessage` for the three unique fields. */
  lemma {:induction false} AadharUserMessage()
    ensures DuplicateUserMessage("aadharNumber") == "A user with this aadharNumber already exists."
  {
  }

  lemma {:induction false} EmailUserMessage()
    ensures DuplicateUserMessage("email") == "A user with this email already exists."
  {
  }

  lemma {:induction false} UsernameUserMessage()
    ensures DuplicateUserMessage("username") == "A user with this username already exists."
  {
  }

  /** A request passing the field check is stored exactly when the document
      validates and violates no unique index, and storing it keeps the
      collection consistent. */
  lemma {:induction false} RegisterUserStores(users: seq<User>, body: RegisterBody, newId: string)
    requires Consistent(users)
    ensures var (reply, after) := RegisterUser(users, body, newId);
      var u := NewUser(newId, body);
      && (reply.Ok? <==> AllPresent(body) && Validates(u) && Conflict(users, u).None?)
      && (reply.Ok? ==> after == users + [u] && Consistent(after))
  {
    var u := NewUser(newId, body);
    if AllPresent(body) && Save(users, u).Saved? {
      SaveKeepsConsistent(users, u);
    }
  }

  /** The role comes from the request body, so a client can register itself
      as an admin; without a role it is a plain user. */
  lemma {:induction false} RoleFromBody(users: seq<User>, body: RegisterBody, newId: string)
    requires RegisterUser(users, body, newId).0.Ok?
    ensures var stored := RegisterUser(users, body, newId).1;
      && |stored| == |users| + 1
      && stored[|users|].role == (if body.role == "" then "user" else body.role)
      && (body.role == "admin" ==> stored[|users|].role == "admin")
  {
  }

  // ----- Login -----

  /** `findOne` on one field: the first stored user holding `value` there. */
  function FindBy(users: seq<User>, field: string, value: string): (r: Option<User>)
    ensures r.None? <==> !Taken(users, field, value)
    ensures r.Some? ==> r.value in users && FieldValue(r.value, field) == value
  {
    if users == [] then None
    else if FieldValue(users[0], field) == value then Some(users[0])
    else
      var r := FindBy(users[1..], field, value);
      assert Taken(users, field, value) <==> Taken(users[1..], field, value) by {
        if Taken(users, field, value) {
          var k :| 0 <= k < |users| && FieldValue(users[k], field) == value;
          assert FieldValue(users[1..][k - 1], field) == value;
        }
        if Taken(users[1..], field, value) {
          var k :| 0 <= k < |users| - 1 && FieldValue(users[1..][k], field) == value;
          assert FieldValue(users[k + 1], field) == value;
        }
      }
      r
  }

  const MissingCredentials := "Missing credentials"
  const NoSuchUser := "No user with this email found."
  const WrongPassword := "Incorrect password."

  /** `POST /login`: passport-local refuses an empty email or password before
      the strategy runs; the strategy looks the address up through the email
      setters, then compares the password. Every refusal is a 401 carrying
      the strategy's message. */
  function Login(users: seq<User>, email: string, password: string, matches: (string, string) -> bool): (r: Reply<User>)
    ensures r.Fail? ==> r.status == 401
    ensures r.Ok? ==> r.body in users && r.body.email == NormalizeEmail(email) && matches(password, r.body.password)
    ensures r == Fail(401, NoSuchUser) <==> email != "" && password != "" && !Taken(users, "email", NormalizeEmail(email))
  {
    if email == "" || password == "" then Fail(401, MissingCredentials)
    else
      match FindBy(users, "email", NormalizeEmail(email))
      case None => Fail(401, NoSuchUser)
      case Some(u) => if !matches(password, u.password) then Fail(401, WrongPassword) else Ok(200, u)
  }

  /** The address is matched through the setters: addresses that differ only
      in surrounding white space or letter case log in the same user. */
  lemma {:induction false} LoginIgnoresCaseAndSpaces(users: seq<User>, e1: string, e2: string, password: string,
                                  matches: (string, string) -> bool)
    requires e1 != "" && e2 != ""
    requires NormalizeEmail(e1) == NormalizeEmail(e2)
    ensures Login(users, e1, password, matches) == Login(users, e2, password, matches)
  {
  }

  /** In a consistent collection at most one user holds an address, so a
      wrong password for a registered address is refused whatever other
      users there are. */
  lemma {:induction false} LoginWrongPassword(users: seq<User>, k: nat, email: string, password: string,
                           matches: (string, string) -> bool)
    requires Consistent(users) && k < |users|
    requires email != "" && password != "" && users[k].email == NormalizeEmail(email)
    requires !matches(password, users[k].password)
    ensures Login(users, email, password, matches) == Fail(401, WrongPassword)
  {
    var found := FindBy(users, "email", NormalizeEmail(email));
    assert Taken(users, "email", users[k].email);
    var j :| 0 <= j < |users| && users[j] == found.value;
    assert j == k;
  }

  /** A registered address with the right password logs that user in. */
  lemma {:induction false} LoginSucceeds(users: seq<User>, k: nat, email: string, password: string,
                      matches: (string, string) -> bool)
    requires Consistent(users) && k < |users|
    requires email != "" && password != "" && users[k].email == NormalizeEmail(email)
    requires matches(password, users[k].password)
    ensures Login(users, email, password, matches) == Ok(200, users[k])
  {
    var found := FindBy(users, "email", NormalizeEmail(email));
    assert Taken(users, "email", users[k].email);
    var j :| 0 <= j < |users| && users[j] == found.value;
    assert j == k;
  }

  // ----- Profile and admin pages -----

  const LoginFirst := "You need to log in first."

  /** The fields the profile page shows. */
  datatype Profile = Profile(username: string, phoneNumber: string, aadharNumber: string, email: string, role: string)

  /** `GET /profile`. */
  function ProfilePage(session: Option<User>): (r: Reply<Profile>)
    ensures r.Ok? <==> session.Some?
    ensures r.Fail? ==> r == Fail(401, LoginFirst)
    ensures r.Ok? ==>
      && r.body.username == session.value.username && r.body.phoneNumber == session.value.phoneNumber
      && r.body.aadharNumber == session.value.aadharNumber && r.body.email == session.value.email
      && r.body.role == session.value.role
  {
    match session
    case None => Fail(401, LoginFirst)
    case Some(u) => Ok(200, Profile(u.username, u.phoneNumber, u.aadharNumber, u.email, u.role))
  }

  /** The profile never depends on the password hash or the id. */
  lemma {:induction false} ProfileHidesSecrets(u: User, v: User)
    requires u.username == v.username && u.phoneNumber == v.phoneNumber && u.aadharNumber == v.aadharNumber
    requires u.email == v.email && u.role == v.role
    ensures ProfilePage(Some(u)) == ProfilePage(Some(v))
  {
  }

  /** `GET /admin`: 401 without a session, 403 for a non-admin. */
  function AdminPage(session: Option<User>): (r: Reply<string>)
    ensures r.Ok? <==> session.Some? && session.value.role == "admin"
    ensures session.None? ==> r == Fail(401, LoginFirst)
    ensures session.Some? && session.value.role != "admin" ==> r == Fail(403, "Access denied. You are not an admin.")
    ensures r.Ok? ==> r.body == "Welcome, Admin!"
  {
    match session
    case None => Fail(401, LoginFirst)
    case Some(u) =>
      if u.role != "admin" then Fail(403, "Access denied. You are not an admin.")
      else Ok(200, "Welcome, Admin!")
  }

  /** Combined with the self-assigned role: a client that registered with
      role "admin" passes the admin page once logged in. */
  lemma {:induction false} SelfAssignedAdminPasses(users: seq<User>, body: RegisterBody, newId: string)
    requires body.role == "admin"
    requires RegisterUser(users, body, newId).0.Ok?
    ensures var stored := RegisterUser(users, body, newId).1;
      AdminPage(Some(stored[|users|])).Ok?
  {
    RoleFromBody(users, body, newId);
  }
}
