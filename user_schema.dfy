/** The `User` document: its fields, the setters that run when a value is
    assigned or used in a query (`trim`, `lowercase`), the Aadhar validator,
    the role enumeration and default, the pre-save Aadhar cleaning and the
    three unique indexes, combined into what `save()` does with a new
    document. Strings stand for absent values as "". */
module UserSchema {
  import opened Wrappers
  import opened Text

  datatype User = User(
    id: string,
    username: string,
    phoneNumber: string,
    aadharNumber: string,
    email: string,
    password: string,
    role: string)

  /** `/^\d{12}$/`: exactly twelve decimal digits. */
  predicate IsAadhar(s: string) {
    |s| == 12 && AllDigits(s)
  }

  /** `replace(/\s+/g, "").trim()`. */
  function CleanAadhar(s: string): string {
    Trim(StripSpaces(s))
  }

  /** Cleaning leaves no white space, is idempotent, and leaves a valid
      Aadhar number as it is. */
  lemma {:induction false} CleanAadharProperties(s: string)
    ensures NoSpaces(CleanAadhar(s))
    ensures CleanAadhar(CleanAadhar(s)) == CleanAadhar(s)
    ensures IsAadhar(s) ==> CleanAadhar(s) == s
    ensures CleanAadhar(s) == StripSpaces(s)
  {
    StripSpacesLeavesNone(s);
    TrimKeepsClean(StripSpaces(s));
    StripSpacesKeepsClean(StripSpaces(s));
    TrimKeepsClean(StripSpaces(s));
    if IsAadhar(s) {
      assert NoSpaces(s);
      StripSpacesKeepsClean(s);
      TrimKeepsClean(s);
    }
  }

  /** The `email` setters: trimmed, then lower-cased. */
  function NormalizeEmail(s: string): string {
    ToLower(Trim(s))
  }

  lemma {:induction false} ToLowerKeepsSpaces(s: string)
    ensures forall i :: 0 <= i < |s| ==> (IsSpace(ToLower(s)[i]) <==> IsSpace(s[i]))
  {
  }

  /** A normalised address has no white space at either end and no upper-case
      letter, and normalising it again changes nothing. */
  lemma {:induction false} NormalizeEmailProperties(s: string)
    ensures var e := NormalizeEmail(s);
      && (e == [] || (!IsSpace(e[0]) && !IsSpace(e[|e| - 1])))
      && (forall i :: 0 <= i < |e| ==> !('A' <= e[i] <= 'Z'))
      && NormalizeEmail(e) == e
  {
    var t := Trim(s);
    var e := ToLower(t);
    NormalizedEnds(s);
    ToLowerNoCapitals(t);
    TrimOfClean(e);
    ToLowerIdempotent(t);
  }

  lemma {:induction false} NormalizedEnds(s: string)
    ensures var e := ToLower(Trim(s));
      e == [] || (!IsSpace(e[0]) && !IsSpace(e[|e| - 1]))
  {
    TrimEnds(s);
    ToLowerKeepsSpaces(Trim(s));
  }

  predicate RoleInEnum(r: string) {
    r == "user" || r == "admin"
  }

  /** The fields a new document is given; `role` is `None` when the caller
      leaves it out. */
  datatype UserInput = UserInput(
    username: string,
    phoneNumber: string,
    aadharNumber: string,
    email: string,
    password: string,
    role: Option<string>)

  /** `new User(input)`: the setters applied and the role default. */
  function Construct(id: string, input: UserInput): (u: User)
    ensures input.role.None? ==> u.role == "user"
  {
    User(id, Trim(input.username), input.phoneNumber, Trim(input.aadharNumber),
         NormalizeEmail(input.email), input.password,
         if input.role.Some? then input.role.value else "user")
  }

  /** The schema validators: the five required strings, the Aadhar pattern
      and the role enumeration. */
  predicate Validates(u: User) {
    && u.username != "" && u.phoneNumber != "" && u.aadharNumber != ""
    && u.email != "" && u.password != ""
    && IsAadhar(u.aadharNumber)
    && RoleInEnum(u.role)
  }

  /** The pre-save hook's Aadhar cleaning (the password hashing is not part
      of this model). */
  function PreSave(u: User): User {
    u.(aadharNumber := CleanAadhar(u.aadharNumber))
  }

  /** Validation runs before the pre-save hook, so the hook only ever sees
      an Aadhar number that is already twelve digits, and its cleaning
      changes nothing. */
  lemma {:induction false} PreSaveCleaningInert(u: User)
    requires Validates(u)
    ensures PreSave(u) == u
  {
    CleanAadharProperties(u.aadharNumber);
  }

  /** The unique indexes, in the order they were created. */
  const IndexedFields: seq<string> := ["aadharNumber", "email", "username"]

  function FieldValue(u: User, field: string): string {
    if field == "aadharNumber" then u.aadharNumber
    else if field == "email" then u.email
    else if field == "username" then u.username
    else ""
  }

  predicate Taken(users: seq<User>, field: string, value: string) {
    exists k :: 0 <= k < |users| && FieldValue(users[k], field) == value
  }

  /** The first unique index the new document would violate. */
  function Conflict(users: seq<User>, u: User): (f: Option<string>)
    ensures f.Some? ==> f.value in IndexedFields && Taken(users, f.value, FieldValue(u, f.value))
    ensures f.None? <==> forall field :: field in IndexedFields ==> !Taken(users, field, FieldValue(u, field))
  {
    if Taken(users, "aadharNumber", u.aadharNumber) then Some("aadharNumber")
    else if Taken(users, "email", u.email) then Some("email")
    else if Taken(users, "username", u.username) then Some("username")
    else None
  }

  datatype SaveResult = Saved(user: User) | ValidationError | DuplicateKey(field: string)

  /** `save()` on a new document: validation, then the pre-save hook, then
      the insert against the unique indexes. */
  function Save(users: seq<User>, u: User): (r: SaveResult)
    ensures r.Saved? <==> Validates(u) && Conflict(users, u).None?
    ensures r.Saved? ==> r.user == u
  {
    if !Validates(u) then ValidationError
    else
      PreSaveCleaningInert(u);
      var v := PreSave(u);
      match Conflict(users, v)
      case Some(field) => DuplicateKey(field)
      case None => Saved(v)
  }

  /** The users collection as the indexes and validators keep it. */
  predicate Consistent(users: seq<User>) {
    && (forall k :: 0 <= k < |users| ==> Validates(users[k]))
    && (forall i, j :: 0 <= i < j < |users| ==>
          users[i].aadharNumber != users[j].aadharNumber
          && users[i].email != users[j].email
          && users[i].username != users[j].username)
  }

  /** A successful insert keeps the collection consistent. */
  lemma {:induction false} SaveKeepsConsistent(users: seq<User>, u: User)
    requires Consistent(users)
    requires Save(users, u).Saved?
    ensures Consistent(users + [u])
  {
    forall k | 0 <= k < |users|
      ensures users[k].aadharNumber != u.aadharNumber && users[k].email != u.email && users[k].username != u.username
    {
      assert !Taken(users, "aadharNumber", u.aadharNumber);
      assert !Taken(users, "email", u.email);
      assert !Taken(users, "username", u.username);
    }
  }
}
