/** `checkExistingUser`: one `findOne` with an `$or` of the given
    field/value pairs, then a scan of the pairs, in entry order, for the
    first whose value equals the found user's own under strict equality.
    The query sees the values through the schema's setters; the scan does
    not. */
module UserValidation {
  import opened Wrappers
  import opened Text
  import opened UserSchema

  /** A field of the user document by name; `None` for a name the schema
      does not have. */
  function Lookup(u: User, key: string): Option<string> {
    if key == "username" then Some(u.username)
    else if key == "phoneNumber" then Some(u.phoneNumber)
    else if key == "aadharNumber" then Some(u.aadharNumber)
    else if key == "email" then Some(u.email)
    else if key == "password" then Some(u.password)
    else if key == "role" then Some(u.role)
    else None
  }

  /** The value a query condition on `key` compares against: the field's
      setters applied. */
  function QueryValue(key: string, value: string): string {
    if key == "email" then NormalizeEmail(value)
    else if key == "username" || key == "aadharNumber" then Trim(value)
    else value
  }

  /** Whether `u` satisfies the `$or` of the pairs. */
  predicate MatchesAny(u: User, fields: seq<(string, string)>) {
    exists e :: e in fields && Lookup(u, e.0) == Some(QueryValue(e.0, e.1))
  }

  /** `findOne`: the first stored user satisfying the query. */
  function FindFirst(users: seq<User>, fields: seq<(string, string)>): (r: Option<User>)
    ensures r.None? <==> forall u :: u in users ==> !MatchesAny(u, fields)
    ensures r.Some? ==> r.value in users && MatchesAny(r.value, fields)
  {
    if users == [] then None
    else if MatchesAny(users[0], fields) then Some(users[0])
    else FindFirst(users[1..], fields)
  }

  /** The scan: the first pair whose value is the user's own, as is. */
  function FirstEqualField(u: User, fields: seq<(string, string)>): (r: Option<string>)
    ensures r.None? <==> forall e :: e in fields ==> Lookup(u, e.0) != Some(e.1)
    ensures r.Some? ==> exists i :: (0 <= i < |fields| && fields[i].0 == r.value && Lookup(u, fields[i].0) == Some(fields[i].1)
      && forall j :: 0 <= j < i ==> Lookup(u, fields[j].0) != Some(fields[j].1))
  {
    if fields == [] then None
    else if Lookup(u, fields[0].0) == Some(fields[0].1) then Some(fields[0].0)
    else
      var r := FirstEqualField(u, fields[1..]);
      if r.Some? then
        var i :| 0 <= i < |fields[1..]| && fields[1..][i].0 == r.value && Lookup(u, fields[1..][i].0) == Some(fields[1..][i].1)
          && forall j :: 0 <= j < i ==> Lookup(u, fields[1..][j].0) != Some(fields[1..][j].1);
        assert forall j :: 0 <= j < i + 1 ==> Lookup(u, fields[j].0) != Some(fields[j].1) by {
          forall j | 0 <= j < i + 1
            ensures Lookup(u, fields[j].0) != Some(fields[j].1)
          {
            if j > 0 {
              assert fields[j] == fields[1..][j - 1];
            }
          }
        }
        assert fields[i + 1] == fields[1..][i];
        r
      else r
  }

  datatype ExistingCheck = NotExists | Exists(field: string, message: string) | QueryError

  /** `checkExistingUser(fields)`; an empty `$or` is refused by the
      database, which the caller sees as a thrown error. */
  function CheckExistingUser(users: seq<User>, fields: seq<(string, string)>): (r: ExistingCheck)
    ensures r.QueryError? <==> fields == []
    ensures fields != [] && (forall u :: u in users ==> !MatchesAny(u, fields)) ==> r == NotExists
    ensures r.Exists? ==>
      && r.message == Capitalize(r.field) + " already registered"
      && exists u, e :: u in users && e in fields && e.0 == r.field && Lookup(u, e.0) == Some(e.1)
    ensures r.Exists? ==>
      && FindFirst(users, fields).Some?
      && exists e :: e in fields && e.0 == r.field && Lookup(FindFirst(users, fields).value, e.0) == Some(e.1)
  {
    if fields == [] then QueryError
    else
      match FindFirst(users, fields)
      case None => NotExists
      case Some(u) =>
        match FirstEqualField(u, fields)
        case None => NotExists
        case Some(key) => Exists(key, Capitalize(key) + " already registered")
  }

  /** When every value is already in its stored form, the check reports a
      field exactly when some user holds one of the values. */
  lemma {:induction false} CheckFindsNormalisedValues(users: seq<User>, fields: seq<(string, string)>)
    requires fields != []
    requires forall e :: e in fields ==> QueryValue(e.0, e.1) == e.1
    ensures CheckExistingUser(users, fields).Exists? <==> exists u :: u in users && MatchesAny(u, fields)
  {
    var found := FindFirst(users, fields);
    if found.Some? {
      var e :| e in fields && Lookup(found.value, e.0) == Some(QueryValue(e.0, e.1));
      assert Lookup(found.value, e.0) == Some(e.1);
    }
  }

  /** The reported field is the first pair, in entry order, that the found
      user holds exactly. */
  lemma {:induction false} CheckReportsFirstField(users: seq<User>, fields: seq<(string, string)>)
    requires CheckExistingUser(users, fields).Exists?
    ensures var u := FindFirst(users, fields).value;
      exists i :: 0 <= i < |fields| && fields[i].0 == CheckExistingUser(users, fields).field
        && Lookup(u, fields[i].0) == Some(fields[i].1)
        && forall j :: 0 <= j < i ==> Lookup(u, fields[j].0) != Some(fields[j].1)
  {
  }

  /** An address asked about in a form that normalises to a stored one
      (an upper-case letter, surrounding blanks): the query finds the user
      through the setters, but the strict comparison fails, so the check
      answers that nobody has it. */
  lemma {:induction false} CaseVariantReportedAbsent(stored: User, asked: string)
    requires NormalizeEmail(asked) == stored.email && asked != stored.email
    ensures FindFirst([stored], [("email", asked)]) == Some(stored)
    ensures CheckExistingUser([stored], [("email", asked)]) == NotExists
  {
    FindsThroughSetters(stored, asked);
    ScanMissesVariant(stored, asked);
  }

  lemma {:induction false} FindsThroughSetters(stored: User, asked: string)
    requires NormalizeEmail(asked) == stored.email
    ensures FindFirst([stored], [("email", asked)]) == Some(stored)
  {
    var e := ("email", asked);
    assert Lookup(stored, e.0) == Some(QueryValue(e.0, e.1));
    MatchesThrough(stored, [e], e);
  }

  lemma {:induction false} ScanMissesVariant(stored: User, asked: string)
    requires asked != stored.email
    ensures FirstEqualField(stored, [("email", asked)]) == None
  {
    var e := ("email", asked);
    assert Lookup(stored, e.0) != Some(e.1);
    assert [e][1..] == [];
  }

  lemma {:induction false} MatchesThrough(u: User, fields: seq<(string, string)>, e: (string, string))
    requires e in fields && Lookup(u, e.0) == Some(QueryValue(e.0, e.1))
    ensures MatchesAny(u, fields)
  {
  }
}
