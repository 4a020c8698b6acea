/** The `/api/auth` handlers: registration with its Aadhar check and its
    three duplicate checks ahead of the insert, the duplicate-key message,
    and the maintenance route that strips white space from stored Aadhar
    numbers one document at a time. */
module AuthRoutes {
  import opened Wrappers
  import opened Text
  import opened UserSchema

  /** The registration body; an absent field is "". The body's `role`, if
      any, is never read. */
  datatype RegisterInput = RegisterInput(
    username: string,
    email: string,
    password: string,
    aadharNumber: string,
    phoneNumber: string)

  const InvalidAadhar := "Please provide a valid 12-digit Aadhar number"
  const AadharTaken := "Aadhar number already registered"
  const EmailTaken := "Email already registered"
  const UsernameTaken := "Username already taken"

  /** The message for a duplicate-key error on `field`. */
  function DuplicateKeyMessage(field: string): (m: string)
    ensures |m| == |field| + |" already exists"|
    ensures m[|field|..] == " already exists"
    ensures field != "" ==> m[0] == UpperChar(field[0]) && m[1..|field|] == field[1..]
  {
    Capitalize(field) + " already exists"
  }

  /** Examples of `DuplicateKeyMessage`: the messages the three unique
      indexes produce. */
  lemma {:induction false} AadharKeyMessage()
    ensures DuplicateKeyMessage("aadharNumber") == "AadharNumber" + " already exists"
  {
    KeyMessageFor("aadharNumber", "AadharNumber");
  }

  lemma {:induction false} EmailKeyMessage()
    ensures DuplicateKeyMessage("email") == "Email" + " already exists"
  {
    KeyMessageFor("email", "Email");
  }

  lemma {:induction false} UsernameKeyMessage()
    ensures DuplicateKeyMessage("username") == "Username" + " already exists"
  {
    KeyMessageFor("username", "Username");
  }

  lemma {:induction false} KeyMessageFor(field: string, shown: string)
    requires field != []
    requires shown == [UpperChar(field[0])] + field[1..]
    ensures DuplicateKeyMessage(field) == shown + " already exists"
  {
  }

  function ToUserInput(input: RegisterInput): UserInput {
    UserInput(input.username, input.phoneNumber, input.aadharNumber, input.email, input.password, None)
  }

  /** `POST /register`: the reply and the users collection after it.
      `newId` is the id the database gives the new document. The duplicate
      queries see the values through the same setters as the stored ones. */
  function Register(users: seq<User>, input: RegisterInput, newId: string): (Reply<User>, seq<User>) {
    if input.aadharNumber == "" || !IsAadhar(input.aadharNumber) then (Fail(400, InvalidAadhar), users)
    else
      var clean := CleanAadhar(input.aadharNumber);
      if Taken(users, "aadharNumber", Trim(clean)) then (Fail(400, AadharTaken), users)
      else if Taken(users, "email", NormalizeEmail(input.email)) then (Fail(400, EmailTaken), users)
      else if Taken(users, "username", Trim(input.username)) then (Fail(400, UsernameTaken), users)
      else
        var u := Construct(newId, ToUserInput(input));
        match Save(users, u)
        case Saved(v) => (Ok(201, v), users + [v])
        case DuplicateKey(field) => (Fail(400, DuplicateKeyMessage(field)), users)
        case ValidationError => (Fail(500, "Registration failed"), users)
  }

  /** The Aadhar check comes first; then the duplicate checks in the order
      Aadhar, email, username; a request that passes them all is stored
      unless a required field is empty. The created user has the default
      role and the submitted Aadhar number unchanged, and the collection
      stays consistent. Because the three checks query the same normalised
      values the unique indexes hold, the duplicate-key answer never occurs
      when requests run one at a time. */
  lemma {:induction false} RegisterOutcome(users: seq<User>, input: RegisterInput, newId: string)
    requires Consistent(users)
    ensures var (reply, after) := Register(users, input, newId);
      && (!IsAadhar(input.aadharNumber) ==> reply == Fail(400, InvalidAadhar))
      && (IsAadhar(input.aadharNumber) && Taken(users, "aadharNumber", input.aadharNumber) ==> reply == Fail(400, AadharTaken))
      && ((IsAadhar(input.aadharNumber) && !Taken(users, "aadharNumber", input.aadharNumber)
           && Taken(users, "email", NormalizeEmail(input.email))) ==> reply == Fail(400, EmailTaken))
      && ((IsAadhar(input.aadharNumber) && !Taken(users, "aadharNumber", input.aadharNumber)
           && !Taken(users, "email", NormalizeEmail(input.email))
           && Taken(users, "username", Trim(input.username))) ==> reply == Fail(400, UsernameTaken))
      && (reply.Ok? <==>
            && IsAadhar(input.aadharNumber)
            && !Taken(users, "aadharNumber", input.aadharNumber)
            && !Taken(users, "email", NormalizeEmail(input.email))
            && !Taken(users, "username", Trim(input.username))
            && Trim(input.username) != "" && input.phoneNumber != ""
            && NormalizeEmail(input.email) != "" && input.password != "")
      && (reply.Fail? ==> after == users && (reply.status == 400 || reply.message == "Registration failed"))
      && (forall f :: reply != Fail(400, DuplicateKeyMessage(f)))
      && (reply.Ok? ==>
            && after == users + [reply.body]
            && reply.body.role == "user"
            && reply.body.aadharNumber == input.aadharNumber
            && reply.body.email == NormalizeEmail(input.email)
            && Consistent(after))
  {
    if IsAadhar(input.aadharNumber) {
      CleanAadharProperties(input.aadharNumber);
      assert NoSpaces(input.aadharNumber);
      TrimKeepsClean(input.aadharNumber);
      var u := Construct(newId, ToUserInput(input));
      if !Taken(users, "aadharNumber", input.aadharNumber)
         && !Taken(users, "email", NormalizeEmail(input.email))
         && !Taken(users, "username", Trim(input.username)) {
        assert Conflict(users, u).None?;
        if Save(users, u).Saved? {
          SaveKeepsConsistent(users, u);
        }
      }
      forall f
        ensures Register(users, input, newId).0 != Fail(400, DuplicateKeyMessage(f))
      {
        DuplicateKeyNotPrecheck(f);
      }
    }
  }

  /** No duplicate-key message coincides with a pre-check message. */
  lemma {:induction false} DuplicateKeyNotPrecheck(f: string)
    ensures DuplicateKeyMessage(f) != AadharTaken && DuplicateKeyMessage(f) != EmailTaken
    ensures DuplicateKeyMessage(f) != UsernameTaken && DuplicateKeyMessage(f) != InvalidAadhar
  {
    var m := DuplicateKeyMessage(f);
    assert m[|m| - 1] == 's';
  }

  /** Registering the same request twice: the second is refused by the
      Aadhar check. */
  lemma {:induction false} RegisterTwiceRefused(users: seq<User>, input: RegisterInput, id1: string, id2: string)
    requires Consistent(users)
    requires Register(users, input, id1).0.Ok?
    ensures Register(Register(users, input, id1).1, input, id2).0 == Fail(400, AadharTaken)
  {
    RegisterOutcome(users, input, id1);
    var after := Register(users, input, id1).1;
    CleanAadharProperties(input.aadharNumber);
    TrimKeepsClean(input.aadharNumber);
    assert FieldValue(after[|users|], "aadharNumber") == input.aadharNumber;
  }

  // ----- Aadhar cleanup -----

  datatype CleanupResult = CleanedUp(updates: nat) | CleanupFailed

  /** A stored number that is present and changes under `clean`. */
  predicate ChangedBy(clean: string -> string, u: User) {
    u.aadharNumber != "" && clean(u.aadharNumber) != u.aadharNumber
  }

  /** A stored number that is present and changes when cleaned. */
  predicate NeedsCleaning(u: User) {
    ChangedBy(CleanAadhar, u)
  }

  /** Whether `save()` accepts user `i` with Aadhar number `cleaned`: the
      validator, and the unique index against every other user. The other
      fields of a stored user are taken to validate. */
  predicate CleanSaveAccepted(users: seq<User>, i: nat, cleaned: string) {
    IsAadhar(cleaned) && forall k :: 0 <= k < |users| && k != i ==> users[k].aadharNumber != cleaned
  }

  /** The cleanup route from position `i` on, for a cleaning function
      `clean`: the collection it leaves and its answer. The first refused
      save aborts the route, keeping the saves already made. The route
      itself cleans with `CleanAadhar` (`CleanupFrom`); the proofs below
      hold for any idempotent cleaning function. */
  function CleanupWith(clean: string -> string, users: seq<User>, i: nat, updates: nat): (seq<User>, CleanupResult)
    requires i <= |users|
    decreases |users| - i
  {
    if i == |users| then (users, CleanedUp(updates))
    else if !ChangedBy(clean, users[i]) then CleanupWith(clean, users, i + 1, updates)
    else
      var cleaned := clean(users[i].aadharNumber);
      if !CleanSaveAccepted(users, i, cleaned) then (users, CleanupFailed)
      else CleanupWith(clean, users[i := users[i].(aadharNumber := cleaned)], i + 1, updates + 1)
  }

  /** The cleanup route from position `i` on. */
  function CleanupFrom(users: seq<User>, i: nat, updates: nat): (seq<User>, CleanupResult)
    requires i <= |users|
  {
    CleanupWith(CleanAadhar, users, i, updates)
  }

  /** `POST /debug/cleanup-aadhar` over the loaded documents. */
  method CleanupAadhar(users: array<User>) returns (result: CleanupResult)
    modifies users
    ensures (users[..], result) == CleanupFrom(old(users[..]), 0, 0)
  {
    var updates := 0;
    var i := 0;
    while i < users.Length
      invariant 0 <= i <= users.Length
      invariant CleanupFrom(users[..], i, updates) == CleanupFrom(old(users[..]), 0, 0)
    {
      var before := users[..];
      var user := users[i];
      if user.aadharNumber != "" {
        var cleaned := CleanAadhar(user.aadharNumber);
        if cleaned != user.aadharNumber {
          if !CleanSaveAccepted(before, i, cleaned) {
            CleanupRefused(before, i, updates);
            return CleanupFailed;
          }
          CleanupCleans(before, i, updates);
          users[i] := user.(aadharNumber := cleaned);
          assert users[..] == before[i := user.(aadharNumber := cleaned)];
          updates := updates + 1;
        } else {
          CleanupSkips(before, i, updates);
        }
      } else {
        CleanupSkips(before, i, updates);
      }
      i := i + 1;
    }
    assert users[..] == users[..i];
    return CleanedUp(updates);
  }

  // One step of `CleanupFrom`, each case on its own.

  lemma {:induction false} CleanupSkips(users: seq<User>, i: nat, updates: nat)
    requires i < |users| && !NeedsCleaning(users[i])
    ensures CleanupFrom(users, i, updates) == CleanupFrom(users, i + 1, updates)
  {
  }

  lemma {:induction false} CleanupRefused(users: seq<User>, i: nat, updates: nat)
    requires i < |users| && NeedsCleaning(users[i])
    requires !CleanSaveAccepted(users, i, CleanAadhar(users[i].aadharNumber))
    ensures CleanupFrom(users, i, updates) == (users, CleanupFailed)
  {
  }

  lemma {:induction false} CleanupCleans(users: seq<User>, i: nat, updates: nat)
    requires i < |users| && NeedsCleaning(users[i])
    requires CleanSaveAccepted(users, i, CleanAadhar(users[i].aadharNumber))
    ensures CleanupFrom(users, i, updates)
         == CleanupFrom(users[i := users[i].(aadharNumber := CleanAadhar(users[i].aadharNumber))], i + 1, updates + 1)
  {
  }

  /** How many users from position `i` on `clean` changes. */
  function DirtyWith(clean: string -> string, users: seq<User>, i: nat): nat
    requires i <= |users|
    decreases |users| - i
  {
    if i == |users| then 0 else (if ChangedBy(clean, users[i]) then 1 else 0) + DirtyWith(clean, users, i + 1)
  }

  /** How many users from position `i` on need cleaning. */
  function DirtyFrom(users: seq<User>, i: nat): nat
    requires i <= |users|
  {
    DirtyWith(CleanAadhar, users, i)
  }

  lemma {:induction false} DirtySuffix(clean: string -> string, a: seq<User>, b: seq<User>, i: nat)
    requires |a| == |b| && i <= |a|
    requires forall k :: i <= k < |a| ==> a[k] == b[k]
    ensures DirtyWith(clean, a, i) == DirtyWith(clean, b, i)
    decreases |a| - i
  {
    if i < |a| {
      DirtySuffix(clean, a, b, i + 1);
    }
  }

  ghost predicate Idempotent(clean: string -> string) {
    forall s :: clean(clean(s)) == clean(s)
  }

  lemma {:induction false} CleanAadharIdempotent()
    ensures Idempotent(CleanAadhar)
  {
    forall s {
      CleanAadharProperties(s);
    }
  }

  lemma {:induction false} CountsWith(clean: string -> string, users: seq<User>, i: nat, updates: nat)
    requires Idempotent(clean)
    requires i <= |users|
    requires forall k :: 0 <= k < i ==> !ChangedBy(clean, users[k])
    ensures var (after, result) := CleanupWith(clean, users, i, updates);
      result.CleanedUp? ==>
        && result.updates == updates + DirtyWith(clean, users, i)
        && forall k :: 0 <= k < |after| ==> !ChangedBy(clean, after[k])
    decreases |users| - i, 1
  {
    if i < |users| && ChangedBy(clean, users[i])
       && CleanSaveAccepted(users, i, clean(users[i].aadharNumber)) {
      CountsWithStep(clean, users, i, updates);
    } else if i < |users| && !ChangedBy(clean, users[i]) {
      CountsWith(clean, users, i + 1, updates);
    }
  }

  lemma {:induction false} CountsWithStep(clean: string -> string, users: seq<User>, i: nat, updates: nat)
    requires Idempotent(clean)
    requires i < |users| && ChangedBy(clean, users[i])
    requires CleanSaveAccepted(users, i, clean(users[i].aadharNumber))
    requires forall k :: 0 <= k < i ==> !ChangedBy(clean, users[k])
    ensures var (after, result) := CleanupWith(clean, users, i, updates);
      result.CleanedUp? ==>
        && result.updates == updates + DirtyWith(clean, users, i)
        && forall k :: 0 <= k < |after| ==> !ChangedBy(clean, after[k])
    decreases |users| - i, 0
  {
    var cleaned := clean(users[i].aadharNumber);
    var next := users[i := users[i].(aadharNumber := cleaned)];
    assert CleanupWith(clean, users, i, updates) == CleanupWith(clean, next, i + 1, updates + 1);
    assert clean(cleaned) == cleaned;
    assert forall k :: 0 <= k < i + 1 ==> !ChangedBy(clean, next[k]);
    CountsWith(clean, next, i + 1, updates + 1);
    DirtySuffix(clean, users, next, i + 1);
  }

  /** A completed run counts exactly the users that needed cleaning and
      leaves none that still does. */
  lemma {:induction false} CleanupCounts(users: seq<User>, i: nat, updates: nat)
    requires i <= |users|
    requires forall k :: 0 <= k < i ==> !NeedsCleaning(users[k])
    ensures var (after, result) := CleanupFrom(users, i, updates);
      result.CleanedUp? ==>
        && result.updates == updates + DirtyFrom(users, i)
        && forall k :: 0 <= k < |after| ==> !NeedsCleaning(after[k])
  {
    CleanAadharIdempotent();
    CountsWith(CleanAadhar, users, i, updates);
  }

  lemma {:induction false} NothingToDoWith(clean: string -> string, users: seq<User>, i: nat, updates: nat)
    requires i <= |users|
    requires forall k :: i <= k < |users| ==> !ChangedBy(clean, users[k])
    ensures CleanupWith(clean, users, i, updates) == (users, CleanedUp(updates))
    decreases |users| - i
  {
    if i < |users| {
      NothingToDoWith(clean, users, i + 1, updates);
    }
  }

  /** On a collection where nothing needs cleaning the route changes nothing
      and reports zero updates. */
  lemma {:induction false} CleanupNothingToDo(users: seq<User>, i: nat, updates: nat)
    requires i <= |users|
    requires forall k :: i <= k < |users| ==> !NeedsCleaning(users[k])
    ensures CleanupFrom(users, i, updates) == (users, CleanedUp(updates))
  {
    NothingToDoWith(CleanAadhar, users, i, updates);
  }

  /** A second run after a completed one reports zero. */
  lemma {:induction false} CleanupSecondRunZero(users: seq<User>)
    requires CleanupFrom(users, 0, 0).1.CleanedUp?
    ensures var after := CleanupFrom(users, 0, 0).0;
      CleanupFrom(after, 0, 0) == (after, CleanedUp(0))
    ensures CleanupFrom(users, 0, 0).1.updates == DirtyFrom(users, 0)
  {
    CleanupCounts(users, 0, 0);
    CleanupNothingToDo(CleanupFrom(users, 0, 0).0, 0, 0);
  }

  /** Each user of `after` is the one of `users` at the same position, or,
      from position `i` on, one that `clean` changes with only its Aadhar
      number replaced by the cleaned form. */
  predicate TouchedOnly(clean: string -> string, users: seq<User>, after: seq<User>, i: nat) {
    && |after| == |users|
    && forall k :: 0 <= k < |users| ==>
         after[k] == users[k]
         || (k >= i && ChangedBy(clean, users[k])
             && after[k] == users[k].(aadharNumber := clean(users[k].aadharNumber)))
  }

  lemma {:induction false} TouchesWith(clean: string -> string, users: seq<User>, i: nat, updates: nat)
    requires i <= |users|
    ensures TouchedOnly(clean, users, CleanupWith(clean, users, i, updates).0, i)
    decreases |users| - i
  {
    if i < |users| && ChangedBy(clean, users[i])
       && CleanSaveAccepted(users, i, clean(users[i].aadharNumber)) {
      var u := users[i].(aadharNumber := clean(users[i].aadharNumber));
      var next := users[i := u];
      assert CleanupWith(clean, users, i, updates) == CleanupWith(clean, next, i + 1, updates + 1);
      TouchesWith(clean, next, i + 1, updates + 1);
      TouchedCompose(clean, users, u, CleanupWith(clean, next, i + 1, updates + 1).0, i);
    } else if i < |users| && !ChangedBy(clean, users[i]) {
      TouchesWith(clean, users, i + 1, updates);
      TouchedFromEarlier(clean, users, CleanupWith(clean, users, i + 1, updates).0, i);
    }
  }

  lemma {:induction false} TouchedFromEarlier(clean: string -> string, users: seq<User>, after: seq<User>, i: nat)
    requires TouchedOnly(clean, users, after, i + 1)
    ensures TouchedOnly(clean, users, after, i)
  {
  }

  /** A cleaned user at `i` followed by touches from `i + 1` on is a touch
      from `i` on. */
  lemma {:induction false} TouchedCompose(clean: string -> string, users: seq<User>, u: User, after: seq<User>, i: nat)
    requires i < |users| && ChangedBy(clean, users[i])
    requires u == users[i].(aadharNumber := clean(users[i].aadharNumber))
    requires TouchedOnly(clean, users[i := u], after, i + 1)
    ensures TouchedOnly(clean, users, after, i)
  {
    var next := users[i := u];
    assert after[i] == u;
    forall k | 0 <= k < |users| && k != i
      ensures after[k] == users[k]
              || (k >= i && ChangedBy(clean, users[k])
                  && after[k] == users[k].(aadharNumber := clean(users[k].aadharNumber)))
    {
      assert next[k] == users[k];
    }
  }

  /** Whatever the outcome, each user is either untouched or has only its
      Aadhar number replaced by the cleaned form; users without one are
      never touched. */
  lemma {:induction false} CleanupTouchesOnlyAadhar(users: seq<User>, i: nat, updates: nat)
    requires i <= |users|
    ensures var after := CleanupFrom(users, i, updates).0;
      && |after| == |users|
      && forall k :: 0 <= k < |users| ==>
           after[k] == users[k]
           || (k >= i && NeedsCleaning(users[k])
               && after[k] == users[k].(aadharNumber := CleanAadhar(users[k].aadharNumber)))
  {
    TouchesWith(CleanAadhar, users, i, updates);
  }
}
