/** The alternative post schema with a before/after image pair: the
    "before" image is required, the "after" (proof) image optional, and a
    pre-save hook refuses an "after" image on a post that is not resolved.
    An absent string field is the empty string. */
module AfterImage {
  import opened Wrappers
  import opened PostSchema

  datatype ProofPost = ProofPost(
    title: string,
    description: string,
    beforeImage: string,
    afterImage: string,
    category: string,
    status: string,
    userId: UserId,
    username: string)

  /** The schema's validators: the required strings are present, the
      category and status lie in their enumerations. `afterImage` is not
      required. */
  predicate Validates(p: ProofPost) {
    && p.title != "" && p.description != "" && p.beforeImage != ""
    && CategoryInEnum(p.category) && StatusInEnum(p.status)
    && p.userId != "" && p.username != ""
  }

  const AfterImageMessage := "After image can only be set when the status is 'resolved'"

  /** The pre-save hook. */
  function ProofGuard(p: ProofPost): (err: Option<string>)
    ensures err.Some? <==> p.afterImage != "" && p.status != Resolved
  {
    if p.afterImage != "" && p.status != Resolved then Some(AfterImageMessage) else None
  }

  /** `save()`: validation first, then the pre-save hook; `None` when the
      document is stored. */
  function Save(p: ProofPost): (err: Option<string>)
    ensures err.None? <==> Validates(p) && (p.afterImage == "" || p.status == Resolved)
  {
    if !Validates(p) then Some("Validation failed")
    else ProofGuard(p)
  }

  /** A valid document without an "after" image saves whatever its status. */
  lemma {:induction false} NoProofAlwaysSaves(p: ProofPost)
    requires Validates(p) && p.afterImage == ""
    ensures Save(p) == None
    ensures Save(p.(status := Pending)) == None && Save(p.(status := InProgress)) == None
  {
  }

  /** A valid resolved document with an "after" image saves. */
  lemma {:induction false} ResolvedWithProofSaves(p: ProofPost)
    requires Validates(p.(afterImage := "")) && p.status == Resolved
    ensures Save(p) == None
  {
  }

  /** A document as `new` builds it: the status default applies. */
  function Fresh(title: string, description: string, beforeImage: string, afterImage: string,
                 category: string, status: string, userId: UserId, username: string): ProofPost
  {
    ProofPost(title, description, beforeImage, afterImage, category, StatusOrDefault(status), userId, username)
  }

  /** A brand-new document that gives no status but carries an "after"
      image is refused by the hook, even when every field validates. */
  lemma {:induction false} FreshWithProofRejected(title: string, description: string, beforeImage: string, afterImage: string,
                               category: string, userId: UserId, username: string)
    requires afterImage != ""
    ensures Save(Fresh(title, description, beforeImage, afterImage, category, "", userId, username)).Some?
    ensures var p := Fresh(title, description, beforeImage, afterImage, category, "", userId, username);
      Validates(p) ==> Save(p) == Some(AfterImageMessage)
  {
  }

  /** The "before" image is required and the "after" image is not. */
  lemma {:induction false} ImageRequirements(p: ProofPost)
    ensures p.beforeImage == "" ==> Save(p).Some?
    ensures Validates(p) ==> Validates(p.(afterImage := ""))
  {
  }
}
