/** The `Post` document of the backend: its fields, the enumerations on
    `category` and `status`, the required fields, the duplicate-vote
    validators on `upvotes`/`downvotes`, the defaults, and the pre-save hook
    that supplies missing vote lists. */
module PostSchema {
  import opened Wrappers
  import opened Seqs

  type UserId = string
  type PostId = string

  /** One abuse report: who filed it, why, and when. */
  datatype ReportEntry = ReportEntry(userId: UserId, reason: string, createdAt: int)

  datatype Location = Location(latitude: real, longitude: real, address: string)

  /** A stored post. `status` and `category` are kept as the strings the
      database holds: the handlers that update `status` do not run the
      schema validators, so a stored status can lie outside the enumeration. */
  datatype Post = Post(
    id: PostId,
    title: string,
    description: string,
    image: string,
    location: Location,
    category: string,
    status: string,
    userId: UserId,
    username: string,
    upvotes: seq<UserId>,
    downvotes: seq<UserId>,
    reports: seq<ReportEntry>,
    reportCount: int,
    tags: seq<string>,
    createdAt: int)

  const Pending := "pending"
  const InProgress := "in-progress"
  const Resolved := "resolved"

  predicate StatusInEnum(s: string) {
    s == Pending || s == InProgress || s == Resolved
  }

  predicate CategoryInEnum(c: string) {
    c == "Water" || c == "Roads" || c == "Landslides" || c == "Electricity" || c == "Sanitation" || c == "Others"
  }

  /** The `status` default: "pending" when none is given. */
  function StatusOrDefault(given: string): (s: string)
    ensures given != "" ==> s == given
    ensures StatusInEnum(given) || given == "" ==> StatusInEnum(s)
  {
    if given == "" then Pending else given
  }

  /** The duplicate-vote validator: the set of the ids is as large as the
      list. */
  predicate VotesValidator(v: seq<UserId>) {
    |ToSet(v)| == |v|
  }

  lemma {:induction false} VotesValidatorAcceptsDistinct(v: seq<UserId>)
    ensures VotesValidator(v) <==> NoDuplicates(v)
  {
    SetSizeDetectsDuplicates(v);
  }

  /** Everything `save()` checks: the required fields (an empty string fails
      `required`), the enumerations and the two vote validators. */
  predicate SchemaValid(p: Post) {
    && p.title != ""
    && p.description != ""
    && p.image != ""
    && CategoryInEnum(p.category)
    && StatusInEnum(p.status)
    && p.userId != ""
    && p.username != ""
    && VotesValidator(p.upvotes)
    && VotesValidator(p.downvotes)
  }

  /** The two report fields agree: `reportCount` counts the entries of
      `reports`. */
  predicate ReportsInStep(p: Post) {
    p.reportCount == |p.reports|
  }

  /** At most one report entry per user. */
  predicate OneReportPerUser(p: Post) {
    forall i, j :: 0 <= i < j < |p.reports| ==> p.reports[i].userId != p.reports[j].userId
  }

  /** Duplicate-free vote lists that share no user. */
  predicate VotesConsistent(p: Post) {
    && NoDuplicates(p.upvotes)
    && NoDuplicates(p.downvotes)
    && forall u :: u in p.upvotes ==> u !in p.downvotes
  }

  /** A document as `new Post({...})` builds it: the vote lists, `reports`
      and `reportCount` take their defaults. */
  function NewDocument(id: PostId, title: string, description: string, image: string, location: Location,
                       category: string, status: string, userId: UserId, username: string,
                       tags: seq<string>, now: int): Post
  {
    Post(id, title, description, image, location, category, StatusOrDefault(status), userId, username,
         [], [], [], 0, tags, now)
  }

  /** A new document starts with no votes and no reports, its report count in
      step with its report list, and passes both vote validators. */
  lemma {:induction false} NewDocumentConsistent(id: PostId, title: string, description: string, image: string, location: Location,
                              category: string, status: string, userId: UserId, username: string,
                              tags: seq<string>, now: int)
    ensures var p := NewDocument(id, title, description, image, location, category, status, userId, username, tags, now);
      && ReportsInStep(p) && OneReportPerUser(p) && VotesConsistent(p)
      && VotesValidator(p.upvotes) && VotesValidator(p.downvotes)
      && p.reportCount == 0 && p.upvotes == [] && p.downvotes == []
      && (status == "" ==> p.status == Pending)
  {
    assert ToSet<UserId>([]) == {};
  }

  /** The pre-save hook: a missing vote list becomes `[]`; a present one is
      kept (an array, even an empty one, is truthy). */
  function DefaultVotes(v: Option<seq<UserId>>): (r: seq<UserId>)
    ensures v.None? ==> r == []
    ensures v.Some? ==> r == v.value
  {
    match v
    case None => []
    case Some(list) => list
  }

  /** The pre-save hook never changes a document whose lists are present, and
      whatever it produces passes the vote validators when the given lists
      did. */
  lemma {:induction false} DefaultVotesKeepsValid(v: Option<seq<UserId>>)
    requires v.Some? ==> NoDuplicates(v.value)
    ensures VotesValidator(DefaultVotes(v))
    ensures DefaultVotes(Some(DefaultVotes(v))) == DefaultVotes(v)
  {
    SetSizeDetectsDuplicates(DefaultVotes(v));
  }
}
