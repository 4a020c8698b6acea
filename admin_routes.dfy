/** The moderation handlers under `/api/admin`, each behind `ensureAdmin`:
    the reported-posts queue, deleting a post, clearing its reports and the
    collection counts. */
module AdminRoutes {
  import opened Wrappers
  import opened Seqs
  import opened Sorting
  import opened PostSchema
  import opened Access
  import opened PostRoutes

  /** A post enters the moderation queue at this many reports. */
  const QueueThreshold := 5

  predicate Flagged(p: Post) {
    p.reportCount >= QueueThreshold
  }

  /** `find({ reportCount: { $gte: 5 } })`. */
  function FlaggedPosts(store: Store): (r: Store)
    ensures forall p :: p in r <==> p in store && Flagged(p)
    ensures |r| <= |store|
  {
    if store == [] then []
    else if Flagged(store[0]) then [store[0]] + FlaggedPosts(store[1..])
    else FlaggedPosts(store[1..])
  }

  function ReportCountKey(p: Post): Rank {
    Rank(p.reportCount, 0)
  }

  datatype Queue = Queue(posts: Store, total: int)

  /** `GET /reported-posts`: the flagged posts, most reported first, and how
      many there are. */
  function ReportedPosts(store: Store, a: Actor): Reply<Queue> {
    match EnsureAdmin(a)
    case Deny(code, message) => Fail(code, message)
    case Next =>
      var q := SortDesc(FlaggedPosts(store), ReportCountKey);
      Ok(200, Queue(q, |q|))
  }

  /** The queue holds each post with at least five reports exactly as often
      as the collection does and nothing else, ordered by report count,
      non-increasing, and `total` is its length. */
  lemma {:induction false} ReportedPostsContents(store: Store, a: Actor)
    requires a.authenticated && IsAdmin(a)
    ensures ReportedPosts(store, a).Ok?
    ensures var q := ReportedPosts(store, a).body;
      && q.total == |q.posts|
      && multiset(q.posts) == multiset(FlaggedPosts(store))
      && (forall p :: p in q.posts <==> p in store && p.reportCount >= 5)
      && (forall i, j :: 0 <= i < j < |q.posts| ==> q.posts[i].reportCount >= q.posts[j].reportCount)
  {
    var f := FlaggedPosts(store);
    var q := SortDesc(f, ReportCountKey);
    SortDescPermutes(f, ReportCountKey);
    SortDescMembers(f, ReportCountKey);
    SortDescSorted(f, ReportCountKey);
    forall i, j | 0 <= i < j < |q|
      ensures q[i].reportCount >= q[j].reportCount
    {
      assert RankLe(ReportCountKey(q[j]), ReportCountKey(q[i]));
    }
  }

  /** `DELETE /posts/:postId`: 400 for an empty id, 404 for an unknown one,
      otherwise that post is removed. */
  function AdminDelete(store: Store, a: Actor, postId: string): Step<string> {
    match EnsureAdmin(a)
    case Deny(code, message) => Step(Fail(code, message), store)
    case Next =>
      if postId == "" then Step(Fail(400, "Invalid post ID"), store)
      else
        var i := IndexOf(store, postId);
        if i < 0 then Step(Fail(404, "Post not found"), store)
        else Step(Ok(200, "Post deleted successfully"), RemoveAt(store, i))
  }

  lemma {:induction false} AdminDeleteOutcome(store: Store, a: Actor, postId: string)
    requires StoreInvariant(store)
    ensures var s := AdminDelete(store, a, postId);
      && (a.authenticated && IsAdmin(a) && postId == "" ==> s.reply == Fail(400, "Invalid post ID"))
      && (a.authenticated && IsAdmin(a) && postId != "" && !HasId(store, postId) ==> s.reply == Fail(404, "Post not found"))
      && (s.reply.Ok? <==> a.authenticated && IsAdmin(a) && postId != "" && HasId(store, postId))
      && (s.reply.Fail? ==> s.store == store)
      && (s.reply.Ok? ==>
            && !HasId(s.store, postId)
            && (forall p :: p in s.store <==> p in store && p.id != postId)
            && |s.store| == |store| - 1
            && StoreInvariant(s.store))
  {
    var i := IndexOf(store, postId);
    if a.authenticated && IsAdmin(a) && postId != "" && i >= 0 {
      RemoveKeepsInvariant(store, i);
    }
  }

  function Cleared(p: Post): Post {
    p.(reports := [], reportCount := 0)
  }

  /** `POST /posts/:postId/clear-reports`: 404 for an unknown post, otherwise
      its reports emptied and its count reset. */
  function ClearReports(store: Store, a: Actor, id: PostId): Step<Post> {
    match EnsureAdmin(a)
    case Deny(code, message) => Step(Fail(code, message), store)
    case Next =>
      var i := IndexOf(store, id);
      if i < 0 then Step(Fail(404, "Post not found"), store)
      else
        var p := Cleared(store[i]);
        Step(Ok(200, p), store[i := p])
  }

  lemma {:induction false} ClearReportsOutcome(store: Store, a: Actor, id: PostId)
    requires StoreInvariant(store)
    ensures var s := ClearReports(store, a, id);
      && (a.authenticated && IsAdmin(a) && !HasId(store, id) ==> s.reply == Fail(404, "Post not found"))
      && (s.reply.Ok? <==> a.authenticated && IsAdmin(a) && HasId(store, id))
      && (s.reply.Fail? ==> s.store == store)
      && (s.reply.Ok? ==>
            && StoreInvariant(s.store)
            && |s.store| == |store|
            && forall k :: 0 <= k < |store| ==>
                 if store[k].id == id then
                   s.store[k] == s.reply.body
                   && s.store[k].reports == [] && s.store[k].reportCount == 0
                   && s.store[k] == store[k].(reports := [], reportCount := 0)
                   && !Flagged(s.store[k])
                 else s.store[k] == store[k])
  {
    var i := IndexOf(store, id);
    if a.authenticated && IsAdmin(a) && i >= 0 {
      ReplaceKeepsInvariant(store, i, Cleared(store[i]));
    }
  }

  /** Clearing twice leaves the collection as clearing once does. */
  lemma {:induction false} ClearReportsIdempotent(store: Store, a: Actor, id: PostId)
    requires StoreInvariant(store)
    ensures var once := ClearReports(store, a, id);
      ClearReports(once.store, a, id).store == once.store
  {
    var i := IndexOf(store, id);
    if a.authenticated && IsAdmin(a) && i >= 0 {
      var s := store[i := Cleared(store[i])];
      ClearReportsOutcome(store, a, id);
      assert IndexOf(s, id) == i;
      assert s[i := Cleared(s[i])] == s;
    }
  }

  datatype Stats = Stats(totalPosts: int, totalUsers: int)

  /** `GET /stats`: the two collection sizes; `userCount` is the size of the
      users collection. */
  function AdminStats(store: Store, a: Actor, userCount: nat): (r: Reply<Stats>)
    ensures r.Ok? <==> a.authenticated && IsAdmin(a)
    ensures r.Ok? ==> r.body.totalPosts == |store| && r.body.totalUsers == userCount
  {
    match EnsureAdmin(a)
    case Deny(code, message) => Fail(code, message)
    case Next => Ok(200, Stats(|store|, userCount))
  }

  /** No moderation route does anything for a request that is not an
      authenticated admin's: each answers 401 or 403 and leaves the
      collection alone. */
  lemma {:induction false} ModerationRequiresAdmin(store: Store, a: Actor, id: PostId, userCount: nat)
    requires !(a.authenticated && IsAdmin(a))
    ensures var code := if a.authenticated then 403 else 401;
      && ReportedPosts(store, a).Fail? && ReportedPosts(store, a).status == code
      && AdminDelete(store, a, id).reply.Fail? && AdminDelete(store, a, id).reply.status == code
      && AdminDelete(store, a, id).store == store
      && ClearReports(store, a, id).reply.Fail? && ClearReports(store, a, id).reply.status == code
      && ClearReports(store, a, id).store == store
      && AdminStats(store, a, userCount).Fail? && AdminStats(store, a, userCount).status == code
  {
  }
}
