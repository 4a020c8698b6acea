/** The `/api/posts` handlers of the backend. The posts collection is a
    sequence of documents in insertion order, identified by `id`; every
    handler takes the collection, the requesting actor and the request's
    inputs, and yields the reply together with the collection after the
    request. The vote handlers, which edit the loaded document's vote arrays
    in place, are also given as the imperative `VoteDocument` class. */
module PostRoutes {
  import opened Wrappers
  import opened Seqs
  import opened Sorting
  import opened PostSchema
  import opened Access

  type Store = seq<Post>

  /** A handler's effect: the reply it sends and the collection it leaves. */
  datatype Step<T> = Step(reply: Reply<T>, store: Store)

  predicate UniqueIds(store: Store) {
    forall i, j :: 0 <= i < j < |store| ==> store[i].id != store[j].id
  }

  predicate HasId(store: Store, id: PostId) {
    exists i :: 0 <= i < |store| && store[i].id == id
  }

  /** What the handlers keep true of every stored post. */
  predicate PostInvariant(p: Post) {
    ReportsInStep(p) && OneReportPerUser(p) && VotesConsistent(p)
  }

  predicate StoreInvariant(store: Store) {
    UniqueIds(store) && forall i :: 0 <= i < |store| ==> PostInvariant(store[i])
  }

  /** `findById`: the position of the document with `id`, or -1. */
  function IndexOf(store: Store, id: PostId): (i: int)
    ensures -1 <= i < |store|
    ensures i >= 0 ==> store[i].id == id
    ensures i == -1 <==> !HasId(store, id)
  {
    if store == [] then -1
    else if store[0].id == id then 0
    else
      var r := IndexOf(store[1..], id);
      if r < 0 then
        assert forall k :: 1 <= k < |store| ==> store[k].id == store[1..][k - 1].id;
        -1
      else r + 1
  }

  /** Replacing one document by another with the same id keeps the
      invariant, provided the new document keeps the per-post one. */
  lemma {:induction false} ReplaceKeepsInvariant(store: Store, i: nat, p: Post)
    requires StoreInvariant(store) && i < |store|
    requires p.id == store[i].id && PostInvariant(p)
    ensures StoreInvariant(store[i := p])
  {
  }

  // ----- listing -----

  /** A non-admin sees only the posts it created; an admin sees all. */
  predicate Visible(a: Actor, p: Post) {
    IsAdmin(a) || p.userId == a.id
  }

  /** The `find(query)` filter. */
  function VisiblePosts(store: Store, a: Actor): (r: Store)
    ensures forall p :: p in r <==> p in store && Visible(a, p)
  {
    if store == [] then []
    else if Visible(a, store[0]) then [store[0]] + VisiblePosts(store[1..], a)
    else VisiblePosts(store[1..], a)
  }

  /** `post.username || post.userId?.username || "Anonymous User"`, where
      `users` maps the ids of existing users to their usernames (what
      `populate` finds). */
  function DisplayName(p: Post, users: map<UserId, string>): (name: string)
    ensures name != ""
    ensures p.username != "" ==> name == p.username
  {
    if p.username != "" then p.username
    else if p.userId in users && users[p.userId] != "" then users[p.userId]
    else "Anonymous User"
  }

  function Named(p: Post, users: map<UserId, string>): Post {
    p.(username := DisplayName(p, users))
  }

  function NewestFirstKey(p: Post): Rank {
    Rank(p.createdAt, 0)
  }

  function NameAll(s: Store, users: map<UserId, string>): (r: Store)
    ensures |r| == |s|
    ensures forall i :: 0 <= i < |s| ==> r[i] == Named(s[i], users)
  {
    if s == [] then [] else [Named(s[0], users)] + NameAll(s[1..], users)
  }

  /** `GET /`: after `ensureAuthenticated`, the visible posts, newest first,
      each with its display name. */
  function ListPosts(store: Store, a: Actor, users: map<UserId, string>): Reply<Store> {
    match EnsureAuthenticated(a)
    case Deny(code, message) => Fail(code, message)
    case Next => Ok(200, NameAll(SortDesc(VisiblePosts(store, a), NewestFirstKey), users))
  }

  /** The listing holds exactly the visible posts, each renamed, each as
      often as it is stored: a reordering of the renamed visible posts; for
      an admin that is every post. */
  lemma {:induction false} ListPostsContents(store: Store, a: Actor, users: map<UserId, string>)
    requires a.authenticated
    ensures ListPosts(store, a, users).Ok?
    ensures var r := ListPosts(store, a, users).body;
      && (forall p :: p in store && Visible(a, p) ==> Named(p, users) in r)
      && (forall x :: x in r ==> exists p :: p in store && Visible(a, p) && x == Named(p, users))
    ensures var r := ListPosts(store, a, users).body;
      && |r| == |VisiblePosts(store, a)|
      && multiset(r) == multiset(NameAll(VisiblePosts(store, a), users))
      && (IsAdmin(a) ==> |r| == |store|)
  {
    ListPostsMembers(store, a, users);
    ListPostsPermutes(store, a, users);
  }

  /** The membership half of `ListPostsContents`. */
  lemma {:induction false} ListPostsMembers(store: Store, a: Actor, users: map<UserId, string>)
    requires a.authenticated
    ensures var r := ListPosts(store, a, users).body;
      && (forall p :: p in store && Visible(a, p) ==> Named(p, users) in r)
      && (forall x :: x in r ==> exists p :: p in store && Visible(a, p) && x == Named(p, users))
  {
    var v := VisiblePosts(store, a);
    var sorted := SortDesc(v, NewestFirstKey);
    var r := NameAll(sorted, users);
    SortDescMembers(v, NewestFirstKey);
    forall p | p in store && Visible(a, p)
      ensures Named(p, users) in r
    {
      var k :| 0 <= k < |sorted| && sorted[k] == p;
      assert r[k] == Named(p, users);
    }
    forall x | x in r
      ensures exists p :: p in store && Visible(a, p) && x == Named(p, users)
    {
      var k :| 0 <= k < |r| && r[k] == x;
      assert sorted[k] in v;
    }
  }

  /** The counting half of `ListPostsContents`. */
  lemma {:induction false} ListPostsPermutes(store: Store, a: Actor, users: map<UserId, string>)
    requires a.authenticated
    ensures var r := ListPosts(store, a, users).body;
      && |r| == |VisiblePosts(store, a)|
      && multiset(r) == multiset(NameAll(VisiblePosts(store, a), users))
      && (IsAdmin(a) ==> |r| == |store|)
  {
    var v := VisiblePosts(store, a);
    var sorted := SortDesc(v, NewestFirstKey);
    SortDescPermutes(v, NewestFirstKey);
    assert |sorted| == |v| by {
      assert |multiset(sorted)| == |multiset(v)|;
    }
    NameAllPermutes(sorted, v, users);
    if IsAdmin(a) {
      AdminSeesAll(store, a);
    }
  }

  /** Renaming every post of two reorderings of one another gives two
      reorderings of one another. */
  lemma {:induction false} NameAllPermutes(s: Store, t: Store, users: map<UserId, string>)
    requires multiset(s) == multiset(t)
    ensures multiset(NameAll(s, users)) == multiset(NameAll(t, users))
    decreases |s|
  {
    if s == [] {
      assert |t| == |multiset(t)| == 0;
    } else {
      var x := s[0];
      assert x in multiset(t);
      var k :| 0 <= k < |t| && t[k] == x;
      var t' := RemoveAt(t, k);
      MultisetRemoveAt(t, k);
      MultisetRemoveAt(s, 0);
      assert RemoveAt(s, 0) == s[1..];
      MultisetCancel(multiset(s[1..]), multiset(t'), x);
      NameAllPermutes(s[1..], t', users);
      NameAllRemoveAt(t, k, users);
      NameAllRemoveAt(s, 0, users);
    }
  }

  lemma {:induction false} MultisetCancel<T>(a: multiset<T>, b: multiset<T>, x: T)
    requires a + multiset{x} == b + multiset{x}
    ensures a == b
  {
    assert a == (a + multiset{x}) - multiset{x};
    assert b == (b + multiset{x}) - multiset{x};
  }

  lemma {:induction false} MultisetRemoveAt<T>(t: seq<T>, k: nat)
    requires k < |t|
    ensures multiset(t) == multiset(RemoveAt(t, k)) + multiset{t[k]}
  {
    assert t == t[..k] + [t[k]] + t[k + 1..];
  }

  /** Renaming commutes with taking one post out. */
  lemma {:induction false} NameAllRemoveAt(t: Store, k: nat, users: map<UserId, string>)
    requires k < |t|
    ensures multiset(NameAll(t, users)) == multiset(NameAll(RemoveAt(t, k), users)) + multiset{Named(t[k], users)}
  {
    var n := NameAll(t, users);
    assert NameAll(RemoveAt(t, k), users) == RemoveAt(n, k) by {
      NameAllAppend(t[..k], t[k + 1..], users);
      assert NameAll(t[..k], users) == n[..k];
      assert NameAll(t[k + 1..], users) == n[k + 1..];
    }
    MultisetRemoveAt(n, k);
  }

  lemma {:induction false} NameAllAppend(s: Store, t: Store, users: map<UserId, string>)
    ensures NameAll(s + t, users) == NameAll(s, users) + NameAll(t, users)
  {
    assert |NameAll(s + t, users)| == |NameAll(s, users) + NameAll(t, users)|;
    forall i | 0 <= i < |s + t|
      ensures NameAll(s + t, users)[i] == (NameAll(s, users) + NameAll(t, users))[i]
    {
      if i < |s| {
        assert (s + t)[i] == s[i];
      } else {
        assert (s + t)[i] == t[i - |s|];
      }
    }
  }

  /** For an admin every post is visible, so the filter keeps all. */
  lemma {:induction false} AdminSeesAll(store: Store, a: Actor)
    requires IsAdmin(a)
    ensures VisiblePosts(store, a) == store
  {
    if store != [] {
      AdminSeesAll(store[1..], a);
      assert store == [store[0]] + store[1..];
    }
  }

  /** The listing is ordered newest first, and every entry has a non-empty
      username. */
  lemma {:induction false} ListPostsOrder(store: Store, a: Actor, users: map<UserId, string>)
    requires a.authenticated
    ensures ListPosts(store, a, users).Ok?
    ensures var r := ListPosts(store, a, users).body;
      && (forall i, j :: 0 <= i < j < |r| ==> r[i].createdAt >= r[j].createdAt)
      && (forall i :: 0 <= i < |r| ==> r[i].username != "")
  {
    var v := VisiblePosts(store, a);
    var sorted := SortDesc(v, NewestFirstKey);
    var r := NameAll(sorted, users);
    SortDescSorted(v, NewestFirstKey);
    forall i, j | 0 <= i < j < |r|
      ensures r[i].createdAt >= r[j].createdAt
    {
      assert RankLe(NewestFirstKey(sorted[j]), NewestFirstKey(sorted[i]));
    }
  }

  /** A non-admin's listing never shows another user's post. */
  lemma {:induction false} ListPostsOwnOnly(store: Store, a: Actor, users: map<UserId, string>)
    requires a.authenticated && !IsAdmin(a)
    ensures forall x :: x in ListPosts(store, a, users).body ==> x.userId == a.id
  {
    ListPostsContents(store, a, users);
  }

  // ----- create -----

  /** The location as received: `None` for a coordinate that is not a
      number. */
  datatype LocationInput = LocationInput(latitude: Option<real>, longitude: Option<real>, address: string)

  datatype CreateInput = CreateInput(
    title: string,
    description: string,
    image: string,
    location: Option<LocationInput>,
    tags: seq<string>,
    category: string)

  predicate LocationUsable(loc: Option<LocationInput>) {
    loc.Some? && loc.value.latitude.Some? && loc.value.longitude.Some?
  }

  /** The document the handler builds before saving it. */
  function Draft(a: Actor, body: CreateInput, newId: PostId, now: int): Post
    requires LocationUsable(body.location)
  {
    var loc := body.location.value;
    NewDocument(newId, body.title, body.description, body.image,
                Location(loc.latitude.value, loc.longitude.value, loc.address),
                body.category, Pending, a.id,
                if a.username != "" then a.username else "Anonymous User",
                body.tags, now)
  }

  /** `POST /`: 400 for an unusable location, otherwise the draft is saved
      (201) when it passes the schema and rejected (500) when not. `newId`
      and `now` are the database's fresh id and the clock. */
  function CreatePost(store: Store, a: Actor, body: CreateInput, newId: PostId, now: int): Step<Post> {
    match EnsureAuthenticated(a)
    case Deny(code, message) => Step(Fail(code, message), store)
    case Next =>
      if !LocationUsable(body.location) then Step(Fail(400, "Invalid location data"), store)
      else
        var p := Draft(a, body, newId, now);
        if SchemaValid(p) then Step(Ok(201, p), store + [p])
        else Step(Fail(500, "Error creating post"), store)
  }

  /** Creation succeeds exactly when the request is authenticated, the
      location usable and the required fields and category valid; the new
      post is pending, unvoted and unreported, with its address and
      username defaults applied, and it is appended to the collection. */
  lemma {:induction false} CreatePostOutcome(store: Store, a: Actor, body: CreateInput, newId: PostId, now: int)
    requires StoreInvariant(store) && !HasId(store, newId)
    ensures var s := CreatePost(store, a, body, newId, now);
      && (s.reply.Ok? <==>
            a.authenticated && LocationUsable(body.location)
            && body.title != "" && body.description != "" && body.image != ""
            && CategoryInEnum(body.category) && a.id != "")
      && (s.reply.Fail? ==> s.store == store)
      && (a.authenticated && !LocationUsable(body.location) ==> s.reply == Fail(400, "Invalid location data"))
      && (s.reply.Ok? ==>
            var p := s.reply.body;
            && s.store == store + [p]
            && s.reply.status == 201
            && p.id == newId && p.status == Pending && p.userId == a.id
            && p.upvotes == [] && p.downvotes == [] && p.reports == [] && p.reportCount == 0
            && p.title == body.title && p.description == body.description && p.image == body.image
            && p.category == body.category && p.tags == body.tags && p.createdAt == now
            && p.location == Location(body.location.value.latitude.value,
                                      body.location.value.longitude.value,
                                      body.location.value.address)
            && (a.username != "" ==> p.username == a.username)
            && (a.username == "" ==> p.username == "Anonymous User")
            && StoreInvariant(s.store))
  {
    if a.authenticated && LocationUsable(body.location) {
      var p := Draft(a, body, newId, now);
      NewDocumentConsistent(p.id, p.title, p.description, p.image, p.location, p.category, Pending,
                            p.userId, p.username, p.tags, now);
    }
  }

  // ----- status update -----

  /** `PUT /:id`: 403 for a non-admin before any lookup, 404 for an unknown
      id, otherwise `status` replaced as given (the update runs no
      validators; an absent `status` changes nothing). */
  function SetStatus(store: Store, a: Actor, id: PostId, status: Option<string>): Step<Post> {
    match EnsureAuthenticated(a)
    case Deny(code, message) => Step(Fail(code, message), store)
    case Next =>
      if !IsAdmin(a) then Step(Fail(403, "Only admins can update post status"), store)
      else
        var i := IndexOf(store, id);
        if i < 0 then Step(Fail(404, "Post not found"), store)
        else
          var p := if status.Some? then store[i].(status := status.value) else store[i];
          Step(Ok(200, p), store[i := p])
  }

  lemma {:induction false} SetStatusOutcome(store: Store, a: Actor, id: PostId, status: Option<string>)
    requires StoreInvariant(store)
    ensures var s := SetStatus(store, a, id, status);
      && (a.authenticated && !IsAdmin(a) ==> s.reply == Fail(403, "Only admins can update post status"))
      && (a.authenticated && IsAdmin(a) && !HasId(store, id) ==> s.reply == Fail(404, "Post not found"))
      && (s.reply.Ok? <==> a.authenticated && IsAdmin(a) && HasId(store, id))
      && (s.reply.Fail? ==> s.store == store)
      && (s.reply.Ok? ==>
            && |s.store| == |store|
            && (forall k :: 0 <= k < |store| && store[k].id != id ==> s.store[k] == store[k])
            && (forall k :: 0 <= k < |store| && store[k].id == id ==>
                  s.store[k] == s.reply.body
                  && s.reply.body == store[k].(status := if status.Some? then status.value else store[k].status))
            && StoreInvariant(s.store))
  {
    var i := IndexOf(store, id);
    if a.authenticated && IsAdmin(a) && i >= 0 {
      var p := if status.Some? then store[i].(status := status.value) else store[i];
      ReplaceKeepsInvariant(store, i, p);
    }
  }

  // ----- delete -----

  /** `DELETE /:id`: 404 for an unknown id, then 403 unless the actor is an
      admin or the post's owner; otherwise the post is removed. */
  function DeletePost(store: Store, a: Actor, id: PostId): Step<string> {
    match EnsureAuthenticated(a)
    case Deny(code, message) => Step(Fail(code, message), store)
    case Next =>
      var i := IndexOf(store, id);
      if i < 0 then Step(Fail(404, "Post not found"), store)
      else if !IsAdmin(a) && store[i].userId != a.id then Step(Fail(403, "Not authorized to delete this post"), store)
      else Step(Ok(200, "Post deleted successfully"), RemoveAt(store, i))
  }

  /** Removing the document at `i` removes exactly that document and keeps
      the invariant. */
  lemma {:induction false} RemoveKeepsInvariant(store: Store, i: nat)
    requires StoreInvariant(store) && i < |store|
    ensures StoreInvariant(RemoveAt(store, i))
    ensures !HasId(RemoveAt(store, i), store[i].id)
    ensures forall p :: p in RemoveAt(store, i) <==> p in store && p.id != store[i].id
  {
    var r := RemoveAt(store, i);
    RemoveAtMembers(store, i);
    forall k | 0 <= k < |r|
      ensures r[k] == (if k < i then store[k] else store[k + 1])
    {
    }
    forall p | p in store && p.id != store[i].id
      ensures p in r
    {
      var k :| 0 <= k < |store| && store[k] == p;
      assert k != i;
    }
  }

  lemma {:induction false} DeletePostOutcome(store: Store, a: Actor, id: PostId)
    requires StoreInvariant(store)
    ensures var s := DeletePost(store, a, id);
      && (a.authenticated && !HasId(store, id) ==> s.reply == Fail(404, "Post not found"))
      && (s.reply.Ok? <==>
            a.authenticated && exists k :: 0 <= k < |store| && store[k].id == id && (IsAdmin(a) || store[k].userId == a.id))
      && (s.reply.Fail? ==> s.store == store)
      && (s.reply.Ok? ==>
            && !HasId(s.store, id)
            && (forall p :: p in s.store <==> p in store && p.id != id)
            && StoreInvariant(s.store))
  {
    var i := IndexOf(store, id);
    if a.authenticated && i >= 0 {
      if IsAdmin(a) || store[i].userId == a.id {
        RemoveKeepsInvariant(store, i);
      } else {
        forall k | 0 <= k < |store| && store[k].id == id
          ensures !(IsAdmin(a) || store[k].userId == a.id)
        {
          assert k == i;
        }
      }
    }
  }

  // ----- votes -----

  /** The two vote lists of a post. */
  datatype Votes = Votes(up: seq<UserId>, down: seq<UserId>)

  predicate VotesWellFormed(v: Votes) {
    NoDuplicates(v.up) && NoDuplicates(v.down) && forall u :: u in v.up ==> u !in v.down
  }

  /** Toggle `u` in `mine`: spliced out when present, pushed when not. */
  function Toggle(mine: seq<UserId>, u: UserId): seq<UserId> {
    if u in mine then RemoveFirst(mine, u) else mine + [u]
  }

  /** The upvote handler: the voter's downvote withdrawn, then its upvote
      toggled. */
  function CastUpvote(v: Votes, u: UserId): Votes {
    Votes(Toggle(v.up, u), RemoveFirst(v.down, u))
  }

  /** The downvote handler, the mirror image. */
  function CastDownvote(v: Votes, u: UserId): Votes {
    Votes(RemoveFirst(v.up, u), Toggle(v.down, u))
  }

  lemma {:induction false} ToggleEffect(mine: seq<UserId>, u: UserId)
    requires NoDuplicates(mine)
    ensures NoDuplicates(Toggle(mine, u))
    ensures u in Toggle(mine, u) <==> u !in mine
    ensures Without(Toggle(mine, u), u) == Without(mine, u)
    ensures forall x :: x in Toggle(mine, u) && x != u ==> x in mine
  {
    RemoveFirstKeepsOthers(mine, u);
    if u !in mine {
      WithoutAppend(mine, [u], u);
      WithoutSingleton(u);
    }
  }

  /** After an upvote the voter's upvote is flipped and its downvote gone;
      the lists stay duplicate-free and disjoint; every other user's entries
      keep their order. */
  lemma {:induction false} UpvoteEffect(v: Votes, u: UserId)
    requires VotesWellFormed(v)
    ensures var w := CastUpvote(v, u);
      && VotesWellFormed(w)
      && (u in w.up <==> u !in v.up)
      && u !in w.down
      && Without(w.up, u) == Without(v.up, u)
      && Without(w.down, u) == Without(v.down, u)
  {
    ToggleEffect(v.up, u);
    RemoveFirstKeepsOthers(v.down, u);
  }

  lemma {:induction false} DownvoteEffect(v: Votes, u: UserId)
    requires VotesWellFormed(v)
    ensures var w := CastDownvote(v, u);
      && VotesWellFormed(w)
      && (u in w.down <==> u !in v.down)
      && u !in w.up
      && Without(w.up, u) == Without(v.up, u)
      && Without(w.down, u) == Without(v.down, u)
  {
    ToggleEffect(v.down, u);
    RemoveFirstKeepsOthers(v.up, u);
  }

  /** For a user who had not voted, a second upvote undoes the first. */
  lemma {:induction false} UpvoteTwiceRestores(v: Votes, u: UserId)
    requires u !in v.up && u !in v.down
    ensures CastUpvote(CastUpvote(v, u), u) == v
  {
    RemoveFirstOfAppended(v.up, u);
  }

  /** An upvote followed by a downvote leaves the voter among the downvotes
      only. */
  lemma {:induction false} UpvoteThenDownvote(v: Votes, u: UserId)
    requires VotesWellFormed(v) && u !in v.up
    ensures var w := CastDownvote(CastUpvote(v, u), u);
      u in w.down && u !in w.up
  {
    UpvoteEffect(v, u);
    DownvoteEffect(CastUpvote(v, u), u);
  }

  function WithVotes(p: Post, v: Votes): Post {
    p.(upvotes := v.up, downvotes := v.down)
  }

  /** `POST /:postId/upvote` and `/downvote`: 404 for an unknown post,
      otherwise the vote lists written back with `$set`. */
  function VoteRoute(store: Store, a: Actor, id: PostId, up: bool): Step<Post> {
    match EnsureAuthenticated(a)
    case Deny(code, message) => Step(Fail(code, message), store)
    case Next =>
      var i := IndexOf(store, id);
      if i < 0 then Step(Fail(404, "Post not found"), store)
      else
        var v := Votes(store[i].upvotes, store[i].downvotes);
        var p := WithVotes(store[i], if up then CastUpvote(v, a.id) else CastDownvote(v, a.id));
        Step(Ok(200, p), store[i := p])
  }

  /** A vote on an existing post changes only that post's vote lists, and
      keeps them duplicate-free and disjoint although the write skips the
      schema validators. */
  lemma {:induction false} VoteRouteOutcome(store: Store, a: Actor, id: PostId, up: bool)
    requires StoreInvariant(store)
    ensures var s := VoteRoute(store, a, id, up);
      && (s.reply.Ok? <==> a.authenticated && HasId(store, id))
      && (s.reply.Fail? ==> s.store == store)
      && (s.reply.Ok? ==>
            && StoreInvariant(s.store)
            && |s.store| == |store|
            && forall k :: 0 <= k < |store| ==>
                 if store[k].id == id then
                   s.store[k] == s.reply.body
                   && s.store[k] == store[k].(upvotes := s.store[k].upvotes, downvotes := s.store[k].downvotes)
                   && (up ==> (a.id in s.store[k].upvotes <==> a.id !in store[k].upvotes) && a.id !in s.store[k].downvotes)
                   && (!up ==> (a.id in s.store[k].downvotes <==> a.id !in store[k].downvotes) && a.id !in s.store[k].upvotes)
                 else s.store[k] == store[k])
  {
    var i := IndexOf(store, id);
    if a.authenticated && i >= 0 {
      var v := Votes(store[i].upvotes, store[i].downvotes);
      assert VotesWellFormed(v);
      if up { UpvoteEffect(v, a.id); } else { DownvoteEffect(v, a.id); }
      var p := WithVotes(store[i], if up then CastUpvote(v, a.id) else CastDownvote(v, a.id));
      ReplaceKeepsInvariant(store, i, p);
    }
  }

  /** The loaded document of the vote handlers, whose two arrays are edited
      in place before being written back. */
  class VoteDocument {
    var upvotes: seq<UserId>
    var downvotes: seq<UserId>

    constructor (up: seq<UserId>, down: seq<UserId>)
      ensures upvotes == up && downvotes == down
    {
      upvotes := up;
      downvotes := down;
    }

    function Current(): Votes
      reads this
    {
      Votes(upvotes, downvotes)
    }

    /** The upvote handler's in-place edits. */
    method Upvote(u: UserId)
      modifies this
      ensures Current() == CastUpvote(old(Current()), u)
    {
      var di := FindIndex(downvotes, u);
      if di > -1 {
        downvotes := downvotes[..di] + downvotes[di + 1..];
      }
      var ui := FindIndex(upvotes, u);
      if ui > -1 {
        upvotes := upvotes[..ui] + upvotes[ui + 1..];
      } else {
        upvotes := upvotes + [u];
      }
    }

    /** The downvote handler's in-place edits. */
    method Downvote(u: UserId)
      modifies this
      ensures Current() == CastDownvote(old(Current()), u)
    {
      var ui := FindIndex(upvotes, u);
      if ui > -1 {
        upvotes := upvotes[..ui] + upvotes[ui + 1..];
      }
      var di := FindIndex(downvotes, u);
      if di > -1 {
        downvotes := downvotes[..di] + downvotes[di + 1..];
      } else {
        downvotes := downvotes + [u];
      }
    }
  }

  /** `findIndex` over a vote array: the first position holding `u`, or -1
      when no entry does. */
  method FindIndex(s: seq<UserId>, u: UserId) returns (i: int)
    ensures -1 <= i < |s|
    ensures i >= 0 ==> s[i] == u && u !in s[..i]
    ensures i == -1 <==> u !in s
    ensures i == FirstIndex(s, u)
  {
    var k := 0;
    while k < |s|
      invariant 0 <= k <= |s|
      invariant u !in s[..k]
    {
      if s[k] == u {
        FirstIndexUnique(s, u, k);
        return k;
      }
      k := k + 1;
    }
    assert s[..k] == s;
    return -1;
  }

  lemma {:induction false} FirstIndexUnique(s: seq<UserId>, u: UserId, k: nat)
    requires k < |s| && s[k] == u && u !in s[..k]
    ensures FirstIndex(s, u) == k
  {
  }

  // ----- reports -----

  predicate HasReportFrom(p: Post, u: UserId) {
    exists k :: 0 <= k < |p.reports| && p.reports[k].userId == u
  }

  function AddReport(p: Post, u: UserId, reason: string, now: int): Post {
    p.(reports := p.reports + [ReportEntry(u, reason, now)], reportCount := p.reportCount + 1)
  }

  /** `POST /:postId/report`: 400 without a reason; the conditional update
      matches a post with this id and no report from the actor; when it
      matches nothing, 404 if the post is missing and 400 otherwise. */
  function ReportPost(store: Store, a: Actor, id: PostId, reason: string, now: int): Step<Post> {
    match EnsureAuthenticated(a)
    case Deny(code, message) => Step(Fail(code, message), store)
    case Next =>
      if reason == "" then Step(Fail(400, "Report reason is required"), store)
      else
        var i := IndexOf(store, id);
        if i >= 0 && !HasReportFrom(store[i], a.id) then
          var p := AddReport(store[i], a.id, reason, now);
          Step(Ok(200, p), store[i := p])
        else if i < 0 then Step(Fail(404, "Post not found"), store)
        else Step(Fail(400, "You have already reported this post"), store)
  }

  lemma {:induction false} ReportPostOutcome(store: Store, a: Actor, id: PostId, reason: string, now: int)
    requires StoreInvariant(store)
    ensures var s := ReportPost(store, a, id, reason, now);
      && (a.authenticated && reason == "" ==> s.reply == Fail(400, "Report reason is required"))
      && (a.authenticated && reason != "" && !HasId(store, id) ==> s.reply == Fail(404, "Post not found"))
      && (s.reply.Ok? <==>
            a.authenticated && reason != ""
            && exists k :: 0 <= k < |store| && store[k].id == id && !HasReportFrom(store[k], a.id))
      && ((a.authenticated && reason != ""
           && exists k :: 0 <= k < |store| && store[k].id == id && HasReportFrom(store[k], a.id))
          ==> s.reply == Fail(400, "You have already reported this post"))
      && (s.reply.Fail? ==> s.store == store)
      && (s.reply.Ok? ==>
            && StoreInvariant(s.store)
            && |s.store| == |store|
            && forall k :: 0 <= k < |store| ==>
                 if store[k].id == id then
                   s.store[k] == s.reply.body
                   && s.store[k].reports == store[k].reports + [ReportEntry(a.id, reason, now)]
                   && s.store[k].reportCount == store[k].reportCount + 1
                 else s.store[k] == store[k])
  {
    var i := IndexOf(store, id);
    if a.authenticated && reason != "" && i >= 0 {
      if !HasReportFrom(store[i], a.id) {
        var p := AddReport(store[i], a.id, reason, now);
        forall x, y | 0 <= x < y < |p.reports|
          ensures p.reports[x].userId != p.reports[y].userId
        {
          if y == |store[i].reports| {
            assert p.reports[x] == store[i].reports[x];
          }
        }
        ReplaceKeepsInvariant(store, i, p);
      }
      forall k | 0 <= k < |store| && store[k].id == id
        ensures k == i
      {
      }
    }
  }

  /** A user's second report on the same post is always refused. */
  lemma {:induction false} ReportTwiceRefused(store: Store, a: Actor, id: PostId, reason: string, again: string, now: int, later: int)
    requires StoreInvariant(store) && a.authenticated && reason != "" && again != ""
    requires ReportPost(store, a, id, reason, now).reply.Ok?
    ensures ReportPost(ReportPost(store, a, id, reason, now).store, a, id, again, later).reply
         == Fail(400, "You have already reported this post")
  {
    var s := ReportPost(store, a, id, reason, now).store;
    var i := IndexOf(store, id);
    assert s[i].id == id;
    var j := IndexOf(s, id);
    assert j == i by {
      ReportPostOutcome(store, a, id, reason, now);
    }
    assert s[i].reports[|s[i].reports| - 1].userId == a.id;
  }

  /** What `GET /:postId/reports` answers. */
  datatype ReportSummary = ReportSummary(reportCount: int, reports: seq<ReportEntry>, threshold: int, exceedsThreshold: bool)

  const ReportsThreshold := 5

  function ReportsStatus(store: Store, a: Actor, id: PostId): (r: Reply<ReportSummary>)
    ensures r.Ok? ==> r.body.threshold == 5 && (r.body.exceedsThreshold <==> r.body.reportCount >= 5)
    ensures r.Ok? <==> a.authenticated && HasId(store, id)
    ensures r.Ok? ==> exists k :: 0 <= k < |store| && store[k].id == id
                        && r.body.reportCount == store[k].reportCount && r.body.reports == store[k].reports
  {
    match EnsureAuthenticated(a)
    case Deny(code, message) => Fail(code, message)
    case Next =>
      var i := IndexOf(store, id);
      if i < 0 then Fail(404, "Post not found")
      else
        var p := store[i];
        Ok(200, ReportSummary(p.reportCount, p.reports, ReportsThreshold, p.reportCount >= ReportsThreshold))
  }

  // ----- categories -----

  datatype CategoryGroup = CategoryGroup(name: string, subcategories: seq<string>)

  /** `GET /categories`. */
  const Categories: seq<CategoryGroup> := [
    CategoryGroup("Water", ["Water Supply", "Drainage", "Flooding"]),
    CategoryGroup("Roads", ["Potholes", "Traffic Signals", "Street Lights"]),
    CategoryGroup("Landslides", ["Road Blockage", "Property Damage", "Emergency Response"]),
    CategoryGroup("Electricity", ["Power Outage", "Faulty Lines", "Street Lighting"]),
    CategoryGroup("Sanitation", ["Garbage Collection", "Public Toilets", "Sewage"]),
    CategoryGroup("Others", ["General", "Emergency", "Maintenance"])
  ]

  /** The category names offered to clients are exactly the ones the schema
      accepts. */
  lemma {:induction false} CategoriesMatchSchema()
    ensures forall c :: (exists k :: 0 <= k < |Categories| && Categories[k].name == c) <==> CategoryInEnum(c)
  {
    forall c | CategoryInEnum(c)
      ensures exists k :: 0 <= k < |Categories| && Categories[k].name == c
    {
      if c == "Water" { assert Categories[0].name == c; }
      else if c == "Roads" { assert Categories[1].name == c; }
      else if c == "Landslides" { assert Categories[2].name == c; }
      else if c == "Electricity" { assert Categories[3].name == c; }
      else if c == "Sanitation" { assert Categories[4].name == c; }
      else { assert Categories[5].name == c; }
    }
  }
}
