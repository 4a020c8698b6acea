/** The updates screen: the signed-in user's own reports, filtered by
    status, time frame and a search over title and description, and
    optionally ordered newest first. "Now" is a parameter. */
module UpdateScreen {
  import opened Wrappers
  import opened Text
  import opened Sorting
  import opened HomeScreen

  /** The search test: title or description, never the tags. */
  predicate MatchesText(p: FeedPost, query: string) {
    query == "" || Search(ToLower(p.title), ToLower(query)) || Search(ToLower(p.description), ToLower(query))
  }

  /** The search ignores the tags: two posts that differ only in their tags
      match the same queries. */
  lemma {:induction false} SearchIgnoresTags(p: FeedPost, tags: seq<string>, query: string)
    ensures MatchesText(p, query) <==> MatchesText(p.(tags := tags), query)
    ensures MatchesText(p, query) <==>
      query == "" || Contains(ToLower(p.title), ToLower(query)) || Contains(ToLower(p.description), ToLower(query))
  {
    SearchFindsOccurrence(ToLower(p.title), ToLower(query));
    SearchFindsOccurrence(ToLower(p.description), ToLower(query));
  }

  /** `isWithinTimeFrame` with this screen's keys. */
  function WithinPeriod(createdAt: int, timeFrame: string, now: int): (r: bool)
    ensures timeFrame == "week" ==> (r <==> now - createdAt < 8 * DayMs)
    ensures timeFrame == "month" ==> (r <==> now - createdAt < 31 * DayMs)
    ensures timeFrame == "3months" ==> (r <==> now - createdAt < 91 * DayMs)
    ensures timeFrame != "week" && timeFrame != "month" && timeFrame != "3months" ==> r
  {
    var days := (now - createdAt) / DayMs;
    FloorDays(now - createdAt, 7);
    FloorDays(now - createdAt, 30);
    FloorDays(now - createdAt, 90);
    if timeFrame == "week" then days <= 7
    else if timeFrame == "month" then days <= 30
    else if timeFrame == "3months" then days <= 90
    else true
  }

  /** The home screen's keys mean nothing here: "30days" admits every post. */
  lemma {:induction false} HomeKeysIgnored(createdAt: int, now: int)
    ensures WithinPeriod(createdAt, "30days", now)
    ensures now - createdAt >= 31 * DayMs ==> !WithinTimeFrame(createdAt, "30days", now)
  {
  }

  datatype UpdateFilters = UpdateFilters(status: Option<string>, timeFrame: Option<string>, sortBy: Option<string>)

  predicate Passes(p: FeedPost, query: string, f: UpdateFilters, now: int) {
    && MatchesText(p, query)
    && (Selected(f.status) ==> ToLower(p.status) == f.status.value)
    && (Selected(f.timeFrame) ==> WithinPeriod(p.createdAt, f.timeFrame.value, now))
  }

  function FilterUpdates(posts: seq<FeedPost>, query: string, f: UpdateFilters, now: int): (r: seq<FeedPost>)
    ensures forall p :: p in r <==> p in posts && Passes(p, query, f, now)
    ensures |r| <= |posts|
    ensures (forall i :: 0 <= i < |posts| ==> Passes(posts[i], query, f, now)) ==> r == posts
  {
    if posts == [] then []
    else
      var rest := FilterUpdates(posts[1..], query, f, now);
      assert posts == [posts[0]] + posts[1..];
      assert forall i :: 0 <= i < |posts[1..]| ==> posts[1..][i] == posts[i + 1];
      if Passes(posts[0], query, f, now) then [posts[0]] + rest else rest
  }

  /** "newest" orders by creation time; any other value compares every pair
      as equal. */
  function UpdateOrder(sortBy: Option<string>): FeedPost -> Rank {
    if sortBy == Some("newest") then (p: FeedPost) => Rank(p.createdAt, 0)
    else (p: FeedPost) => Rank(0, 0)
  }

  /** `getFilteredPosts` over the user's posts. */
  function UpdatePosts(posts: seq<FeedPost>, query: string, f: UpdateFilters, now: int): seq<FeedPost> {
    SortDesc(FilterUpdates(posts, query, f, now), UpdateOrder(f.sortBy))
  }

  /** The list holds exactly the posts passing the three tests; "newest"
      orders them newest first, and any other value leaves them in the
      order the user's posts came in. */
  lemma {:induction false} UpdatePostsContents(posts: seq<FeedPost>, query: string, f: UpdateFilters, now: int)
    ensures var r := UpdatePosts(posts, query, f, now);
      && (forall p :: p in r <==> p in posts && Passes(p, query, f, now))
      && multiset(r) == multiset(FilterUpdates(posts, query, f, now))
      && (f.sortBy == Some("newest") ==> forall i, j :: 0 <= i < j < |r| ==> r[i].createdAt >= r[j].createdAt)
      && (f.sortBy != Some("newest") ==> r == FilterUpdates(posts, query, f, now))
  {
    var s := FilterUpdates(posts, query, f, now);
    var key := UpdateOrder(f.sortBy);
    SortDescMembers(s, key);
    SortDescPermutes(s, key);
    SortDescSorted(s, key);
    if f.sortBy != Some("newest") {
      SortDescAllTied(s, key);
    }
  }

  /** With no filters, no query and no ordering the user's posts are shown
      as they came. */
  lemma {:induction false} NoFiltersShowAll(posts: seq<FeedPost>, now: int)
    ensures UpdatePosts(posts, "", NoUpdateFilters, now) == posts
  {
    UpdatePostsContents(posts, "", NoUpdateFilters, now);
  }

  datatype UpdateFilterKind = StatusChoice | PeriodChoice | OrderChoice

  /** `handleFilterChange`: the chosen filter toggles, the others stay. */
  function ChangeUpdateFilter(f: UpdateFilters, kind: UpdateFilterKind, v: string): (r: UpdateFilters)
    ensures kind == StatusChoice ==> r == f.(status := ToggleValue(f.status, v))
    ensures kind == PeriodChoice ==> r == f.(timeFrame := ToggleValue(f.timeFrame, v))
    ensures kind == OrderChoice ==> r == f.(sortBy := ToggleValue(f.sortBy, v))
  {
    match kind
    case StatusChoice => f.(status := ToggleValue(f.status, v))
    case PeriodChoice => f.(timeFrame := ToggleValue(f.timeFrame, v))
    case OrderChoice => f.(sortBy := ToggleValue(f.sortBy, v))
  }

  /** Choosing the same value twice restores a filter that was unset or set
      to it. */
  lemma {:induction false} ChangeUpdateFilterTwice(f: UpdateFilters, kind: UpdateFilterKind, v: string)
    requires kind == StatusChoice ==> f.status.None? || f.status == Some(v)
    requires kind == PeriodChoice ==> f.timeFrame.None? || f.timeFrame == Some(v)
    requires kind == OrderChoice ==> f.sortBy.None? || f.sortBy == Some(v)
    ensures ChangeUpdateFilter(ChangeUpdateFilter(f, kind, v), kind, v) == f
  {
  }

  /** `clearFilters`. */
  const NoUpdateFilters := UpdateFilters(None, None, None)
}
