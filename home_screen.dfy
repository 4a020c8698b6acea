/** The home feed: the search, category, status, time-frame and
    resolved-with-proof filters and the three orderings; the filter
    selection; the date label; and the notification effect that watches the
    feed for the user's own reports and for status changes. "Now" and the
    parts of a date are parameters. Times are milliseconds. */
module HomeScreen {
  import opened Wrappers
  import opened Text
  import opened Seqs
  import opened Sorting

  /** A post's `userId` as the feed delivers it: the feed route populates it
      into an object holding the author's id and username (or null when the
      author is gone); a plain id string is what an unpopulated document
      would carry. */
  datatype AuthorField = AuthorId(id: string) | Populated(id: string, username: string) | NoAuthor

  /** A post of the feed; `upvotes` and `reports` are the lengths of the two
      arrays, and `proofImage` is "" when absent. */
  datatype FeedPost = FeedPost(
    id: string,
    title: string,
    description: string,
    tags: seq<string>,
    category: string,
    status: string,
    author: AuthorField,
    upvotes: nat,
    reports: nat,
    createdAt: int,
    proofImage: string)

  // ----- search and filters -----

  /** The search test: with a query, a case-insensitive substring of the
      title or description, or of a tag once the query's first "#" is
      dropped; without one, everything. */
  predicate MatchesSearch(p: FeedPost, query: string) {
    query == "" ||
    var q := ToLower(query);
    Search(ToLower(p.title), q) || Search(ToLower(p.description), q)
    || exists i :: 0 <= i < |p.tags| && Search(ToLower(p.tags[i]), RemoveFirstChar(q, '#'))
  }

  /** The search test read as substring containment. */
  lemma {:induction false} MatchesSearchMeaning(p: FeedPost, query: string)
    ensures MatchesSearch(p, query) <==>
      || query == ""
      || Contains(ToLower(p.title), ToLower(query))
      || Contains(ToLower(p.description), ToLower(query))
      || exists i :: 0 <= i < |p.tags| && Contains(ToLower(p.tags[i]), RemoveFirstChar(ToLower(query), '#'))
  {
    var q := ToLower(query);
    SearchFindsOccurrence(ToLower(p.title), q);
    SearchFindsOccurrence(ToLower(p.description), q);
    forall i | 0 <= i < |p.tags|
      ensures Search(ToLower(p.tags[i]), RemoveFirstChar(q, '#')) <==> Contains(ToLower(p.tags[i]), RemoveFirstChar(q, '#'))
    {
      SearchFindsOccurrence(ToLower(p.tags[i]), RemoveFirstChar(q, '#'));
    }
  }

  const DayMs := 86400000

  /** `isWithinTimeFrame`: whole days elapsed, rounded down, at most 7, 30
      or 90; an unknown key admits everything. */
  function WithinTimeFrame(createdAt: int, timeFrame: string, now: int): (r: bool)
    ensures timeFrame == "week" ==> (r <==> now - createdAt < 8 * DayMs)
    ensures timeFrame == "30days" ==> (r <==> now - createdAt < 31 * DayMs)
    ensures timeFrame == "90days" ==> (r <==> now - createdAt < 91 * DayMs)
    ensures timeFrame != "week" && timeFrame != "30days" && timeFrame != "90days" ==> r
  {
    var days := (now - createdAt) / DayMs;
    FloorDays(now - createdAt, 7);
    FloorDays(now - createdAt, 30);
    FloorDays(now - createdAt, 90);
    if timeFrame == "week" then days <= 7
    else if timeFrame == "30days" then days <= 30
    else if timeFrame == "90days" then days <= 90
    else true
  }

  /** `Math.floor(d / DayMs) <= n` exactly when fewer than `n + 1` whole days
      have passed; Dafny's division rounds down for a positive divisor, as
      `Math.floor` does. */
  lemma {:induction false} FloorDays(d: int, n: int)
    ensures d / DayMs <= n <==> d < (n + 1) * DayMs
  {
    var q, r := d / DayMs, d % DayMs;
    assert d == q * DayMs + r && 0 <= r < DayMs;
    if q <= n {
      assert q * DayMs <= n * DayMs;
    } else {
      assert q * DayMs >= (n + 1) * DayMs;
    }
  }

  /** A post dated in the future passes every time frame. */
  lemma {:induction false} FuturePostsPass(createdAt: int, timeFrame: string, now: int)
    requires createdAt > now
    ensures WithinTimeFrame(createdAt, timeFrame, now)
  {
  }

  /** The filter state. */
  datatype Filters = Filters(status: Option<string>, timeFrame: Option<string>, sortBy: Option<string>, showResolved: bool)

  /** A truthy filter value. */
  predicate Selected(o: Option<string>) {
    o.Some? && o.value != ""
  }

  /** The five tests `getFilteredPosts` applies to a post. */
  predicate Keep(p: FeedPost, query: string, category: string, f: Filters, now: int) {
    && MatchesSearch(p, query)
    && (category == "All" || p.category == category)
    && (Selected(f.status) ==> ToLower(p.status) == f.status.value)
    && (Selected(f.timeFrame) ==> WithinTimeFrame(p.createdAt, f.timeFrame.value, now))
    && (f.showResolved ==> ToLower(p.status) == "resolved" && p.proofImage != "")
  }

  function FilterPosts(posts: seq<FeedPost>, query: string, category: string, f: Filters, now: int): (r: seq<FeedPost>)
    ensures forall p :: p in r <==> p in posts && Keep(p, query, category, f, now)
    ensures |r| <= |posts|
  {
    if posts == [] then []
    else
      var rest := FilterPosts(posts[1..], query, category, f, now);
      assert forall p :: p in posts <==> p == posts[0] || p in posts[1..];
      if Keep(posts[0], query, category, f, now) then [posts[0]] + rest else rest
  }

  /** The comparator key of a sort option: upvote count; report count with
      the newest first among ties; otherwise the creation time. */
  function OrderKey(sortBy: Option<string>): FeedPost -> Rank {
    if sortBy == Some("upvotes") then (p: FeedPost) => Rank(p.upvotes, 0)
    else if sortBy == Some("spam") then (p: FeedPost) => Rank(p.reports, p.createdAt)
    else (p: FeedPost) => Rank(p.createdAt, 0)
  }

  /** `getFilteredPosts`. */
  function FilteredPosts(posts: seq<FeedPost>, query: string, category: string, f: Filters, now: int): seq<FeedPost> {
    SortDesc(FilterPosts(posts, query, category, f, now), OrderKey(f.sortBy))
  }

  /** The list holds exactly the posts passing all five tests, each as often
      as the filtered feed, in the order the sort option asks for. */
  lemma {:induction false} FilteredPostsContents(posts: seq<FeedPost>, query: string, category: string, f: Filters, now: int)
    ensures var r := FilteredPosts(posts, query, category, f, now);
      && (forall p :: p in r <==> p in posts && Keep(p, query, category, f, now))
      && multiset(r) == multiset(FilterPosts(posts, query, category, f, now))
      && (f.sortBy == Some("upvotes") ==> forall i, j :: 0 <= i < j < |r| ==> r[i].upvotes >= r[j].upvotes)
      && (f.sortBy == Some("spam") ==> forall i, j :: 0 <= i < j < |r| ==>
            r[i].reports > r[j].reports || (r[i].reports == r[j].reports && r[i].createdAt >= r[j].createdAt))
      && (f.sortBy != Some("upvotes") && f.sortBy != Some("spam") ==>
            forall i, j :: 0 <= i < j < |r| ==> r[i].createdAt >= r[j].createdAt)
  {
    var s := FilterPosts(posts, query, category, f, now);
    var key := OrderKey(f.sortBy);
    SortDescMembers(s, key);
    SortDescPermutes(s, key);
    SortDescSorted(s, key);
  }

  /** Which filter a selection button sets. */
  datatype FilterKind = StatusFilter | TimeFrameFilter | SortFilter

  /** Selecting `v` again clears it; selecting anything else sets it. */
  function ToggleValue(o: Option<string>, v: string): (r: Option<string>)
    ensures r == Some(v) <==> o != Some(v)
    ensures r.None? <==> o == Some(v)
  {
    if o == Some(v) then None else Some(v)
  }

  /** `handleFilterChange` for a selection button: only that filter moves. */
  function HandleFilterChange(f: Filters, kind: FilterKind, v: string): (r: Filters)
    ensures r.showResolved == f.showResolved
    ensures kind == StatusFilter ==> r == f.(status := ToggleValue(f.status, v))
    ensures kind == TimeFrameFilter ==> r == f.(timeFrame := ToggleValue(f.timeFrame, v))
    ensures kind == SortFilter ==> r == f.(sortBy := ToggleValue(f.sortBy, v))
  {
    match kind
    case StatusFilter => f.(status := ToggleValue(f.status, v))
    case TimeFrameFilter => f.(timeFrame := ToggleValue(f.timeFrame, v))
    case SortFilter => f.(sortBy := ToggleValue(f.sortBy, v))
  }

  /** Pressing the same button twice restores a filter that was unset or
      set to that value; from a different value it ends unset. */
  lemma {:induction false} FilterChangeTwice(f: Filters, kind: FilterKind, v: string)
    ensures var twice := HandleFilterChange(HandleFilterChange(f, kind, v), kind, v);
      && (kind == StatusFilter ==>
            (if f.status.None? || f.status == Some(v) then twice.status == f.status else twice.status.None?))
      && (kind == TimeFrameFilter ==>
            (if f.timeFrame.None? || f.timeFrame == Some(v) then twice.timeFrame == f.timeFrame else twice.timeFrame.None?))
      && (kind == SortFilter ==>
            (if f.sortBy.None? || f.sortBy == Some(v) then twice.sortBy == f.sortBy else twice.sortBy.None?))
  {
  }

  /** The resolved switch: it passes the negation of the shown value, which
      never equals the current one, so the switch always flips. */
  function ToggleShowResolved(f: Filters): (r: Filters)
    ensures r.showResolved != f.showResolved
    ensures r.(showResolved := f.showResolved) == f
  {
    var v := !f.showResolved;
    f.(showResolved := if f.showResolved == v then false else v)
  }

  const NoFilters := Filters(None, None, None, false)

  /** `clearFilters`: with no query and every category, the feed is shown
      whole, newest first. */
  lemma {:induction false} ClearedFiltersShowAll(posts: seq<FeedPost>, now: int)
    ensures var r := FilteredPosts(posts, "", "All", NoFilters, now);
      && multiset(r) == multiset(posts)
      && forall i, j :: 0 <= i < j < |r| ==> r[i].createdAt >= r[j].createdAt
  {
    FilteredPostsContents(posts, "", "All", NoFilters, now);
    KeepAllPosts(posts, now);
  }

  lemma {:induction false} KeepAllPosts(posts: seq<FeedPost>, now: int)
    ensures FilterPosts(posts, "", "All", NoFilters, now) == posts
  {
    if posts != [] {
      KeepAllPosts(posts[1..], now);
      assert posts == [posts[0]] + posts[1..];
    }
  }

  // ----- date label -----

  const Months := ["Jan", "Feb", "Mar", "Apr", "May", "Jun", "Jul", "Aug", "Sep", "Oct", "Nov", "Dec"]

  /** The parts of a local date the label uses: 0-based month. */
  datatype DateParts = DateParts(month: nat, day: nat, hours: nat, minutes: nat)

  /** The twelve-hour clock: `hours % 12 || 12`. */
  function Hour12(h: nat): (r: nat)
    ensures 1 <= r <= 12
    ensures r % 12 == h % 12
  {
    if h % 12 == 0 then 12 else h % 12
  }

  function Meridiem(h: nat): (r: string)
    ensures |r| == 2
    ensures r == "PM" <==> h >= 12
  {
    if h >= 12 then "PM" else "AM"
  }

  /** Minutes padded to two digits. */
  function PadMinutes(m: nat): (r: string)
    requires m < 60
    ensures |r| == 2 && AllDigits(r) && DecimalValue(r) == m
  {
    NatToStringValue(m);
    if m < 10 then
      assert DecimalValue("0" + NatToString(m)) == DecimalValue(NatToString(m)) by {
        assert ("0" + NatToString(m))[..1] == "0";
      }
      "0" + NatToString(m)
    else
      assert NatToString(m) == NatToString(m / 10) + [DigitChar(m % 10)];
      NatToString(m)
  }

  /** Where the month, the day and the hour sit in the front of the label. */
  lemma {:induction false} LabelFront(m: string, ds: string, hs: string)
    requires |m| == 3
    ensures var f := m + " " + ds + ", " + hs;
      && |f| == 6 + |ds| + |hs|
      && f[..3] == m && f[3] == ' ' && f[4..4 + |ds|] == ds && f[4 + |ds|..6 + |ds|] == ", "
      && f[6 + |ds|..] == hs
  {
    var a := m + " ";
    var b := a + ds;
    var c := b + ", ";
    assert c[..|b|] == b && b[..|a|] == a;
    assert c[|b|..] == ", ";
    assert b[|a|..] == ds;
  }

  /** Where the minutes and the suffix sit at the back of the label. */
  lemma {:induction false} LabelBack(f: string, mm: string, ap: string)
    requires |mm| == 2 && |ap| == 2
    ensures var r := f + ":" + mm + " " + ap;
      && |r| == |f| + 6 && r[..|f|] == f
      && r[|r| - 2..] == ap && r[|r| - 6..|r| - 3] == ":" + mm
  {
    var a := f + ":";
    var b := a + mm;
    var c := b + " ";
    assert (c + ap)[..|f|] == f;
    assert (c + ap)[|c|..] == ap;
    assert (c + ap)[|f|..|b|] == b[|f|..] == ":" + mm;
  }

  /** The label's text: "Mon D, h:mm AM" from its pieces. */
  function Label(m: string, ds: string, hs: string, mm: string, ap: string): string {
    m + " " + ds + ", " + hs + ":" + mm + " " + ap
  }

  /** Where each piece sits in the label. */
  lemma {:induction false} LabelShape(m: string, ds: string, hs: string, mm: string, ap: string)
    requires |m| == 3 && |mm| == 2 && |ap| == 2
    ensures var r := Label(m, ds, hs, mm, ap);
      && |r| == 12 + |ds| + |hs|
      && r[..3] == m && r[|r| - 2..] == ap && r[|r| - 6..|r| - 3] == ":" + mm
      && r[3] == ' ' && r[4..4 + |ds|] == ds && r[4 + |ds|..6 + |ds|] == ", "
      && r[6 + |ds|..6 + |ds| + |hs|] == hs
  {
    var front := m + " " + ds + ", " + hs;
    LabelFront(m, ds, hs);
    LabelBack(front, mm, ap);
    var r := front + ":" + mm + " " + ap;
    assert r[..3] == front[..3];
    assert r[4..4 + |ds|] == front[4..4 + |ds|];
    assert r[4 + |ds|..6 + |ds|] == front[4 + |ds|..6 + |ds|];
    assert r[6 + |ds|..6 + |ds| + |hs|] == front[6 + |ds|..];
  }

  /** `formatDate`: "Mon D, h:mm AM". The day and the hour are the digits
      between the fixed separators, and they read back as the day of the
      month and the twelve-hour value. */
  function FormatDate(d: DateParts): (r: string)
    requires d.month < 12 && d.hours < 24 && d.minutes < 60
    ensures |r| >= 14
    ensures r[..3] == Months[d.month]
    ensures r[|r| - 2..] == Meridiem(d.hours)
    ensures r[|r| - 6..|r| - 3] == ":" + PadMinutes(d.minutes)
    ensures var ds := NatToString(d.day);
      var hs := NatToString(Hour12(d.hours));
      && |r| == 12 + |ds| + |hs|
      && r[3] == ' ' && r[4..4 + |ds|] == ds && r[4 + |ds|..6 + |ds|] == ", "
      && r[6 + |ds|..6 + |ds| + |hs|] == hs
      && DecimalValue(r[4..4 + |ds|]) == d.day
      && DecimalValue(r[6 + |ds|..6 + |ds| + |hs|]) == Hour12(d.hours)
  {
    assert |Months[d.month]| == 3;
    LabelShape(Months[d.month], NatToString(d.day), NatToString(Hour12(d.hours)), PadMinutes(d.minutes), Meridiem(d.hours));
    NatToStringValue(d.day);
    NatToStringValue(Hour12(d.hours));
    Label(Months[d.month], NatToString(d.day), NatToString(Hour12(d.hours)), PadMinutes(d.minutes), Meridiem(d.hours))
  }

  // ----- notifications -----

  datatype Notification = Notification(
    id: int, kind: string, postId: string, title: string, message: string, read: bool, status: string)

  /** The ownership test as written: the feed's `userId` compared with `===`
      to the signed-in user's id string. Only an unpopulated id can pass. */
  function OwnsAsWritten(author: AuthorField, user: Option<string>): (r: bool)
    ensures r ==> author.AuthorId?
  {
    author.AuthorId? && user.Some? && author.id == user.value
  }

  /** The ownership test as evidently intended: the author's id, whether
      populated or not, is the user's. */
  function Owns(author: AuthorField, user: Option<string>): (r: bool)
    ensures r <==> user.Some? && !author.NoAuthor? && author.id == user.value
  {
    match author
    case AuthorId(id) => user.Some? && id == user.value
    case Populated(id, _) => user.Some? && id == user.value
    case NoAuthor => false
  }

  function Owner(author: AuthorField, user: Option<string>, asWritten: bool): bool {
    if asWritten then OwnsAsWritten(author, user) else Owns(author, user)
  }

  function StatusMessage(status: string, title: string): string {
    if status == "pending" then "Your report \"" + title + "\" is now pending review by the authorities."
    else if status == "in-progress" then
      "Great news! Your report \"" + title + "\" is now being processed by the Municipal Authority. Expected completion: 4-5 days."
    else if status == "resolved" then "Success! Your report \"" + title + "\" has been resolved. Check the resolution details."
    else "Your report \"" + title + "\" status has been updated to " + status + "."
  }

  function PendingNote(p: FeedPost, now: int): Notification {
    Notification(now, "status_pending", p.id, p.title,
      "Your new report \"" + p.title + "\" has been submitted and is pending review.", false, "pending")
  }

  function ChangeNote(p: FeedPost, current: string, now: int): Notification {
    Notification(now, "status_" + current, p.id, p.title, StatusMessage(current, p.title), false, current)
  }

  /** The notifications about one post. */
  function NotesFor(notes: seq<Notification>, id: string): (r: seq<Notification>)
    ensures forall n :: n in r <==> n in notes && n.postId == id
  {
    if notes == [] then []
    else
      var rest := NotesFor(notes[1..], id);
      assert forall n :: n in notes <==> n == notes[0] || n in notes[1..];
      if notes[0].postId == id then [notes[0]] + rest else rest
  }

  /** `prev.filter(n => n.postId !== id)`. */
  function DropPost(notes: seq<Notification>, id: string): (r: seq<Notification>)
    ensures forall n :: n in r <==> n in notes && n.postId != id
  {
    if notes == [] then []
    else
      var rest := DropPost(notes[1..], id);
      assert forall n :: n in notes <==> n == notes[0] || n in notes[1..];
      if notes[0].postId != id then [notes[0]] + rest else rest
  }

  function PreviousStatus(snapshot: map<string, string>, id: string): string {
    if id in snapshot then snapshot[id] else ""
  }

  /** One post's effect on the notifications: a new report of the user's is
      announced as pending; a changed status replaces the post's earlier
      notifications with one about the change. `snapshot` holds the statuses
      recorded before the effect began. */
  function NoteStep(p: FeedPost, snapshot: map<string, string>, user: Option<string>, now: int,
                    notes: seq<Notification>, asWritten: bool): seq<Notification> {
    var previous := PreviousStatus(snapshot, p.id);
    var current := ToLower(p.status);
    if previous == "" && Owner(p.author, user, asWritten) then [PendingNote(p, now)] + notes
    else if previous != "" && previous != current then [ChangeNote(p, current, now)] + DropPost(notes, p.id)
    else notes
  }

  /** The effect over the feed: the notifications and recorded statuses it
      leaves. */
  function Effect(posts: seq<FeedPost>, snapshot: map<string, string>, user: Option<string>, now: int,
                  notes: seq<Notification>, recorded: map<string, string>, asWritten: bool)
    : (seq<Notification>, map<string, string>)
  {
    if posts == [] then (notes, recorded)
    else Effect(posts[1..], snapshot, user, now, NoteStep(posts[0], snapshot, user, now, notes, asWritten),
                recorded[posts[0].id := ToLower(posts[0].status)], asWritten)
  }

  predicate FeedIdsUnique(posts: seq<FeedPost>) {
    forall i, j :: 0 <= i < j < |posts| ==> posts[i].id != posts[j].id
  }

  lemma {:induction false} NotesForDrop(notes: seq<Notification>, x: string, id: string)
    ensures NotesFor(DropPost(notes, x), id) == if x == id then [] else NotesFor(notes, id)
  {
    if notes != [] {
      NotesForDrop(notes[1..], x, id);
    }
  }

  lemma {:induction false} NotesForTwice(notes: seq<Notification>, id: string)
    ensures NotesFor(NotesFor(notes, id), id) == NotesFor(notes, id)
    ensures DropPost(NotesFor(notes, id), id) == []
  {
    if notes != [] {
      NotesForTwice(notes[1..], id);
    }
  }

  /** A post's step touches only that post's notifications, and what it
      does to them depends only on them. */
  lemma {:induction false} NoteStepLocal(p: FeedPost, snapshot: map<string, string>, user: Option<string>, now: int,
                      notes: seq<Notification>, asWritten: bool, id: string)
    ensures id != p.id ==> NotesFor(NoteStep(p, snapshot, user, now, notes, asWritten), id) == NotesFor(notes, id)
    ensures NotesFor(NoteStep(p, snapshot, user, now, notes, asWritten), p.id)
            == NoteStep(p, snapshot, user, now, NotesFor(notes, p.id), asWritten)
  {
    NotesForDrop(notes, p.id, id);
    NotesForDrop(notes, p.id, p.id);
    NotesForTwice(notes, p.id);
  }

  lemma {:induction false} EffectOtherPosts(posts: seq<FeedPost>, snapshot: map<string, string>, user: Option<string>,
                                            now: int, notes: seq<Notification>, recorded: map<string, string>,
                                            asWritten: bool, id: string)
    requires forall k :: 0 <= k < |posts| ==> posts[k].id != id
    ensures NotesFor(Effect(posts, snapshot, user, now, notes, recorded, asWritten).0, id) == NotesFor(notes, id)
    decreases |posts|
  {
    if posts != [] {
      var next := NoteStep(posts[0], snapshot, user, now, notes, asWritten);
      NoteStepLocal(posts[0], snapshot, user, now, notes, asWritten, id);
      EffectOtherPosts(posts[1..], snapshot, user, now, next, recorded[posts[0].id := ToLower(posts[0].status)],
                       asWritten, id);
    }
  }

  /** On a feed with distinct ids, what the whole effect leaves about one
      post is that post's own step applied to its earlier notifications. */
  lemma {:induction false} EffectPerPost(posts: seq<FeedPost>, snapshot: map<string, string>, user: Option<string>,
                                         now: int, notes: seq<Notification>, recorded: map<string, string>,
                                         asWritten: bool, k: nat)
    requires FeedIdsUnique(posts) && k < |posts|
    ensures NotesFor(Effect(posts, snapshot, user, now, notes, recorded, asWritten).0, posts[k].id)
            == NoteStep(posts[k], snapshot, user, now, NotesFor(notes, posts[k].id), asWritten)
    decreases |posts|
  {
    var next := NoteStep(posts[0], snapshot, user, now, notes, asWritten);
    var rec := recorded[posts[0].id := ToLower(posts[0].status)];
    NoteStepLocal(posts[0], snapshot, user, now, notes, asWritten, posts[k].id);
    if k == 0 {
      EffectOtherPosts(posts[1..], snapshot, user, now, next, rec, asWritten, posts[0].id);
    } else {
      EffectPerPost(posts[1..], snapshot, user, now, next, rec, asWritten, k - 1);
    }
  }

  /** A status change leaves exactly one notification for the post, about
      its new status. */
  lemma {:induction false} StatusChangeReplacesNotes(posts: seq<FeedPost>, snapshot: map<string, string>, user: Option<string>,
                                  now: int, notes: seq<Notification>, asWritten: bool, k: nat)
    requires FeedIdsUnique(posts) && k < |posts|
    requires PreviousStatus(snapshot, posts[k].id) != ""
    requires PreviousStatus(snapshot, posts[k].id) != ToLower(posts[k].status)
    ensures NotesFor(Effect(posts, snapshot, user, now, notes, snapshot, asWritten).0, posts[k].id)
            == [ChangeNote(posts[k], ToLower(posts[k].status), now)]
  {
    EffectPerPost(posts, snapshot, user, now, notes, snapshot, asWritten, k);
    NotesForTwice(notes, posts[k].id);
  }

  /** As written, a report the feed delivers (its author populated) is
      never announced when it first appears, whoever posted it. */
  lemma {:induction false} NewReportNeverAnnounced(posts: seq<FeedPost>, snapshot: map<string, string>, user: Option<string>,
                                now: int, notes: seq<Notification>, k: nat)
    requires FeedIdsUnique(posts) && k < |posts|
    requires posts[k].author.Populated? && PreviousStatus(snapshot, posts[k].id) == ""
    ensures NotesFor(Effect(posts, snapshot, user, now, notes, snapshot, true).0, posts[k].id)
            == NotesFor(notes, posts[k].id)
  {
    EffectPerPost(posts, snapshot, user, now, notes, snapshot, true, k);
  }

  /** The concrete case: the signed-in author's own new report, delivered
      with its author populated, gets no notification. */
  lemma {:induction false} OwnReportMissed()
    ensures var p := FeedPost("p1", "Pothole", "Deep", [], "Roads", "pending", Populated("u1", "asha"), 0, 0, 0, "");
      && Owns(p.author, Some("u1"))
      && Effect([p], map[], Some("u1"), 5, [], map[], true).0 == []
  {
  }

  /** With the intended test the user's new report is announced as pending. */
  lemma {:induction false} CorrectedAnnouncesNewReport(posts: seq<FeedPost>, snapshot: map<string, string>, user: Option<string>,
                                    now: int, notes: seq<Notification>, k: nat)
    requires FeedIdsUnique(posts) && k < |posts|
    requires Owns(posts[k].author, user) && PreviousStatus(snapshot, posts[k].id) == ""
    ensures NotesFor(Effect(posts, snapshot, user, now, notes, snapshot, false).0, posts[k].id)
            == [PendingNote(posts[k], now)] + NotesFor(notes, posts[k].id)
  {
    EffectPerPost(posts, snapshot, user, now, notes, snapshot, false, k);
  }

  /** The effect records every post's lower-cased status and keeps the other
      recorded statuses. */
  lemma {:induction false} EffectRecordsStatuses(posts: seq<FeedPost>, snapshot: map<string, string>,
                                                 user: Option<string>, now: int, notes: seq<Notification>,
                                                 recorded: map<string, string>, asWritten: bool)
    requires FeedIdsUnique(posts)
    ensures var after := Effect(posts, snapshot, user, now, notes, recorded, asWritten).1;
      && (forall k :: 0 <= k < |posts| ==> posts[k].id in after && after[posts[k].id] == ToLower(posts[k].status))
      && (forall id :: id in recorded && (forall k :: 0 <= k < |posts| ==> posts[k].id != id)
            ==> id in after && after[id] == recorded[id])
  {
    EffectRecordsOwn(posts, snapshot, user, now, notes, recorded, asWritten);
    forall id | id in recorded && (forall k :: 0 <= k < |posts| ==> posts[k].id != id)
      ensures var after := Effect(posts, snapshot, user, now, notes, recorded, asWritten).1;
        id in after && after[id] == recorded[id]
    {
      EffectKeepsOther(posts, snapshot, user, now, notes, recorded, asWritten, id);
    }
  }

  lemma {:induction false} EffectRecordsOwn(posts: seq<FeedPost>, snapshot: map<string, string>,
                                            user: Option<string>, now: int, notes: seq<Notification>,
                                            recorded: map<string, string>, asWritten: bool)
    requires FeedIdsUnique(posts)
    ensures var after := Effect(posts, snapshot, user, now, notes, recorded, asWritten).1;
      forall k :: 0 <= k < |posts| ==> posts[k].id in after && after[posts[k].id] == ToLower(posts[k].status)
    decreases |posts|
  {
    if posts != [] {
      var p0, tail := posts[0], posts[1..];
      var next := NoteStep(p0, snapshot, user, now, notes, asWritten);
      var rec := recorded[p0.id := ToLower(p0.status)];
      assert forall m :: 0 <= m < |tail| ==> tail[m] == posts[m + 1];
      EffectRecordsOwn(tail, snapshot, user, now, next, rec, asWritten);
      EffectStep(posts, snapshot, user, now, notes, recorded, asWritten);
      EffectKeepsOther(tail, snapshot, user, now, next, rec, asWritten, p0.id);
      var after := Effect(posts, snapshot, user, now, notes, recorded, asWritten).1;
      forall k | 1 <= k < |posts|
        ensures posts[k].id in after && after[posts[k].id] == ToLower(posts[k].status)
      {
        assert posts[k] == tail[k - 1];
      }
    }
  }

  lemma {:induction false} EffectKeepsOther(posts: seq<FeedPost>, snapshot: map<string, string>,
                                            user: Option<string>, now: int, notes: seq<Notification>,
                                            recorded: map<string, string>, asWritten: bool, id: string)
    requires id in recorded && forall k :: 0 <= k < |posts| ==> posts[k].id != id
    ensures var after := Effect(posts, snapshot, user, now, notes, recorded, asWritten).1;
      id in after && after[id] == recorded[id]
    decreases |posts|
  {
    if posts != [] {
      var p0, tail := posts[0], posts[1..];
      assert forall m :: 0 <= m < |tail| ==> tail[m] == posts[m + 1];
      EffectStep(posts, snapshot, user, now, notes, recorded, asWritten);
      EffectKeepsOther(tail, snapshot, user, now, NoteStep(p0, snapshot, user, now, notes, asWritten),
                       recorded[p0.id := ToLower(p0.status)], asWritten, id);
    }
  }

  lemma {:induction false} EffectStep(posts: seq<FeedPost>, snapshot: map<string, string>,
                                      user: Option<string>, now: int, notes: seq<Notification>,
                                      recorded: map<string, string>, asWritten: bool)
    requires posts != []
    ensures Effect(posts, snapshot, user, now, notes, recorded, asWritten)
         == Effect(posts[1..], snapshot, user, now, NoteStep(posts[0], snapshot, user, now, notes, asWritten),
                   recorded[posts[0].id := ToLower(posts[0].status)], asWritten)
  {
  }

  /** Once the statuses are recorded, running the effect again over the same
      feed adds nothing. */
  lemma {:induction false} EffectQuietOnRerun(posts: seq<FeedPost>, snapshot: map<string, string>,
                                              user: Option<string>, now: int, notes: seq<Notification>,
                                              recorded: map<string, string>, asWritten: bool)
    requires forall k :: 0 <= k < |posts| ==>
      ToLower(posts[k].status) != "" && PreviousStatus(snapshot, posts[k].id) == ToLower(posts[k].status)
    ensures Effect(posts, snapshot, user, now, notes, recorded, asWritten).0 == notes
    decreases |posts|
  {
    if posts != [] {
      EffectQuietOnRerun(posts[1..], snapshot, user, now, notes,
                         recorded[posts[0].id := ToLower(posts[0].status)], asWritten);
    }
  }

  /** `getUnreadCount`. */
  function UnreadCount(notes: seq<Notification>): (n: nat)
    ensures n <= |notes|
    ensures n == 0 <==> forall i :: 0 <= i < |notes| ==> notes[i].read
  {
    if notes == [] then 0 else (if notes[0].read then 0 else 1) + UnreadCount(notes[1..])
  }

  function MarkedRead(notes: seq<Notification>): (r: seq<Notification>)
    ensures |r| == |notes|
    ensures forall i :: 0 <= i < |r| ==> r[i] == notes[i].(read := true)
  {
    seq(|notes|, i requires 0 <= i < |notes| => notes[i].(read := true))
  }

  /** `markAllAsRead` leaves as many notifications and none unread. */
  lemma {:induction false} MarkAllAsReadEffect(notes: seq<Notification>)
    ensures |MarkedRead(notes)| == |notes| && UnreadCount(MarkedRead(notes)) == 0
  {
  }

  /** The screen's notification state and the effect that updates it. */
  class NotificationCentre {
    var notifications: seq<Notification>
    var previousStatuses: map<string, string>

    constructor()
      ensures notifications == [] && previousStatuses == map[]
    {
      notifications, previousStatuses := [], map[];
    }

    /** The effect over a new feed, as written: every post is read against
        the statuses recorded before the effect began. */
    method OnPostsChanged(posts: seq<FeedPost>, user: Option<string>, now: int)
      modifies this
      ensures (notifications, previousStatuses)
              == Effect(posts, old(previousStatuses), user, now, old(notifications), old(previousStatuses), true)
    {
      var snapshot := previousStatuses;
      var i := 0;
      while i < |posts|
        invariant 0 <= i <= |posts|
        invariant Effect(posts[i..], snapshot, user, now, notifications, previousStatuses, true)
                  == Effect(posts, snapshot, user, now, old(notifications), snapshot, true)
      {
        var post := posts[i];
        var previous := if post.id in snapshot then snapshot[post.id] else "";
        var current := ToLower(post.status);
        if previous == "" && OwnsAsWritten(post.author, user) {
          notifications := [PendingNote(post, now)] + notifications;
        } else if previous != "" && previous != current {
          notifications := [ChangeNote(post, current, now)] + DropPost(notifications, post.id);
        }
        previousStatuses := previousStatuses[post.id := current];
        assert posts[i..][1..] == posts[i + 1..];
        i := i + 1;
      }
    }

    function Unread(): nat
      reads this
    {
      UnreadCount(notifications)
    }

    method MarkAllAsRead()
      modifies this
      ensures notifications == MarkedRead(old(notifications))
      ensures previousStatuses == old(previousStatuses)
    {
      notifications := MarkedRead(notifications);
    }
  }
}
