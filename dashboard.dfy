/** The admin dashboard: the four counters it computes from the fetched
    reports, what a fetch does to its state, and the report list a counter
    card opens. The fetch's outcome is a parameter. */
module Dashboard {
  import opened Wrappers
  import opened Text

  /** A report as the admin pages receive it; `createdAt` in milliseconds. */
  datatype AdminPost = AdminPost(id: string, title: string, description: string, category: string,
                                 status: string, createdAt: int)

  datatype Stats = Stats(total: nat, pending: nat, inProgress: nat, resolved: nat)

  const ZeroStats := Stats(0, 0, 0, 0)

  /** One step of the reduction: the total always moves; "in-progress" moves
      `inProgress`; any other status moves the counter of that name, so
      "total" moves the total a second time and "inProgress" moves
      `inProgress`; a status naming no counter adds a key nothing shows. */
  function Tally(acc: Stats, status: string): (r: Stats)
    ensures r.total == acc.total + (if status == "total" then 2 else 1)
    ensures r.pending == acc.pending + (if status == "pending" then 1 else 0)
    ensures r.inProgress == acc.inProgress + (if status == "in-progress" || status == "inProgress" then 1 else 0)
    ensures r.resolved == acc.resolved + (if status == "resolved" then 1 else 0)
  {
    var acc := acc.(total := acc.total + 1);
    if status == "in-progress" then acc.(inProgress := acc.inProgress + 1)
    else if status == "total" then acc.(total := acc.total + 1)
    else if status == "pending" then acc.(pending := acc.pending + 1)
    else if status == "inProgress" then acc.(inProgress := acc.inProgress + 1)
    else if status == "resolved" then acc.(resolved := acc.resolved + 1)
    else acc
  }

  /** The reduction over the reports, left to right. */
  function StatsOf(posts: seq<AdminPost>): Stats
    decreases |posts|
  {
    if posts == [] then ZeroStats
    else Tally(StatsOf(posts[..|posts| - 1]), posts[|posts| - 1].status)
  }

  /** The reports whose status is exactly `status`, in their order. */
  function WithStatus(posts: seq<AdminPost>, status: string): (r: seq<AdminPost>)
    ensures forall p :: p in r <==> p in posts && p.status == status
    ensures |r| <= |posts|
    decreases |posts|
  {
    if posts == [] then []
    else
      var init, last := posts[..|posts| - 1], posts[|posts| - 1];
      assert posts == init + [last];
      WithStatus(init, status) + (if last.status == status then [last] else [])
  }

  predicate InEnum(status: string) {
    status == "pending" || status == "in-progress" || status == "resolved"
  }

  /** Each counter counts the reports with its status, and the total counts
      every report once unless one has the status "total". */
  lemma {:induction false} StatsCount(posts: seq<AdminPost>)
    ensures StatsOf(posts).pending == |WithStatus(posts, "pending")|
    ensures StatsOf(posts).resolved == |WithStatus(posts, "resolved")|
    ensures StatsOf(posts).inProgress == |WithStatus(posts, "in-progress")| + |WithStatus(posts, "inProgress")|
    ensures StatsOf(posts).total == |posts| + |WithStatus(posts, "total")|
    decreases |posts|
  {
    if posts != [] {
      StatsCount(posts[..|posts| - 1]);
    }
  }

  /** When every status is one of the three, the total is the number of
      reports and the three counters add up to it. */
  lemma {:induction false} StatsAddUp(posts: seq<AdminPost>)
    requires forall i :: 0 <= i < |posts| ==> InEnum(posts[i].status)
    ensures StatsOf(posts).total == |posts|
    ensures StatsOf(posts).total == StatsOf(posts).pending + StatsOf(posts).inProgress + StatsOf(posts).resolved
    decreases |posts|
  {
    if posts != [] {
      StatsAddUp(posts[..|posts| - 1]);
    }
  }

  /** A report whose status is "total", which the status update route lets
      through, is counted twice. */
  lemma {:induction false} TotalStatusCountedTwice()
    ensures StatsOf([AdminPost("p1", "t", "d", "Roads", "total", 0)]).total == 2
  {
    var s := [AdminPost("p1", "t", "d", "Roads", "total", 0)];
    assert s[..0] == [];
  }

  /** The reduction as the page runs it: a loop over the reports. */
  method ComputeStats(posts: seq<AdminPost>) returns (stats: Stats)
    ensures stats == StatsOf(posts)
  {
    stats := ZeroStats;
    var i := 0;
    while i < |posts|
      invariant 0 <= i <= |posts|
      invariant stats == StatsOf(posts[..i])
    {
      var status := posts[i].status;
      stats := stats.(total := stats.total + 1);
      if status == "in-progress" {
        stats := stats.(inProgress := stats.inProgress + 1);
      } else if status == "total" {
        stats := stats.(total := stats.total + 1);
      } else if status == "pending" {
        stats := stats.(pending := stats.pending + 1);
      } else if status == "inProgress" {
        stats := stats.(inProgress := stats.inProgress + 1);
      } else if status == "resolved" {
        stats := stats.(resolved := stats.resolved + 1);
      }
      assert posts[..i + 1][..i] == posts[..i];
      i := i + 1;
    }
    assert posts[..|posts|] == posts;
  }

  const FetchFailedMessage := "Failed to fetch posts. Please try again later."

  /** How a fetch ended: the reports received, or an error of any kind. */
  datatype FetchResult = Fetched(posts: seq<AdminPost>) | FetchFailed

  /** Where a counter card leads: the reports list with this state. */
  datatype CardTarget = CardTarget(status: string, posts: seq<AdminPost>, title: string)

  class DashboardPage {
    var posts: seq<AdminPost>
    var stats: Stats
    var error: Option<string>

    constructor()
      ensures posts == [] && stats == ZeroStats && error == None
    {
      posts, stats, error := [], ZeroStats, None;
    }

    /** `fetchPosts`: the error is cleared; received reports replace the list
        and, when there are any, the counters; a failure empties the list,
        keeps the counters and sets the error. */
    method ApplyFetch(result: FetchResult)
      modifies this
      ensures result.Fetched? ==> posts == result.posts && error == None
      ensures result.Fetched? && result.posts != [] ==> stats == StatsOf(result.posts)
      ensures result.Fetched? && result.posts == [] ==> stats == old(stats)
      ensures result.FetchFailed? ==> posts == [] && stats == old(stats) && error == Some(FetchFailedMessage)
    {
      error := None;
      match result
      case Fetched(received) =>
        posts := received;
        if |received| > 0 {
          stats := ComputeStats(received);
        }
      case FetchFailed =>
        error := Some(FetchFailedMessage);
        posts := [];
    }

    /** `handleStatCardClick`. */
    function CardClick(status: string): (t: CardTarget)
      reads this
      ensures t.status == status
      ensures status == "all" ==> t.posts == posts && t.title == "All Reports"
      ensures status != "all" ==> t.posts == WithStatus(posts, status) && t.title == Capitalize(status) + " Reports"
    {
      if status == "all" then CardTarget("all", posts, "All Reports")
      else CardTarget(status, WithStatus(posts, status), Capitalize(status) + " Reports")
    }
  }

  /** A card opens as many reports as its counter shows, provided no report
      carries the camel-case status. */
  lemma {:induction false} CardMatchesCounter(posts: seq<AdminPost>)
    requires forall i :: 0 <= i < |posts| ==> posts[i].status != "inProgress"
    ensures |WithStatus(posts, "pending")| == StatsOf(posts).pending
    ensures |WithStatus(posts, "in-progress")| == StatsOf(posts).inProgress
    ensures |WithStatus(posts, "resolved")| == StatsOf(posts).resolved
  {
    StatsCount(posts);
    NoneWithStatus(posts, "inProgress");
  }

  lemma {:induction false} NoneWithStatus(posts: seq<AdminPost>, status: string)
    requires forall i :: 0 <= i < |posts| ==> posts[i].status != status
    ensures WithStatus(posts, status) == []
    decreases |posts|
  {
    if posts != [] {
      NoneWithStatus(posts[..|posts| - 1], status);
    }
  }
}
