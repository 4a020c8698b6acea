/** The report details screen: its local copy of the vote lists, updated
    optimistically around the vote calls; the report reason it sends; and
    the recent reasons it lists. The answer of each server call is a
    parameter (`serverOk`). */
module PostDetailsScreen {
  import opened Wrappers
  import opened Text
  import opened Seqs
  import opened PostSchema
  import opened Access
  import opened PostRoutes

  /** `handleUpvote` as written: an existing upvote is withdrawn locally and
      nothing is sent; otherwise a downvote is withdrawn locally, the upvote
      is sent, and the voter is appended once the server accepts. The
      second component says whether the server was called. */
  function LocalUpvote(v: Votes, u: UserId, serverOk: bool): (Votes, bool) {
    if u in v.up then (Votes(Without(v.up, u), v.down), false)
    else
      var down := if u in v.down then Without(v.down, u) else v.down;
      (Votes(if serverOk then v.up + [u] else v.up, down), true)
  }

  /** `handleDownvote` as written, the mirror image. */
  function LocalDownvote(v: Votes, u: UserId, serverOk: bool): (Votes, bool) {
    if u in v.down then (Votes(v.up, Without(v.down, u)), false)
    else
      var up := if u in v.up then Without(v.up, u) else v.up;
      (Votes(up, if serverOk then v.down + [u] else v.down), true)
  }

  /** What one press shows: the voter ends in at most one list, in the
      upvotes exactly when it was not there and the server accepted; the
      server is called exactly when there was no upvote; no other voter's
      entries change. */
  lemma {:induction false} LocalUpvoteEffect(v: Votes, u: UserId, serverOk: bool)
    ensures var (w, sent) := LocalUpvote(v, u, serverOk);
      && (u !in v.up ==> u !in w.down)
      && (u in v.up ==> w.down == v.down)
      && (u in w.up ==> u !in v.up && serverOk)
      && (u !in v.up && serverOk ==> u in w.up)
      && (sent <==> u !in v.up)
      && Without(w.up, u) == Without(v.up, u)
      && Without(w.down, u) == Without(v.down, u)
  {
    if u in v.up {
      WithoutAbsent(Without(v.up, u), u);
    } else {
      if serverOk {
        WithoutAppend(v.up, [u], u);
        WithoutSingleton(u);
      }
      if u in v.down {
        WithoutAbsent(Without(v.down, u), u);
      }
    }
  }

  lemma {:induction false} LocalDownvoteEffect(v: Votes, u: UserId, serverOk: bool)
    ensures var (w, sent) := LocalDownvote(v, u, serverOk);
      && (u !in v.down ==> u !in w.up)
      && (u in v.down ==> w.up == v.up)
      && (u in w.down ==> u !in v.down && serverOk)
      && (u !in v.down && serverOk ==> u in w.down)
      && (sent <==> u !in v.down)
      && Without(w.up, u) == Without(v.up, u)
      && Without(w.down, u) == Without(v.down, u)
  {
    if u in v.down {
      WithoutAbsent(Without(v.down, u), u);
    } else {
      if serverOk {
        WithoutAppend(v.down, [u], u);
        WithoutSingleton(u);
      }
      if u in v.up {
        WithoutAbsent(Without(v.up, u), u);
      }
    }
  }

  /** A refused upvote of a downvoter leaves the voter in neither list. */
  lemma {:induction false} FailedUpvoteLeavesNeither(v: Votes, u: UserId)
    requires u !in v.up && u in v.down
    ensures var w := LocalUpvote(v, u, false).0;
      u !in w.up && u !in w.down
  {
  }

  /** When the press does reach the server and it accepts, the screen shows
      what the server stored. */
  lemma {:induction false} SentUpvoteMatchesServer(v: Votes, u: UserId)
    requires VotesWellFormed(v) && u !in v.up
    ensures LocalUpvote(v, u, true).0 == CastUpvote(v, u)
  {
    RemoveFirstKeepsOthers(v.down, u);
    if u in v.down {
      WithoutAbsent(RemoveFirst(v.down, u), u);
    }
  }

  /** The two presses that part the screen from the server: an upvoter
      presses upvote (the screen drops the upvote, the server keeps it),
      then presses again (the server toggles the upvote off, the screen
      shows it on). */
  lemma {:induction false} UnvoteNeverReachesServer()
    ensures var start := Votes(["u1"], []);
      var (screen1, sent1) := LocalUpvote(start, "u1", true);
      var (screen2, sent2) := LocalUpvote(screen1, "u1", true);
      && !sent1 && screen1 == Votes([], [])
      && sent2 && screen2 == Votes(["u1"], [])
      && CastUpvote(start, "u1") == Votes([], [])
  {
    var start := Votes(["u1"], []);
    assert Without(["u1"], "u1") == [] by {
      WithoutSingleton("u1");
    }
    assert FirstIndex(start.up, "u1") == 0;
    assert RemoveFirst(start.up, "u1") == [];
  }

  /** The handler as evidently intended: every press is sent, and the screen
      takes the server's answer; a refused press changes nothing. */
  function CorrectedUpvote(v: Votes, u: UserId, serverOk: bool): (w: Votes)
    ensures !serverOk ==> w == v
  {
    if serverOk then CastUpvote(v, u) else v
  }

  function CorrectedDownvote(v: Votes, u: UserId, serverOk: bool): (w: Votes)
    ensures !serverOk ==> w == v
  {
    if serverOk then CastDownvote(v, u) else v
  }

  /** The corrected handlers keep the lists duplicate-free and disjoint, and
      an accepted press flips the voter's vote. */
  lemma {:induction false} CorrectedVotesWellFormed(v: Votes, u: UserId, serverOk: bool)
    requires VotesWellFormed(v)
    ensures var w := CorrectedUpvote(v, u, serverOk);
      VotesWellFormed(w) && (serverOk ==> u !in w.down && (u in w.up <==> u !in v.up))
    ensures var w := CorrectedDownvote(v, u, serverOk);
      VotesWellFormed(w) && (serverOk ==> u !in w.up && (u in w.down <==> u !in v.down))
  {
    UpvoteEffect(v, u);
    DownvoteEffect(v, u);
  }

  /** With the corrected handlers a screen that starts from the stored
      post keeps showing the stored lists after any accepted press. */
  lemma {:induction false} CorrectedMatchesServer(store: Store, a: Actor, id: PostId, up: bool)
    requires a.authenticated && HasId(store, id)
    ensures var s := VoteRoute(store, a, id, up);
      var p := store[IndexOf(store, id)];
      var shown := Votes(p.upvotes, p.downvotes);
      var w := if up then CorrectedUpvote(shown, a.id, true) else CorrectedDownvote(shown, a.id, true);
      s.reply.Ok? && w == Votes(s.reply.body.upvotes, s.reply.body.downvotes)
  {
  }

  // ----- reports -----

  /** The reason a submitted report carries: the trimmed text, or nothing
      for an empty or blank one. */
  function ReasonToSend(reason: string): (r: Option<string>)
    ensures r.None? <==> Trim(reason) == ""
    ensures r.Some? ==> r.value != "" && !IsSpace(r.value[0]) && !IsSpace(r.value[|r.value| - 1])
  {
    TrimEnds(reason);
    var t := Trim(reason);
    if t == "" then None else Some(t)
  }

  /** The screen never sends a reason the route would refuse as missing, and
      the reason it sends is already in sent form. */
  lemma {:induction false} SentReasonAccepted(store: Store, a: Actor, id: PostId, reason: string, now: int)
    requires a.authenticated && ReasonToSend(reason).Some?
    ensures ReportPost(store, a, id, ReasonToSend(reason).value, now).reply != Fail(400, "Report reason is required")
    ensures ReasonToSend(ReasonToSend(reason).value) == ReasonToSend(reason)
  {
    var t := ReasonToSend(reason).value;
    TrimOfClean(t);
  }

  /** The last three report reasons, oldest first. */
  function RecentReasons(reports: seq<ReportEntry>): (r: seq<string>)
    ensures |r| == if |reports| < 3 then |reports| else 3
    ensures forall i :: 0 <= i < |r| ==> r[i] == reports[|reports| - |r| + i].reason
  {
    var tail := if |reports| < 3 then reports else reports[|reports| - 3..];
    seq(|tail|, i requires 0 <= i < |tail| => tail[i].reason)
  }

  /** A new report pushes the oldest of three listed reasons out. */
  lemma {:induction false} RecentReasonsSlide(reports: seq<ReportEntry>, e: ReportEntry)
    requires |reports| >= 3
    ensures RecentReasons(reports + [e]) == RecentReasons(reports)[1..] + [e.reason]
  {
    var a, b := RecentReasons(reports + [e]), RecentReasons(reports)[1..] + [e.reason];
    assert |a| == |b| == 3;
    forall i | 0 <= i < 3 ensures a[i] == b[i] {
      if i < 2 {
        assert (reports + [e])[|reports| - 2 + i] == reports[|reports| - 2 + i];
      }
    }
  }

  /** The screen's state: its copy of the vote lists and the report box. */
  class PostView {
    var upvotes: seq<UserId>
    var downvotes: seq<UserId>
    var reportReason: string
    var reportModalVisible: bool

    constructor(p: Post)
      ensures Shown() == Votes(p.upvotes, p.downvotes)
      ensures reportReason == "" && !reportModalVisible
    {
      upvotes, downvotes := p.upvotes, p.downvotes;
      reportReason, reportModalVisible := "", false;
    }

    function Shown(): Votes
      reads this
    {
      Votes(upvotes, downvotes)
    }

    /** `handleUpvote`; `sent` says whether the server was called. */
    method HandleUpvote(u: UserId, serverOk: bool) returns (sent: bool)
      modifies this
      ensures (Shown(), sent) == LocalUpvote(old(Shown()), u, serverOk)
      ensures reportReason == old(reportReason) && reportModalVisible == old(reportModalVisible)
    {
      var hasUpvoted := u in upvotes;
      var hasDownvoted := u in downvotes;
      if hasUpvoted {
        upvotes := Without(upvotes, u);
        return false;
      }
      if hasDownvoted {
        downvotes := Without(downvotes, u);
      }
      sent := true;
      if serverOk {
        upvotes := upvotes + [u];
      }
    }

    /** `handleDownvote`. */
    method HandleDownvote(u: UserId, serverOk: bool) returns (sent: bool)
      modifies this
      ensures (Shown(), sent) == LocalDownvote(old(Shown()), u, serverOk)
      ensures reportReason == old(reportReason) && reportModalVisible == old(reportModalVisible)
    {
      var hasDownvoted := u in downvotes;
      var hasUpvoted := u in upvotes;
      if hasDownvoted {
        downvotes := Without(downvotes, u);
        return false;
      }
      if hasUpvoted {
        upvotes := Without(upvotes, u);
      }
      sent := true;
      if serverOk {
        downvotes := downvotes + [u];
      }
    }

    /** `submitReport`: a blank reason is refused and the box stays as it
        is; otherwise the trimmed reason is sent and the box is closed and
        emptied, whatever the answer. */
    method SubmitReport() returns (sent: Option<string>)
      modifies this
      ensures sent == ReasonToSend(old(reportReason))
      ensures sent.None? ==> reportReason == old(reportReason) && reportModalVisible == old(reportModalVisible)
      ensures sent.Some? ==> reportReason == "" && !reportModalVisible
      ensures Shown() == old(Shown())
    {
      var t := Trim(reportReason);
      if t == "" {
        return None;
      }
      sent := Some(t);
      reportModalVisible := false;
      reportReason := "";
    }
  }
}
