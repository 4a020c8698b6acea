/** The status screen of one report: the step the status maps to, the
    three-step timeline with its active steps and messages, and whether the
    proof section is shown. Date rendering is the platform's and is passed
    in. */
module StatusUpdateScreen {
  import opened Text

  datatype StatusConfig = StatusConfig(currentStep: nat, activeColor: string, backgroundColor: string)

  const Grey := "#94A3B8"

  /** `getStatusConfig`: the status, lower-cased, picks the step and colours;
      an unknown status counts as the first step. */
  function GetStatusConfig(status: string): (c: StatusConfig)
    ensures c.currentStep <= 2
    ensures c.currentStep == 1 <==> ToLower(status) == "in-progress"
    ensures c.currentStep == 2 <==> ToLower(status) == "resolved"
    ensures c.currentStep == 0 <==> ToLower(status) != "in-progress" && ToLower(status) != "resolved"
  {
    var s := ToLower(status);
    if s == "pending" then StatusConfig(0, "#FFB800", "#FFF7E6")
    else if s == "in-progress" then StatusConfig(1, "#235DFF", "#EEF2FF")
    else if s == "resolved" then StatusConfig(2, "#22C55E", "#ECFDF5")
    else StatusConfig(0, "#64748B", "#F1F5F9")
  }

  /** Case does not matter. */
  lemma {:induction false} StatusConfigIgnoresCase(status: string)
    ensures GetStatusConfig(status) == GetStatusConfig(ToLower(status))
  {
    ToLowerIdempotent(status);
  }

  const PendingMessage := "Your issue has been successfully registered! Our team will review it soon. Stay tuned for updates."
  const InProgressMessage := "Your issue is being investigated by the authorities. We'll keep you posted on the progress. Expected completion: 4-5 working days"
  const ResolvedMessage := "Your reported issue has been resolved! Thank you for contributing to a better community. Check the updates for proof."

  /** `getStatusMessage`. */
  function GetStatusMessage(status: string): (m: string)
    ensures ToLower(status) == "in-progress" ==> m == InProgressMessage
    ensures ToLower(status) == "resolved" ==> m == ResolvedMessage
    ensures ToLower(status) != "in-progress" && ToLower(status) != "resolved" ==> m == PendingMessage
  {
    var s := ToLower(status);
    if s == "pending" then PendingMessage
    else if s == "in-progress" then InProgressMessage
    else if s == "resolved" then ResolvedMessage
    else PendingMessage
  }

  /** An unknown status reads like a pending one. */
  lemma {:induction false} UnknownStatusMessage(status: string)
    requires ToLower(status) != "pending" && ToLower(status) != "in-progress" && ToLower(status) != "resolved"
    ensures GetStatusMessage(status) == GetStatusMessage("pending")
  {
    assert ToLower("pending") == "pending";
  }

  /** `formatDate`: nothing for a missing date, else the platform's
      rendering. */
  function FormatStamp(date: string, render: string -> string): (r: string)
    ensures date == "" ==> r == ""
    ensures date != "" ==> r == render(date)
  {
    if date == "" then "" else render(date)
  }

  datatype TimelineItem = TimelineItem(caption: string, active: bool, color: string, message: string)

  const Labels := ["Issue registered", "Admin investigating", "Issue resolved"]

  /** The message under timeline step `i`. */
  function StepMessage(i: nat, status: string): string
    requires i < 3
  {
    var current := ToLower(status);
    if i == 0 then GetStatusMessage("pending")
    else if i == 1 then (if current == "pending" then "Pending" else GetStatusMessage("in-progress"))
    else if current == "pending" || current == "in-progress" then "Pending"
    else GetStatusMessage("resolved")
  }

  /** The timeline: three steps, active up to the current one. */
  function Timeline(status: string): (t: seq<TimelineItem>)
    ensures |t| == 3
    ensures forall i :: 0 <= i < 3 ==> t[i].caption == Labels[i]
    ensures forall i :: 0 <= i < 3 ==>
      (t[i].active <==> i <= GetStatusConfig(status).currentStep)
    ensures forall i :: 0 <= i < 3 ==>
      t[i].color == if t[i].active then GetStatusConfig(status).activeColor else Grey
  {
    var c := GetStatusConfig(status);
    seq(3, i requires 0 <= i < 3 =>
      TimelineItem(Labels[i], i <= c.currentStep, if i <= c.currentStep then c.activeColor else Grey, StepMessage(i, status)))
  }

  function ActiveCount(t: seq<TimelineItem>): nat {
    if t == [] then 0 else (if t[0].active then 1 else 0) + ActiveCount(t[1..])
  }

  /** Exactly `currentStep + 1` steps are active. */
  lemma {:induction false} ActiveSteps(status: string)
    ensures ActiveCount(Timeline(status)) == GetStatusConfig(status).currentStep + 1
  {
    var t := Timeline(status);
    var c := GetStatusConfig(status).currentStep;
    assert ActiveCount(t[2..]) == if 2 <= c then 1 else 0 by {
      assert t[2..][1..] == [];
    }
    assert t[1..][1..] == t[2..];
    assert ActiveCount(t[1..]) == (if 1 <= c then 1 else 0) + ActiveCount(t[2..]);
  }

  /** The three statuses are their own lower case. */
  lemma {:induction false} LowerStatuses()
    ensures ToLower("pending") == "pending"
    ensures ToLower("in-progress") == "in-progress"
    ensures ToLower("resolved") == "resolved"
  {
    LowerLiteral("pending");
    LowerLiteral("in-progress");
    LowerLiteral("resolved");
  }

  lemma {:induction false} LowerLiteral(s: string)
    requires s == "pending" || s == "in-progress" || s == "resolved"
    ensures ToLower(s) == s
  {
    forall i | 0 <= i < |s| ensures !('A' <= s[i] <= 'Z') {
    }
    ToLowerOfLower(s);
  }

  /** None of the three messages reads "Pending". */
  lemma {:induction false} MessagesNotPendingMark()
    ensures PendingMessage != "Pending" && InProgressMessage != "Pending" && ResolvedMessage != "Pending"
  {
    assert |"Pending"| == 7;
  }

  /** The step messages: the first is always the registration message; the
      second says "Pending" exactly for a pending status; the third exactly
      for a pending or in-progress one. */
  lemma {:induction false} StepMessages(status: string)
    ensures var t := Timeline(status);
      && t[0].message == PendingMessage
      && (t[1].message == "Pending" <==> ToLower(status) == "pending")
      && (t[1].message != "Pending" ==> t[1].message == InProgressMessage)
      && (t[2].message == "Pending" <==> ToLower(status) == "pending" || ToLower(status) == "in-progress")
      && (t[2].message != "Pending" ==> t[2].message == ResolvedMessage)
  {
    LowerStatuses();
    MessagesNotPendingMark();
    var t := Timeline(status);
    assert t[0].message == StepMessage(0, status) == GetStatusMessage("pending");
    assert t[1].message == StepMessage(1, status);
    assert t[2].message == StepMessage(2, status);
  }

  /** An unknown status lights only the first step, yet its later steps
      read as done. */
  lemma {:induction false} UnknownStatusTimeline(status: string)
    requires ToLower(status) != "pending" && ToLower(status) != "in-progress" && ToLower(status) != "resolved"
    ensures var t := Timeline(status);
      && t[0].active && !t[1].active && !t[2].active
      && t[1].message == InProgressMessage && t[2].message == ResolvedMessage
  {
    StepMessages(status);
  }

  /** The proof section is shown for a resolved status, in any case. */
  function ShowsProof(status: string): (shown: bool)
    ensures shown <==> GetStatusConfig(status).currentStep == 2
  {
    ToLower(status) == "resolved"
  }
}
