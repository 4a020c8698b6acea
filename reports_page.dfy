/** The admin reports page: the period filter over all reports, the status
    and category counts behind its charts, the colour of each pie slice, and
    the local update after a status change. "Now", the weekday and the
    start of the month are parameters, and so is the calendar that gives a
    time's local year and month, the month counted from 0 as `getMonth`
    counts it. */
module ReportsPage {
  import opened Wrappers
  import opened Text
  import opened Seqs
  import opened Dashboard
  import HomeScreen

  // ----- period filter -----

  datatype YearMonth = YearMonth(year: int, month: int)

  /** The local clock at the time of filtering: `now`, its weekday (0 for
      Sunday) and the first instant of its month. */
  datatype Clock = Clock(now: int, dayOfWeek: nat, monthStart: int)

  /** The longest prefix of decimal digits. */
  function LeadingDigits(s: string): (r: string)
    ensures |r| <= |s| && r == s[..|r|] && AllDigits(r)
    ensures |r| < |s| ==> !IsDigit(s[|r|])
  {
    if s == [] || !IsDigit(s[0]) then ""
    else
      var rest := LeadingDigits(s[1..]);
      assert s[..|rest| + 1] == [s[0]] + s[1..][..|rest|];
      [s[0]] + rest
  }

  /** `parseInt` of an unsigned decimal: the value of the leading digits, or
      NaN (`None`) when there are none. */
  function ParseInt(s: string): (r: Option<nat>)
    ensures r.None? <==> s == [] || !IsDigit(s[0])
  {
    var d := LeadingDigits(s);
    if d == "" then None else Some(DecimalValue(d))
  }

  /** Parsing reads back the number's own text. */
  lemma {:induction false} ParseIntOfNat(n: nat)
    ensures ParseInt(NatToString(n)) == Some(n)
  {
    var s := NatToString(n);
    NatToStringValue(n);
    assert LeadingDigits(s) == s;
  }

  /** `const [year, month] = key.split("-")`, both parsed; a key without a
      "-" has no month. */
  function MonthKey(key: string): Option<YearMonth> {
    var parts := Split(key, '-');
    if |parts| < 2 then None
    else
      match (ParseInt(parts[0]), ParseInt(parts[1]))
      case (Some(y), Some(m)) => Some(YearMonth(y, m))
      case _ => None
  }

  /** The first instant the "thisWeek" filter admits: now moved back by its
      weekday, same time of day. */
  function WeekStart(clock: Clock): int {
    clock.now - clock.dayOfWeek * HomeScreen.DayMs
  }

  predicate InPeriod(p: AdminPost, key: string, clock: Clock, calendar: int -> YearMonth) {
    if key == "thisWeek" then p.createdAt >= WeekStart(clock)
    else if key == "thisMonth" then p.createdAt >= clock.monthStart
    else if key == "all" then true
    else MonthKey(key).Some? && calendar(p.createdAt) == MonthKey(key).value
  }

  /** `filterPosts`: the reports in the period, each as often as it is
      listed (their order is `PeriodPostsAppend`). */
  function PeriodPosts(all: seq<AdminPost>, key: string, clock: Clock, calendar: int -> YearMonth): (r: seq<AdminPost>)
    ensures forall p :: p in r <==> p in all && InPeriod(p, key, clock, calendar)
    ensures forall p :: multiset(r)[p] == if InPeriod(p, key, clock, calendar) then multiset(all)[p] else 0
    ensures key == "all" ==> r == all
  {
    if all == [] then []
    else
      var rest := PeriodPosts(all[1..], key, clock, calendar);
      assert forall p :: p in all <==> p == all[0] || p in all[1..];
      assert all == [all[0]] + all[1..];
      assert multiset(all) == multiset{all[0]} + multiset(all[1..]);
      if InPeriod(all[0], key, clock, calendar) then
        assert multiset([all[0]] + rest) == multiset{all[0]} + multiset(rest);
        [all[0]] + rest
      else rest
  }

  /** The filter keeps the reports in their order: filtering two lists one
      after the other is filtering their concatenation. */
  lemma {:induction false} PeriodPostsAppend(a: seq<AdminPost>, b: seq<AdminPost>, key: string, clock: Clock,
                                             calendar: int -> YearMonth)
    ensures PeriodPosts(a + b, key, clock, calendar)
            == PeriodPosts(a, key, clock, calendar) + PeriodPosts(b, key, clock, calendar)
  {
    if a != [] {
      assert (a + b)[1..] == a[1..] + b;
      assert (a + b)[0] == a[0];
      PeriodPostsAppend(a[1..], b, key, clock, calendar);
    } else {
      assert a + b == b;
    }
  }

  lemma {:induction false} SplitAtFirst(a: string, b: string, c: char)
    requires c !in a
    ensures Split(a + [c] + b, c) == [a] + Split(b, c)
  {
    if a == [] {
      assert a + [c] + b == [c] + b;
      assert ([c] + b)[1..] == b;
    } else {
      SplitAtFirst(a[1..], b, c);
      var s := a + [c] + b;
      assert s[0] == a[0] && a[0] != c;
      assert s[1..] == a[1..] + [c] + b;
      var rest := Split(s[1..], c);
      assert rest[0] == a[1..] && rest[1..] == Split(b, c);
      assert [s[0]] + rest[0] == a;
    }
  }

  lemma {:induction false} SplitWithout(s: string, c: char)
    requires c !in s
    ensures Split(s, c) == [s]
  {
    if s != [] {
      SplitWithout(s[1..], c);
      assert [s[0]] + s[1..] == s;
    }
  }

  /** A year-month key selects the reports of that month. */
  lemma {:induction false} MonthKeySelects(y: nat, m: nat, p: AdminPost, clock: Clock, calendar: int -> YearMonth)
    ensures var key := NatToString(y) + "-" + NatToString(m);
      MonthKey(key) == Some(YearMonth(y, m))
      && (InPeriod(p, key, clock, calendar) <==> calendar(p.createdAt) == YearMonth(y, m))
  {
    var ys, ms := NatToString(y), NatToString(m);
    assert '-' !in ys && '-' !in ms by {
      assert forall i :: 0 <= i < |ys| ==> IsDigit(ys[i]);
      assert forall i :: 0 <= i < |ms| ==> IsDigit(ms[i]);
    }
    SplitAtFirst(ys, ms, '-');
    SplitWithout(ms, '-');
    assert ys + "-" + ms == ys + ['-'] + ms;
    ParseIntOfNat(y);
    ParseIntOfNat(m);
    var key := ys + "-" + ms;
    assert key != "thisWeek" && key != "thisMonth" && key != "all" by {
      assert IsDigit(key[0]);
    }
  }

  // ----- counts -----

  function Bump(counts: map<string, nat>, key: string): map<string, nat> {
    counts[key := (if key in counts then counts[key] else 0) + 1]
  }

  /** The reduction `acc[key] = (acc[key] || 0) + 1`, left to right. */
  function CountsOf(keys: seq<string>): map<string, nat>
    decreases |keys|
  {
    if keys == [] then map[] else Bump(CountsOf(keys[..|keys| - 1]), keys[|keys| - 1])
  }

  /** The counts hold exactly the keys that occur, each with its number of
      occurrences. */
  lemma {:induction false} CountsOfMeaning(keys: seq<string>)
    ensures forall k :: k in CountsOf(keys) <==> k in keys
    ensures forall k :: k in CountsOf(keys) ==> CountsOf(keys)[k] == Count(keys, k)
    decreases |keys|
  {
    if keys != [] {
      var init, x := keys[..|keys| - 1], keys[|keys| - 1];
      CountsOfMeaning(init);
      assert keys == init + [x];
      forall k ensures Count(keys, k) == Count(init, k) + (if k == x then 1 else 0) {
        CountAppend(init, [x], k);
      }
      forall k | k !in init ensures Count(init, k) == 0 {
        CountPositive(init, k);
      }
    }
  }

  /** The reduction as the page runs it. */
  method CountKeys(keys: seq<string>) returns (counts: map<string, nat>)
    ensures counts == CountsOf(keys)
  {
    counts := map[];
    var i := 0;
    while i < |keys|
      invariant 0 <= i <= |keys|
      invariant counts == CountsOf(keys[..i])
    {
      var key := keys[i];
      counts := counts[key := (if key in counts then counts[key] else 0) + 1];
      assert keys[..i + 1][..i] == keys[..i];
      i := i + 1;
    }
    assert keys[..|keys|] == keys;
  }

  /** `counts[key] || 0`. */
  function ChartValue(counts: map<string, nat>, key: string): nat {
    if key in counts then counts[key] else 0
  }

  /** The status keys: each status with its white space removed. */
  function StatusKeys(posts: seq<AdminPost>): (r: seq<string>)
    ensures |r| == |posts| && forall i :: 0 <= i < |r| ==> r[i] == StripSpaces(posts[i].status)
  {
    seq(|posts|, i requires 0 <= i < |posts| => StripSpaces(posts[i].status))
  }

  function CategoryKeys(posts: seq<AdminPost>): (r: seq<string>)
    ensures |r| == |posts| && forall i :: 0 <= i < |r| ==> r[i] == posts[i].category
  {
    seq(|posts|, i requires 0 <= i < |posts| => posts[i].category)
  }

  /** Each bar counts the reports whose status, spaces removed, is that bar's
      key; a status nobody has charts as 0. */
  lemma {:induction false} BarValues(posts: seq<AdminPost>, key: string)
    ensures ChartValue(CountsOf(StatusKeys(posts)), key) == Count(StatusKeys(posts), key)
    ensures key !in StatusKeys(posts) ==> ChartValue(CountsOf(StatusKeys(posts)), key) == 0
  {
    CountsOfMeaning(StatusKeys(posts));
    CountPositive(StatusKeys(posts), key);
  }

  /** The keys in the order the reduction first meets them, as
      `Object.keys` lists them. */
  function Distinct(keys: seq<string>): (r: seq<string>)
    ensures NoDuplicates(r)
    ensures forall k :: k in r <==> k in keys
    decreases |keys|
  {
    if keys == [] then []
    else
      var init, x := keys[..|keys| - 1], keys[|keys| - 1];
      assert keys == init + [x];
      var d := Distinct(init);
      if x in d then d else d + [x]
  }

  function SumOver(d: seq<string>, counts: map<string, nat>): nat {
    if d == [] then 0 else ChartValue(counts, d[0]) + SumOver(d[1..], counts)
  }

  lemma {:induction false} SumOverBump(d: seq<string>, counts: map<string, nat>, x: string)
    requires NoDuplicates(d)
    ensures SumOver(d, Bump(counts, x)) == SumOver(d, counts) + (if x in d then 1 else 0)
  {
    if d != [] {
      SumOverBump(d[1..], counts, x);
      assert x in d <==> x == d[0] || x in d[1..];
      if x == d[0] {
        assert x !in d[1..];
      }
    }
  }

  lemma {:induction false} SumOverAppend(d: seq<string>, x: string, counts: map<string, nat>)
    ensures SumOver(d + [x], counts) == SumOver(d, counts) + ChartValue(counts, x)
  {
    if d == [] {
      assert d + [x] == [x];
    } else {
      SumOverAppend(d[1..], x, counts);
      assert (d + [x])[1..] == d[1..] + [x];
    }
  }

  /** The counts add up to the number of keys counted. */
  lemma {:induction false} CountsSumToLength(keys: seq<string>)
    ensures SumOver(Distinct(keys), CountsOf(keys)) == |keys|
    decreases |keys|
  {
    if keys != [] {
      var init, x := keys[..|keys| - 1], keys[|keys| - 1];
      CountsSumToLength(init);
      CountsOfMeaning(init);
      var d, c := Distinct(init), CountsOf(init);
      SumOverBump(d, c, x);
      if x !in d {
        SumOverAppend(d, x, Bump(c, x));
      }
    }
  }

  // ----- pie colours -----

  /** The fixed colour of a known category. */
  function CategoryColour(category: string): Option<string> {
    if category == "Water" then Some("#3498DB")
    else if category == "Roads" then Some("#E74C3C")
    else if category == "Landslides" then Some("#F39C12")
    else if category == "Electricity" then Some("#9B59B6")
    else if category == "Sanitation" then Some("#2ECC71")
    else if category == "Others" then Some("#34495E")
    else None
  }

  /** The six colours in declaration order. */
  const Palette := ["#3498DB", "#E74C3C", "#F39C12", "#9B59B6", "#2ECC71", "#34495E"]

  /** A slice's colour: its category's own, or the palette entry at its
      position, wrapping around. */
  function SliceFill(category: string, index: nat): (fill: string)
    ensures CategoryColour(category).Some? ==> fill == CategoryColour(category).value
    ensures CategoryColour(category).None? ==> fill == Palette[index % 6]
    ensures fill in Palette
  {
    match CategoryColour(category)
    case Some(c) => c
    case None => Palette[index % |Palette|]
  }

  datatype PieSlice = PieSlice(name: string, value: nat, fill: string)

  /** `Object.keys(counts).map((category, index) => ...)`: one slice per
      distinct category, in first-appearance order, coloured by position. */
  function Slices(d: seq<string>, counts: map<string, nat>): (r: seq<PieSlice>)
    ensures |r| == |d|
    ensures forall i :: 0 <= i < |r| ==>
      r[i].name == d[i] && r[i].value == ChartValue(counts, d[i]) && r[i].fill == SliceFill(d[i], i)
  {
    seq(|d|, i requires 0 <= i < |d| => PieSlice(d[i], ChartValue(counts, d[i]), SliceFill(d[i], i)))
  }

  /** `pieChartData` for the shown reports. */
  function PieData(posts: seq<AdminPost>): seq<PieSlice> {
    Slices(Distinct(CategoryKeys(posts)), CountsOf(CategoryKeys(posts)))
  }

  function SliceTotal(s: seq<PieSlice>): nat {
    if s == [] then 0 else s[0].value + SliceTotal(s[1..])
  }

  lemma {:induction false} SliceTotalIsSum(d: seq<string>, counts: map<string, nat>)
    ensures SliceTotal(Slices(d, counts)) == SumOver(d, counts)
  {
    SliceTotalOfValues(Slices(d, counts), d, counts);
  }

  lemma {:induction false} SliceTotalOfValues(s: seq<PieSlice>, d: seq<string>, counts: map<string, nat>)
    requires |s| == |d|
    requires forall i :: 0 <= i < |s| ==> s[i].value == ChartValue(counts, d[i])
    ensures SliceTotal(s) == SumOver(d, counts)
  {
    if s != [] {
      SliceTotalOfValues(s[1..], d[1..], counts);
    }
  }

  /** Every slice counts at least one report. */
  lemma {:induction false} SlicesNonEmpty(posts: seq<AdminPost>)
    ensures forall i :: 0 <= i < |PieData(posts)| ==> PieData(posts)[i].value > 0
  {
    var keys := CategoryKeys(posts);
    var d := Distinct(keys);
    CountsOfMeaning(keys);
    forall i | 0 <= i < |d| ensures ChartValue(CountsOf(keys), d[i]) > 0 {
      CountPositive(keys, d[i]);
    }
  }

  /** There is a slice for a category exactly when some shown report has
      it. */
  lemma {:induction false} SlicePerCategory(posts: seq<AdminPost>, c: string)
    ensures (exists i :: 0 <= i < |PieData(posts)| && PieData(posts)[i].name == c)
            <==> (exists j :: 0 <= j < |posts| && posts[j].category == c)
  {
    var keys := CategoryKeys(posts);
    var d := Distinct(keys);
    var r := PieData(posts);
    assert forall i :: 0 <= i < |r| ==> r[i].name == d[i];
    if c in d {
      var i :| 0 <= i < |d| && d[i] == c;
      assert r[i].name == c;
      var j :| 0 <= j < |keys| && keys[j] == c;
      assert posts[j].category == c;
    }
    if exists j :: 0 <= j < |posts| && posts[j].category == c {
      var j :| 0 <= j < |posts| && posts[j].category == c;
      assert keys[j] == c;
    }
  }

  /** The slices add up to the number of reports shown. */
  lemma {:induction false} PieTotal(posts: seq<AdminPost>)
    ensures SliceTotal(PieData(posts)) == |posts|
  {
    var keys := CategoryKeys(posts);
    SliceTotalIsSum(Distinct(keys), CountsOf(keys));
    CountsSumToLength(keys);
  }

  // ----- page state -----

  /** The report list after a status change: the report with that id takes
      the new status, the others stay as they are. */
  function WithNewStatus(posts: seq<AdminPost>, id: string, status: string): (r: seq<AdminPost>)
    ensures |r| == |posts|
    ensures forall i :: 0 <= i < |r| ==> r[i] == if posts[i].id == id then posts[i].(status := status) else posts[i]
  {
    seq(|posts|, i requires 0 <= i < |posts| => if posts[i].id == id then posts[i].(status := status) else posts[i])
  }

  class ReportsView {
    var allPosts: seq<AdminPost>
    var filteredPosts: seq<AdminPost>
    var filter: string
    var error: Option<string>
    var selectedReport: Option<AdminPost>

    constructor()
      ensures allPosts == [] && filteredPosts == [] && filter == "all" && error == None && selectedReport == None
    {
      allPosts, filteredPosts, filter, error, selectedReport := [], [], "all", None, None;
    }

    /** Reports handed over by a dashboard card are shown as they are. */
    method LoadGiven(posts: seq<AdminPost>)
      modifies this
      ensures allPosts == posts && filteredPosts == posts
      ensures filter == old(filter) && error == old(error) && selectedReport == old(selectedReport)
    {
      allPosts := posts;
      filteredPosts := posts;
    }

    /** `fetchAllPosts`: received reports fill both lists; a failure only
        sets the error. */
    method ApplyFetch(result: FetchResult)
      modifies this
      ensures result.Fetched? ==> allPosts == result.posts && filteredPosts == result.posts && error == old(error)
      ensures result.FetchFailed? ==>
        allPosts == old(allPosts) && filteredPosts == old(filteredPosts) && error == Some(FetchFailedMessage)
      ensures filter == old(filter) && selectedReport == old(selectedReport)
    {
      match result
      case Fetched(received) =>
        allPosts := received;
        filteredPosts := received;
      case FetchFailed =>
        error := Some(FetchFailedMessage);
    }

    /** `filterPosts`: always from all reports. */
    method ApplyFilter(key: string, clock: Clock, calendar: int -> YearMonth)
      modifies this
      ensures filteredPosts == PeriodPosts(allPosts, key, clock, calendar) && filter == key
      ensures allPosts == old(allPosts) && error == old(error) && selectedReport == old(selectedReport)
    {
      filteredPosts := PeriodPosts(allPosts, key, clock, calendar);
      filter := key;
    }

    /** `handleStatusChange`, called from the open report's form: after an
        accepted update only the shown list and the open report change; the
        full list keeps the old status, so the next filter brings it back. */
    method ChangeStatus(id: string, status: string, accepted: bool)
      requires selectedReport.Some?
      modifies this
      ensures accepted ==> filteredPosts == WithNewStatus(old(filteredPosts), id, status)
      ensures accepted ==> selectedReport == Some(old(selectedReport).value.(status := status))
      ensures !accepted ==> filteredPosts == old(filteredPosts) && selectedReport == old(selectedReport)
      ensures allPosts == old(allPosts) && filter == old(filter) && error == old(error)
    {
      if accepted {
        filteredPosts := WithNewStatus(filteredPosts, id, status);
        selectedReport := Some(selectedReport.value.(status := status));
      }
    }

    /** An accepted status change followed by choosing "all": the shown list
        is again every loaded report with the status it had before, since
        the change never reached `allPosts`, while the open report keeps
        the new status. */
    method RefilterForgetsStatusChange(id: string, status: string, clock: Clock, calendar: int -> YearMonth)
      requires selectedReport.Some?
      modifies this
      ensures filteredPosts == old(allPosts) && allPosts == old(allPosts) && filter == "all"
      ensures selectedReport == Some(old(selectedReport).value.(status := status))
      ensures error == old(error)
    {
      ChangeStatus(id, status, true);
      ApplyFilter("all", clock, calendar);
    }
  }
}
