/**
 The summary over all reports and the exit code drawn from it. Neither depends on
 the order in which the reports arrive.
 */
module Summary {
  import opened Basics
  import opened Model
  import Engine

  /** The value of a summary. */
  datatype Totals = Totals(
    highest: Option<Severity>,
    collectorFailed: bool,
    collectionIncomplete: bool,
    requested: nat,
    completed: nat)

  function Start(requested: nat): Totals {
    Totals(None, false, false, requested, 0)
  }

  predicate CollectorFailed(r: ScanReport) {
    exists i :: 0 <= i < |r.errors| && r.errors[i].probe == Engine.COLLECTOR
  }

  predicate HasErrors(r: ScanReport) {
    r.errors != []
  }

  function Included(t: Totals, r: ScanReport): Totals {
    Totals(
      MaxSeverity(t.highest, HighestSeverity(r.findings)),
      t.collectorFailed || CollectorFailed(r),
      t.collectionIncomplete || HasErrors(r),
      t.requested,
      t.completed + 1)
  }

  /** Reports included one after the other. */
  function Tally(t: Totals, reports: seq<ScanReport>): Totals {
    if reports == [] then t else Included(Tally(t, reports[..|reports| - 1]), reports[|reports| - 1])
  }

  class ScanSummary {
    var highestSeverity: Option<Severity>
    var collectorFailed: bool
    var collectionIncomplete: bool
    var targetsRequested: nat
    var targetsCompleted: nat

    function Value(): Totals
      reads this
    {
      Totals(highestSeverity, collectorFailed, collectionIncomplete, targetsRequested, targetsCompleted)
    }

    constructor ForTargets(requested: nat)
      ensures Value() == Start(requested)
    {
      highestSeverity, collectorFailed, collectionIncomplete := None, false, false;
      targetsRequested, targetsCompleted := requested, 0;
    }

    method Include(report: ScanReport)
      modifies this
      ensures Value() == Included(old(Value()), report)
    {
      targetsCompleted := targetsCompleted + 1;
      highestSeverity := MaxSeverity(highestSeverity, HighestSeverity(report.findings));
      if exists i :: 0 <= i < |report.errors| && report.errors[i].probe == Engine.COLLECTOR {
        collectorFailed := true;
      }
      if report.errors != [] {
        collectionIncomplete := true;
      }
    }
  }

  /** The loop of the buffered mode over its sorted reports. */
  method Summarize(reports: seq<ScanReport>, requested: nat) returns (summary: ScanSummary)
    ensures fresh(summary) && summary.Value() == Tally(Start(requested), reports)
  {
    summary := new ScanSummary.ForTargets(requested);
    for i := 0 to |reports|
      invariant fresh(summary)
      invariant summary.Value() == Tally(Start(requested), reports[..i])
    {
      assert reports[..i + 1][..i] == reports[..i];
      summary.Include(reports[i]);
    }
    assert reports[..|reports|] == reports;
  }

  // ---------- what a summary says ----------

  function Worst(r: ScanReport): int {
    OptionalRank(HighestSeverity(r.findings))
  }

  /** The totals describe the set of the reports. */
  ghost predicate Describes(t: Totals, requested: nat, reports: seq<ScanReport>) {
    && t.requested == requested
    && t.completed == |reports|
    && (t.collectorFailed <==> exists r :: r in reports && CollectorFailed(r))
    && (t.collectionIncomplete <==> exists r :: r in reports && HasErrors(r))
    && (forall r :: r in reports ==> Worst(r) <= OptionalRank(t.highest))
    && (t.highest == None || exists r :: r in reports && Worst(r) == OptionalRank(t.highest))
  }

  lemma {:induction false} TallyDescribes(requested: nat, reports: seq<ScanReport>)
    ensures Describes(Tally(Start(requested), reports), requested, reports)
  {
    if reports != [] {
      var init, last := reports[..|reports| - 1], reports[|reports| - 1];
      TallyDescribes(requested, init);
      assert reports == init + [last];
      IncludeDescribes(Tally(Start(requested), init), requested, init, last);
    }
  }

  lemma IncludeDescribes(t: Totals, requested: nat, reports: seq<ScanReport>, r: ScanReport)
    requires Describes(t, requested, reports)
    ensures Describes(Included(t, r), requested, reports + [r])
  {
    var next := Included(t, r);
    assert r in reports + [r];
    assert forall x :: x in reports + [r] <==> x in reports || x == r;
    if next.highest != None && Worst(r) <= OptionalRank(t.highest) {
      var x :| x in reports && Worst(x) == OptionalRank(t.highest);
      assert x in reports + [r];
    }
  }

  lemma RankInjective(a: Option<Severity>, b: Option<Severity>)
    ensures OptionalRank(a) == OptionalRank(b) ==> a == b
  {
  }

  /** The description determines the totals. */
  lemma DescribedOnce(t: Totals, u: Totals, requested: nat, reports: seq<ScanReport>)
    requires Describes(t, requested, reports) && Describes(u, requested, reports)
    ensures t == u
  {
    RankInjective(t.highest, u.highest);
    if t.highest != None {
      var r :| r in reports && Worst(r) == OptionalRank(t.highest);
    }
    if u.highest != None {
      var r :| r in reports && Worst(r) == OptionalRank(u.highest);
    }
  }

  /** Every completion order gives the same summary. */
  lemma TallyOfPermutation(requested: nat, a: seq<ScanReport>, b: seq<ScanReport>)
    requires multiset(a) == multiset(b)
    ensures Tally(Start(requested), a) == Tally(Start(requested), b)
  {
    TallyDescribes(requested, a);
    TallyDescribes(requested, b);
    assert |a| == |multiset(a)| && |b| == |multiset(b)|;
    forall r
      ensures r in a <==> r in b
    {
      assert r in a <==> r in multiset(a);
      assert r in b <==> r in multiset(b);
    }
    DescribedOnce(Tally(Start(requested), a), Tally(Start(requested), b), requested, a);
  }

  // ---------- exit codes ----------

  const CLEAN_EXIT := 0
  const FINDINGS_EXIT := 1
  const FAILURE_EXIT := 2

  function ReportExit(t: Totals, strict: bool, failOn: Severity): nat {
    if t.completed != t.requested || t.collectorFailed || (strict && t.collectionIncomplete) then FAILURE_EXIT
    else if t.highest.Some? && Rank(t.highest.value) >= Rank(failOn) then FINDINGS_EXIT
    else CLEAN_EXIT
  }

  datatype WriteError = BrokenPipe | Other(message: string)

  /** The exit of the streaming mode; `persist` is what writing out the finished report gave. */
  function StreamedExit(streamed: Result<Totals, (WriteError, Totals)>, persist: Option<WriteError>, strict: bool, failOn: Severity): nat {
    match streamed
    case Ok(t) =>
      if persist.Some? && persist.value != BrokenPipe then FAILURE_EXIT else ReportExit(t, strict, failOn)
    case Err((error, t)) =>
      if error == BrokenPipe then ReportExit(t, strict, failOn) else FAILURE_EXIT
  }

  /** The exit of the buffered mode; `written` is what writing all reports gave. */
  function BufferedExit(written: Option<WriteError>, t: Totals, strict: bool, failOn: Severity): nat {
    if written.Some? && written.value != BrokenPipe then FAILURE_EXIT else ReportExit(t, strict, failOn)
  }

  ghost predicate FailsOn(r: ScanReport, failOn: Severity) {
    exists i :: 0 <= i < |r.findings| && Rank(r.findings[i].severity) >= Rank(failOn)
  }

  lemma WorstDecides(r: ScanReport, failOn: Severity)
    ensures FailsOn(r, failOn) <==> Worst(r) >= Rank(failOn)
  {
    HighestSeveritySpec(r.findings);
    if Worst(r) >= Rank(failOn) {
      var i :| 0 <= i < |r.findings| && HighestSeverity(r.findings) == Some(r.findings[i].severity);
      assert Rank(r.findings[i].severity) >= Rank(failOn);
    }
  }

  /** Coverage failed, a collector failed, or under strict collection anything was left uncollected. */
  ghost predicate Failed(requested: nat, reports: seq<ScanReport>, strict: bool) {
    || |reports| != requested
    || (exists r :: r in reports && exists i :: 0 <= i < |r.errors| && r.errors[i].probe == "collector")
    || (strict && exists r :: r in reports && r.errors != [])
  }

  /** What each exit code says about the reports themselves. */
  lemma ExitCodeMeans(requested: nat, reports: seq<ScanReport>, strict: bool, failOn: Severity)
    ensures var code := ReportExit(Tally(Start(requested), reports), strict, failOn);
      && (code == 2 <==> Failed(requested, reports, strict))
      && (code == 1 <==> !Failed(requested, reports, strict) && exists r :: r in reports && FailsOn(r, failOn))
      && (code == 0 <==> !Failed(requested, reports, strict) && forall r :: r in reports ==> !FailsOn(r, failOn))
  {
    var t := Tally(Start(requested), reports);
    TallyDescribes(requested, reports);
    assert Failed(requested, reports, strict)
      <==> |reports| != requested || (exists r :: r in reports && CollectorFailed(r))
           || (strict && exists r :: r in reports && HasErrors(r));
    forall r | r in reports
      ensures FailsOn(r, failOn) <==> Worst(r) >= Rank(failOn)
    {
      WorstDecides(r, failOn);
    }
    if t.highest.Some? {
      var r :| r in reports && Worst(r) == OptionalRank(t.highest);
      assert Rank(t.highest.value) >= Rank(failOn) ==> FailsOn(r, failOn);
    }
  }

  /**
   The streaming mode, in whatever order reports complete, and the buffered mode,
   with its sorted reports, end with the same exit code for the same write result.
   */
  lemma ModesAgree(
    requested: nat, arrived: seq<ScanReport>, sorted: seq<ScanReport>, write: Option<WriteError>, strict: bool, failOn: Severity)
    requires multiset(arrived) == multiset(sorted)
    ensures var t := Tally(Start(requested), arrived);
      var streamed := if write.Some? then Err((write.value, t)) else Ok(t);
      && StreamedExit(streamed, None, strict, failOn)
         == BufferedExit(write, Tally(Start(requested), sorted), strict, failOn)
      && StreamedExit(Ok(t), write, strict, failOn)
         == BufferedExit(write, Tally(Start(requested), sorted), strict, failOn)
  {
    TallyOfPermutation(requested, arrived, sorted);
  }

  /** A stream cut short never exits cleanly. */
  lemma PartialStreamFails(requested: nat, arrived: seq<ScanReport>, error: WriteError, persist: Option<WriteError>, strict: bool, failOn: Severity)
    requires |arrived| < requested
    ensures StreamedExit(Err((error, Tally(Start(requested), arrived))), persist, strict, failOn) == FAILURE_EXIT
  {
    TallyDescribes(requested, arrived);
  }
}
