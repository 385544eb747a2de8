/**
 One scan: the collected transcript becomes findings, observations and errors, and
 a report shows PASS only when everything was collected and nothing was found.
 */
module Engine {
  import opened Basics
  import opened Text
  import opened Utf8
  import opened Protocol
  import opened Model
  import Bags
  import Sorting
  import Transport

  const EVIDENCE_LIMIT := 8 * 1024

  const COLLECTOR := "collector"

  function ShowInt(n: int): string {
    if n < 0 then "-" + Decimal(-n) else Decimal(n)
  }

  // ---------- errors ----------

  const NO_OS_RELEASE := "collector returned no os-release metadata section"
  const OVER_STDOUT_LIMIT := "collector stdout exceeded the 524288-byte transport limit; report is incomplete"
  const NO_CAPABILITIES := "collector returned no capability inventory"
  const NO_SECTION := "collector returned no evidence section (session truncated or interrupted)"

  function OsReleaseErrors(sections: map<string, Section>): seq<ScanError> {
    if OS_RELEASE_ID !in sections then [ScanError(OS_RELEASE_ID, NO_OS_RELEASE)]
    else
      var s := sections[OS_RELEASE_ID];
      if s.unavailable.Some? then [ScanError(OS_RELEASE_ID, "metadata unavailable: " + s.unavailable.value)]
      else if s.status != 0 then [ScanError(OS_RELEASE_ID, "metadata collection exited with status " + ShowInt(s.status))]
      else []
  }

  function TruncationErrors(truncated: bool): seq<ScanError> {
    if truncated then [ScanError(COLLECTOR, OVER_STDOUT_LIMIT)] else []
  }

  function CapabilityErrors(sections: map<string, Section>): seq<ScanError> {
    if CAPABILITIES_ID !in sections then [ScanError(CAPABILITIES_ID, NO_CAPABILITIES)]
    else
      var s := sections[CAPABILITIES_ID];
      if s.status != 0
      then [ScanError(CAPABILITIES_ID, "capability inventory exited with status " + ShowInt(s.status))] else []
  }

  function ProbeErrors(sections: map<string, Section>, p: Probe): seq<ScanError> {
    if p.id !in sections then [ScanError(p.id, NO_SECTION)]
    else
      var s := sections[p.id];
      if s.unavailable.Some? then [ScanError(p.id, "evidence unavailable: " + s.unavailable.value)]
      else
        (if s.partial.Some? then [ScanError(p.id, "partial evidence: " + s.partial.value)] else [])
        + (if s.status != 0 then [ScanError(p.id, "probe exited with status " + ShowInt(s.status))] else [])
  }

  /** A section is evaluated unless it is missing, unavailable or failed. */
  predicate Evaluated(sections: map<string, Section>, p: Probe) {
    p.id in sections && sections[p.id].unavailable == None && sections[p.id].status == 0
  }

  /** `evaluate_probe_output`: the evaluator sees the whole output, the report the retained part. */
  function EvaluateOutput(p: Probe, s: Section): (r: (Option<Finding>, Option<Observation>)) {
    var retained := Retained(s.output, EVIDENCE_LIMIT);
    (FindingOf(p, s.output, retained), ObservationOf(p, retained, s.partial, s.collectionLimits))
  }

  function OptionSeq<T>(o: Option<T>): seq<T> {
    if o.Some? then [o.value] else []
  }

  function ProbeFindings(sections: map<string, Section>, p: Probe): seq<Finding> {
    if Evaluated(sections, p) then OptionSeq(EvaluateOutput(p, sections[p.id]).0) else []
  }

  function ProbeObservations(sections: map<string, Section>, p: Probe): seq<Observation> {
    if Evaluated(sections, p) then OptionSeq(EvaluateOutput(p, sections[p.id]).1) else []
  }

  function AllErrors(sections: map<string, Section>, probes: seq<Probe>): seq<ScanError> {
    if probes == [] then []
    else AllErrors(sections, probes[..|probes| - 1]) + ProbeErrors(sections, probes[|probes| - 1])
  }

  function AllFindings(sections: map<string, Section>, probes: seq<Probe>): seq<Finding> {
    if probes == [] then []
    else AllFindings(sections, probes[..|probes| - 1]) + ProbeFindings(sections, probes[|probes| - 1])
  }

  function AllObservations(sections: map<string, Section>, probes: seq<Probe>): seq<Observation> {
    if probes == [] then []
    else AllObservations(sections, probes[..|probes| - 1]) + ProbeObservations(sections, probes[|probes| - 1])
  }

  // ---------- the report ----------

  /** Worst severity first, then by id. */
  predicate FindingLe(a: Finding, b: Finding) {
    Rank(a.severity) > Rank(b.severity)
    || (a.severity == b.severity && Sorting.StringLe(a.id, b.id))
  }

  /** What the transport hands over: output with the truncation flag, or the reason there is none. */
  type Collected = Result<Transport.Capped, string>

  function ReportOf(target: string, probes: seq<Probe>, pack: Option<PackInfo>, version: string, nonce: string, raw: Collected): ScanReport {
    match raw
    case Err(e) =>
      ScanReport(version, pack, target, None, |probes|, [], [],
        [ScanError(COLLECTOR, "collector setup or execution failed: " + e)])
    case Ok(output) =>
      var t := Parsed(Lossy(output.bytes), nonce);
      ScanReport(version, pack, target, t.host, |probes|,
        Sorting.Sort(FindingLe, AllFindings(t.sections, probes)),
        AllObservations(t.sections, probes),
        OsReleaseErrors(t.sections) + TruncationErrors(output.truncated) + CapabilityErrors(t.sections)
          + AllErrors(t.sections, probes))
  }

  method EvaluateSections(sections: map<string, Section>, probes: seq<Probe>, before: seq<ScanError>)
    returns (findings: seq<Finding>, observations: seq<Observation>, errors: seq<ScanError>)
    ensures findings == AllFindings(sections, probes)
    ensures observations == AllObservations(sections, probes)
    ensures errors == before + AllErrors(sections, probes)
  {
    findings, observations := [], [];
    var own: seq<ScanError> := [];
    for i := 0 to |probes|
      invariant findings == AllFindings(sections, probes[..i])
      invariant observations == AllObservations(sections, probes[..i])
      invariant own == AllErrors(sections, probes[..i])
    {
      RoundAdds(sections, probes, i);
      var newFindings, newObservations, newErrors := EvaluateProbe(sections, probes[i]);
      findings, observations, own := findings + newFindings, observations + newObservations, own + newErrors;
    }
    assert probes[..|probes|] == probes;
    errors := before + own;
  }

  lemma RoundAdds(sections: map<string, Section>, probes: seq<Probe>, i: nat)
    requires i < |probes|
    ensures AllFindings(sections, probes[..i + 1])
         == AllFindings(sections, probes[..i]) + ProbeFindings(sections, probes[i])
    ensures AllObservations(sections, probes[..i + 1])
         == AllObservations(sections, probes[..i]) + ProbeObservations(sections, probes[i])
    ensures AllErrors(sections, probes[..i + 1])
         == AllErrors(sections, probes[..i]) + ProbeErrors(sections, probes[i])
  {
    assert probes[..i + 1][..i] == probes[..i];
  }

  /** One round of the loop over the probes. */
  method EvaluateProbe(sections: map<string, Section>, probe: Probe)
    returns (findings: seq<Finding>, observations: seq<Observation>, errors: seq<ScanError>)
    ensures findings == ProbeFindings(sections, probe)
    ensures observations == ProbeObservations(sections, probe)
    ensures errors == ProbeErrors(sections, probe)
  {
    findings, observations, errors := [], [], [];
    if probe.id !in sections {
      return [], [], [ScanError(probe.id, NO_SECTION)];
    }
    var section := sections[probe.id];
    if section.unavailable.Some? {
      return [], [], [ScanError(probe.id, "evidence unavailable: " + section.unavailable.value)];
    }
    if section.partial.Some? {
      errors := errors + [ScanError(probe.id, "partial evidence: " + section.partial.value)];
    }
    if section.status != 0 {
      errors := errors + [ScanError(probe.id, "probe exited with status " + ShowInt(section.status))];
    } else {
      var (finding, observation) := EvaluateOutput(probe, section);
      findings, observations := OptionSeq(finding), OptionSeq(observation);
    }
  }

  method ScanWithContext(
    target: string, probes: seq<Probe>, pack: Option<PackInfo>, version: string, nonce: string, raw: Collected)
    returns (report: ScanReport)
    ensures report == ReportOf(target, probes, pack, version, nonce, raw)
  {
    match raw
    case Err(error) =>
      report := ScanReport(version, pack, target, None, |probes|, [], [],
        [ScanError(COLLECTOR, "collector setup or execution failed: " + error)]);
    case Ok(output) =>
      var transcript := Parse(Lossy(output.bytes), nonce);
      var sections := transcript.sections;
      var errors := OsReleaseErrors(sections);
      if output.truncated {
        errors := errors + [ScanError(COLLECTOR, OVER_STDOUT_LIMIT)];
      }
      if CAPABILITIES_ID !in sections {
        errors := errors + [ScanError(CAPABILITIES_ID, NO_CAPABILITIES)];
      } else if sections[CAPABILITIES_ID].status != 0 {
        errors := errors + [ScanError(CAPABILITIES_ID,
          "capability inventory exited with status " + ShowInt(sections[CAPABILITIES_ID].status))];
      }
      assert errors == OsReleaseErrors(sections) + TruncationErrors(output.truncated) + CapabilityErrors(sections);
      var findings, observations, allErrors := EvaluateSections(sections, probes, errors);
      report := ScanReport(version, pack, target, transcript.host, |probes|,
        Sorting.Sort(FindingLe, findings), observations, allErrors);
  }

  // ---------- verdicts ----------

  datatype Verdict = Pass | Findings | Incomplete

  const PASS_LINE := "PASS  " + "No findings detected by the active probe pack."
  const INCOMPLETE_LINE := "INCOMPLETE  " + "Collection errors prevent a complete verdict."

  /** The verdict lines of the text report: two independent tests. */
  method HumanVerdict(report: ScanReport) returns (lines: seq<string>)
    ensures lines == match VerdictOf(report)
      case Pass => [PASS_LINE]
      case Incomplete => [INCOMPLETE_LINE]
      case Findings => []
  {
    lines := [];
    if report.findings == [] && report.errors == [] {
      lines := lines + [PASS_LINE];
    }
    if report.errors != [] {
      lines := lines + [INCOMPLETE_LINE];
    }
  }

  /** The verdict paragraph of the HTML report: errors first. */
  method HtmlVerdict(report: ScanReport) returns (lines: seq<string>)
    ensures lines == match VerdictOf(report)
      case Pass => [PASS_LINE]
      case Incomplete => [INCOMPLETE_LINE]
      case Findings => []
  {
    lines := [];
    if report.errors != [] {
      lines := [INCOMPLETE_LINE];
    } else if report.findings == [] {
      lines := [PASS_LINE];
    }
  }

  /** The verdict of the viewer's header. */
  function VerdictOf(report: ScanReport): Verdict {
    if report.errors != [] then Incomplete
    else if report.findings == [] then Pass
    else Findings
  }

  // ---------- never a silent pass ----------

  /** Collected completely, and rejected by the evaluator if there is one. */
  ghost predicate CleanSection(sections: map<string, Section>, p: Probe) {
    && p.id in sections
    && sections[p.id].unavailable == None
    && sections[p.id].partial == None
    && sections[p.id].status == 0
    && (p.kind.Detection? ==> !p.kind.evaluate(sections[p.id].output))
  }

  ghost predicate CleanMetadata(sections: map<string, Section>) {
    && CAPABILITIES_ID in sections && sections[CAPABILITIES_ID].status == 0
    && OS_RELEASE_ID in sections && sections[OS_RELEASE_ID].unavailable == None && sections[OS_RELEASE_ID].status == 0
  }

  lemma CleanProbe(sections: map<string, Section>, p: Probe)
    ensures CleanSection(sections, p) <==> ProbeErrors(sections, p) == [] && ProbeFindings(sections, p) == []
  {
  }

  lemma {:induction false} CleanProbes(sections: map<string, Section>, probes: seq<Probe>)
    ensures (forall i :: 0 <= i < |probes| ==> CleanSection(sections, probes[i]))
      <==> AllErrors(sections, probes) == [] && AllFindings(sections, probes) == []
  {
    if probes != [] {
      var n := |probes| - 1;
      CleanProbes(sections, probes[..n]);
      CleanProbe(sections, probes[n]);
      assert forall i :: 0 <= i < n ==> probes[..n][i] == probes[i];
    }
  }

  lemma SortEmpty<T>(le: (T, T) -> bool, s: seq<T>)
    ensures Sorting.Sort(le, s) == [] <==> s == []
  {
    Sorting.SortKeeps(le, s);
    Sorting.SameElements(Sorting.Sort(le, s), s);
  }

  /**
   A report shows PASS exactly when the session delivered its whole output, both
   metadata sections were collected, and every probe has a complete section that
   its evaluator rejects.
   */
  lemma NeverASilentPass(target: string, probes: seq<Probe>, pack: Option<PackInfo>, version: string, nonce: string, raw: Collected)
    ensures VerdictOf(ReportOf(target, probes, pack, version, nonce, raw)) == Pass <==>
      && raw.Ok? && !raw.value.truncated
      && var sections := Parsed(Lossy(raw.value.bytes), nonce).sections;
         CleanMetadata(sections) && forall i :: 0 <= i < |probes| ==> CleanSection(sections, probes[i])
  {
    if raw.Ok? {
      var sections := Parsed(Lossy(raw.value.bytes), nonce).sections;
      CleanProbes(sections, probes);
      SortEmpty(FindingLe, AllFindings(sections, probes));
    }
  }

  // ---------- findings and gaps ----------

  lemma FindingLeRanks()
    ensures Sorting.Ranking(FindingLe)
  {
    Sorting.StringLeIsTotalOrder();
  }

  ghost predicate Raises(sections: map<string, Section>, p: Probe, f: Finding) {
    && p.id in sections && sections[p.id].unavailable == None && sections[p.id].status == 0
    && p.kind.Detection? && p.kind.evaluate(sections[p.id].output)
    && f == Finding(p.id, p.title, p.kind.severity, p.category, p.description, p.kind.remediation, p.script,
                    Retained(sections[p.id].output, EVIDENCE_LIMIT))
  }

  /** The positions of the probes that raise a finding. */
  ghost function Raisers(sections: map<string, Section>, probes: seq<Probe>, f: Finding): set<nat> {
    Bags.Positions((p: Probe) => Raises(sections, p, f), probes)
  }

  lemma RaisesOnce(sections: map<string, Section>, p: Probe, f: Finding)
    ensures multiset(ProbeFindings(sections, p))[f] == if Raises(sections, p, f) then 1 else 0
  {
    var own := ProbeFindings(sections, p);
    assert own == [] || own == [own[0]];
  }

  lemma {:induction false} FindingsAreCounted(sections: map<string, Section>, probes: seq<Probe>, f: Finding)
    ensures multiset(AllFindings(sections, probes))[f] == |Raisers(sections, probes, f)|
  {
    if probes != [] {
      FindingsAreCounted(sections, probes[..|probes| - 1], f);
      RaisesOnce(sections, probes[|probes| - 1], f);
      Bags.PositionsGrow((p: Probe) => Raises(sections, p, f), probes);
    }
  }

  /** A finding stands before another: it is worse, or as bad with an id that is not later. */
  ghost predicate WorstFirst(a: Finding, b: Finding) {
    Rank(a.severity) >= Rank(b.severity) && (a.severity == b.severity ==> Sorting.StringLe(a.id, b.id))
  }

  lemma SortedWorstFirst(findings: seq<Finding>)
    ensures var sorted := Sorting.Sort(FindingLe, findings);
      forall i, j :: 0 <= i < j < |sorted| ==> WorstFirst(sorted[i], sorted[j])
  {
    var sorted := Sorting.Sort(FindingLe, findings);
    FindingLeRanks();
    Sorting.SortSorts(FindingLe, findings);
    forall i, j | 0 <= i < j < |sorted|
      ensures WorstFirst(sorted[i], sorted[j])
    {
      assert FindingLe(sorted[i], sorted[j]);
    }
  }

  /**
   A report's findings are those its evaluated probes raise on their whole output, with
   the retained part of it: each as often as there are probes that raise it, worst
   first and then by id.
   */
  lemma FindingsAreExact(target: string, probes: seq<Probe>, pack: Option<PackInfo>, version: string, nonce: string, output: Transport.Capped)
    ensures var report := ReportOf(target, probes, pack, version, nonce, Ok(output));
      var sections := Parsed(Lossy(output.bytes), nonce).sections;
      && (forall i, j :: 0 <= i < j < |report.findings| ==> WorstFirst(report.findings[i], report.findings[j]))
      && (forall f :: multiset(report.findings)[f] == |Raisers(sections, probes, f)|)
      && forall f :: f in report.findings <==> exists i :: 0 <= i < |probes| && Raises(sections, probes[i], f)
  {
    var sections := Parsed(Lossy(output.bytes), nonce).sections;
    var all := AllFindings(sections, probes);
    var sorted := Sorting.Sort(FindingLe, all);
    SortedWorstFirst(all);
    Sorting.SortKeeps(FindingLe, all);
    forall f
      ensures multiset(sorted)[f] == |Raisers(sections, probes, f)|
      ensures f in sorted <==> exists i :: 0 <= i < |probes| && Raises(sections, probes[i], f)
    {
      FindingsAreCounted(sections, probes, f);
      assert f in sorted <==> f in multiset(sorted);
      var raisers := Raisers(sections, probes, f);
      if f in sorted {
        assert raisers != {};
        var i :| i in raisers;
      }
      if i :| 0 <= i < |probes| && Raises(sections, probes[i], f) {
        assert i in raisers;
      }
    }
  }

  /** A probe whose evidence is missing, unavailable, partial or failed. */
  predicate Gap(sections: map<string, Section>, p: Probe) {
    || p.id !in sections
    || sections[p.id].unavailable.Some? || sections[p.id].partial.Some? || sections[p.id].status != 0
  }

  ghost predicate Names(errors: seq<ScanError>, id: string) {
    exists k :: 0 <= k < |errors| && errors[k].probe == id
  }

  lemma {:induction false} GapsAreNamed(sections: map<string, Section>, probes: seq<Probe>, id: string)
    ensures Names(AllErrors(sections, probes), id)
      <==> exists i :: 0 <= i < |probes| && probes[i].id == id && Gap(sections, probes[i])
  {
    if probes != [] {
      var init, last := probes[..|probes| - 1], probes[|probes| - 1];
      GapsAreNamed(sections, init, id);
      NamesConcat(AllErrors(sections, init), ProbeErrors(sections, last), id);
      GapIsNamed(sections, last, id);
      if i :| 0 <= i < |init| && init[i].id == id && Gap(sections, init[i]) {
        assert probes[i] == init[i];
      }
      if i :| 0 <= i < |probes| && probes[i].id == id && Gap(sections, probes[i]) {
        assert i < |init| ==> init[i] == probes[i];
      }
    }
  }

  lemma NamesConcat(a: seq<ScanError>, b: seq<ScanError>, id: string)
    ensures Names(a + b, id) <==> Names(a, id) || Names(b, id)
  {
    if k :| 0 <= k < |a| && a[k].probe == id {
      assert (a + b)[k] == a[k];
    }
    if k :| 0 <= k < |b| && b[k].probe == id {
      assert (a + b)[|a| + k] == b[k];
    }
  }

  lemma GapIsNamed(sections: map<string, Section>, p: Probe, id: string)
    ensures Names(ProbeErrors(sections, p), id) <==> p.id == id && Gap(sections, p)
  {
    var errors := ProbeErrors(sections, p);
    assert Gap(sections, p) ==> errors != [] && errors[0].probe == p.id;
  }

  /** Every gap in the evidence of a probe stands in the report's errors under the probe's id. */
  lemma GapsAreReported(target: string, probes: seq<Probe>, pack: Option<PackInfo>, version: string, nonce: string, output: Transport.Capped, i: nat)
    requires i < |probes| && Gap(Parsed(Lossy(output.bytes), nonce).sections, probes[i])
    ensures Names(ReportOf(target, probes, pack, version, nonce, Ok(output)).errors, probes[i].id)
  {
    var sections := Parsed(Lossy(output.bytes), nonce).sections;
    GapsAreNamed(sections, probes, probes[i].id);
    NamesConcat(OsReleaseErrors(sections) + TruncationErrors(output.truncated) + CapabilityErrors(sections),
                AllErrors(sections, probes), probes[i].id);
  }

  /** Truncated output always leaves a collector error in the report. */
  lemma TruncationIsReported(target: string, probes: seq<Probe>, pack: Option<PackInfo>, version: string, nonce: string, raw: Collected)
    ensures var report := ReportOf(target, probes, pack, version, nonce, raw);
      (raw.Err? || raw.value.truncated ==>
         VerdictOf(report) == Incomplete && exists i :: 0 <= i < |report.errors| && report.errors[i].probe == COLLECTOR)
  {
    var report := ReportOf(target, probes, pack, version, nonce, raw);
    if raw.Err? {
      assert report.errors[0].probe == COLLECTOR;
    } else if raw.value.truncated {
      var k := |OsReleaseErrors(Parsed(Lossy(raw.value.bytes), nonce).sections)|;
      assert report.errors[k].probe == COLLECTOR;
    }
  }
}
