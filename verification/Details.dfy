/** Which row of the report viewer shows what: its heading, and its own details exactly when it is expanded. */
module Details {
  import opened Basics
  import opened Text
  import opened Model
  import opened Rendering
  import Output

  // ---------- rows ----------

  lemma InFirst(a: seq<seq<string>>, b: seq<seq<string>>, c: seq<seq<string>>, i: nat)
    requires i < |a|
    ensures (a + b + c)[i] == a[i]
  {
  }

  lemma InSecond(a: seq<seq<string>>, b: seq<seq<string>>, c: seq<seq<string>>, i: nat)
    requires i < |b|
    ensures (a + b + c)[|a| + i] == b[i]
  {
  }

  lemma InThird(a: seq<seq<string>>, b: seq<seq<string>>, c: seq<seq<string>>, i: nat)
    requires i < |c|
    ensures (a + b + c)[|a| + |b| + i] == c[i]
  {
  }

  /** The first rows are the findings. */
  lemma FindingsComeFirst(r: ScanReport, expanded: set<nat>, i: nat)
    requires i < |r.findings|
    ensures RowBlocks(r, expanded)[i] == FindingLines(r.findings[i], i in expanded)
  {
    InFirst(FindingBlocks(r, expanded), ObservationBlocks(r, expanded), ErrorBlocks(r, expanded), i);
  }

  /** Behind them are the observations. */
  lemma ObservationsFollow(r: ScanReport, expanded: set<nat>, i: nat)
    requires i < |r.observations|
    ensures RowBlocks(r, expanded)[|r.findings| + i] == ObservationLines(r.observations[i], |r.findings| + i in expanded)
  {
    InSecond(FindingBlocks(r, expanded), ObservationBlocks(r, expanded), ErrorBlocks(r, expanded), i);
  }

  /** The last rows are the errors. */
  lemma ErrorsComeLast(r: ScanReport, expanded: set<nat>, i: nat)
    requires i < |r.errors|
    ensures RowBlocks(r, expanded)[|r.findings| + |r.observations| + i]
         == ErrorLines(r.errors[i], |r.findings| + |r.observations| + i in expanded)
  {
    InThird(FindingBlocks(r, expanded), ObservationBlocks(r, expanded), ErrorBlocks(r, expanded), i);
  }

  /** A row is its marked heading, and behind it the details if it is expanded. */
  predicate RowShows(row: seq<string>, expanded: bool, text: string, details: seq<string>) {
    row == if expanded then ["-" + text] + details else ["+" + text]
  }

  lemma HeadedRow(expanded: bool, text: string, details: seq<string>)
    ensures RowShows([Marker(expanded) + text] + if expanded then details else [], expanded, text, details)
  {
  }

  lemma FindingRow(f: Finding, expanded: bool)
    ensures RowShows(FindingLines(f, expanded), expanded,
              " " + PadRight(SeverityName(f.severity), 8) + " " + f.id + "  " + f.title, FindingDetails(f))
  {
    HeadedRow(expanded, " " + PadRight(SeverityName(f.severity), 8) + " " + f.id + "  " + f.title, FindingDetails(f));
  }

  lemma ObservationRow(o: Observation, expanded: bool)
    ensures RowShows(ObservationLines(o, expanded), expanded, " EVIDENCE " + o.id + "  " + o.title, ObservationDetails(o))
  {
    HeadedRow(expanded, " EVIDENCE " + o.id + "  " + o.title, ObservationDetails(o));
  }

  /** An expanded error shows its message below its heading, a collapsed one in it. */
  lemma ErrorRow(e: ScanError, expanded: bool)
    ensures RowShows(ErrorLines(e, expanded), expanded,
              " ERROR    " + Output.Safe(e.probe) + if expanded then "" else "  " + Output.Safe(e.message),
              DetailLines(Lines(e.message)))
  {
    HeadedRow(expanded, " ERROR    " + Output.Safe(e.probe) + if expanded then "" else "  " + Output.Safe(e.message),
      DetailLines(Lines(e.message)));
  }

  // ---------- what the details say ----------

  function Count(shown: bool): nat {
    if shown then 1 else 0
  }

  /** `text` is line `k` of the details if it is shown at all. */
  predicate HasDetail(details: seq<string>, k: nat, shown: bool, text: string) {
    shown ==> k < |details| && details[k] == text
  }

  /** Lines that stand in the details from line `k` on. */
  predicate HasDetails(details: seq<string>, k: nat, lines: seq<string>) {
    k + |lines| <= |details| && forall i :: 0 <= i < |lines| ==> details[k + i] == lines[i]
  }

  lemma FindingPlaces(c1: bool, t1: string, c2: bool, t2: string, lines: seq<string>, last: string)
    ensures var d := Optional(c1, t1) + Optional(c2, t2) + lines + [last];
      var n := Count(c1) + Count(c2);
      && |d| == n + |lines| + 1
      && HasDetail(d, 0, c1, t1) && HasDetail(d, Count(c1), c2, t2) && d[n..n + |lines|] == lines && d[n + |lines|] == last
  {
  }

  lemma ObservationPlaces(
    c1: bool, t1: string, c2: bool, t2: string, c3: bool, t3: string, limits: seq<string>, c4: bool, t4: string,
    lines: seq<string>)
    ensures var d := Optional(c1, t1) + Optional(c2, t2) + Optional(c3, t3) + limits + Optional(c4, t4) + lines;
      var n := Count(c1) + Count(c2) + Count(c3); var m := n + |limits| + Count(c4);
      && |d| == m + |lines|
      && HasDetail(d, 0, c1, t1) && HasDetail(d, Count(c1), c2, t2) && HasDetail(d, Count(c1) + Count(c2), c3, t3)
      && HasDetails(d, n, limits) && HasDetail(d, n + |limits|, c4, t4) && HasDetails(d, m, lines)
  {
  }

  /** What the details of a finding say, line by line. */
  lemma FindingShows(f: Finding)
    ensures var d := FindingDetails(f); var lines := Lines(f.evidence.output);
      var a := Count(f.command != ""); var n := a + Count(f.evidence.truncated);
      && |d| == n + |lines| + 1
      && HasDetail(d, 0, f.command != "", DETAIL + ("command: " + Output.Safe(f.command)))
      && HasDetail(d, a, f.evidence.truncated, DETAIL + ("evidence truncated: " + Decimal(f.evidence.omittedBytes)
           + " byte(s) omitted (" + Decimal(f.evidence.limitBytes) + "-byte limit)"))
      && d[n..n + |lines|] == DetailLines(lines)
      && d[n + |lines|] == DETAIL + ("fix: " + Output.Safe(f.remediation))
  {
    FindingPlaces(
      f.command != "", DETAIL + ("command: " + Output.Safe(f.command)),
      f.evidence.truncated, DETAIL + ("evidence truncated: " + Decimal(f.evidence.omittedBytes)
        + " byte(s) omitted (" + Decimal(f.evidence.limitBytes) + "-byte limit)"),
      DetailLines(Lines(f.evidence.output)), DETAIL + ("fix: " + Output.Safe(f.remediation)));
  }

  /** What the details of an observation say, line by line. */
  lemma ObservationShows(o: Observation)
    ensures var d := ObservationDetails(o); var lines := Lines(o.output);
      var a := Count(o.command != ""); var b := a + Count(o.partial.Some?); var n := b + Count(o.truncated);
      var m := n + |o.collectionLimits| + Count(o.budgetExceeded);
      && |d| == m + |lines|
      && HasDetail(d, 0, o.command != "", DETAIL + ("command: " + Output.Safe(o.command)))
      && HasDetail(d, a, o.partial.Some?, DETAIL + ("partial: " + Output.Safe(if o.partial.Some? then o.partial.value else "")))
      && HasDetail(d, b, o.truncated, DETAIL + "truncated: true")
      && HasDetails(d, n, LimitLines(o.collectionLimits))
      && HasDetail(d, n + |o.collectionLimits|, o.budgetExceeded, DETAIL + "evidence budget exceeded: true")
      && HasDetails(d, m, DetailLines(lines))
  {
    ObservationPlaces(
      o.command != "", DETAIL + ("command: " + Output.Safe(o.command)),
      o.partial.Some?, DETAIL + ("partial: " + Output.Safe(if o.partial.Some? then o.partial.value else "")),
      o.truncated, DETAIL + "truncated: true", LimitLines(o.collectionLimits),
      o.budgetExceeded, DETAIL + "evidence budget exceeded: true", DetailLines(Lines(o.output)));
  }
}
