/** Probes, reports and retained evidence. */
module Model {
  import opened Basics
  import opened Text
  import opened Utf8
  import Protocol

  // ---------- severities ----------

  datatype Severity = Info | Low | Medium | High | Critical

  function Rank(s: Severity): nat {
    match s
    case Info => 0
    case Low => 1
    case Medium => 2
    case High => 3
    case Critical => 4
  }

  /** The order of optional severities, none below all others. */
  function OptionalRank(s: Option<Severity>): int {
    match s
    case None => -1
    case Some(severity) => Rank(severity)
  }

  function MaxSeverity(a: Option<Severity>, b: Option<Severity>): Option<Severity> {
    if OptionalRank(a) < OptionalRank(b) then b else a
  }

  // ---------- retained evidence ----------

  datatype RetainedEvidence = RetainedEvidence(output: string, truncated: bool, omittedBytes: nat, limitBytes: nat)

  const TRUNCATION_NOTE := "\n[truncated]"

  /** How many whole code points of the text fit into the limit. */
  function Fit(s: string, limit: nat): (m: nat)
    ensures m <= |s|
  {
    if s == "" || |EncodeChar(s[0])| > limit then 0 else 1 + Fit(s[1..], limit - |EncodeChar(s[0])|)
  }

  function Retained(s: string, limit: nat): RetainedEvidence {
    if |Encode(s)| <= limit then RetainedEvidence(s, false, 0, limit)
    else
      var kept := s[..Fit(s, limit)];
      FitIsLongest(s, limit);
      RetainedEvidence(kept + TRUNCATION_NOTE, true, |Encode(s)| - |Encode(kept)|, limit)
  }

  /** The kept prefix fits, no longer one does, and at most three bytes of the limit stay unused. */
  lemma {:induction false} FitIsLongest(s: string, limit: nat)
    ensures |Encode(s[..Fit(s, limit)])| <= limit
    ensures |Encode(s[..Fit(s, limit)])| <= |Encode(s)|
    ensures forall m :: 0 <= m <= |s| && |Encode(s[..m])| <= limit ==> m <= Fit(s, limit)
    ensures Fit(s, limit) < |s| ==> limit - |Encode(s[..Fit(s, limit)])| <= 3
  {
    if s != "" {
      var e, rest := EncodeChar(s[0]), s[1..];
      if |e| <= limit {
        FitIsLongest(rest, limit - |e|);
        PrefixSize(s, Fit(s, limit));
      }
      forall m | 0 <= m <= |s| && |Encode(s[..m])| <= limit
        ensures m <= Fit(s, limit)
      {
        if m > 0 {
          PrefixSize(s, m);
        }
      }
    }
  }

  lemma PrefixSize(s: string, m: nat)
    requires 0 < m <= |s|
    ensures |Encode(s[..m])| == |EncodeChar(s[0])| + |Encode(s[1..][..m - 1])|
  {
    assert s[..m][1..] == s[1..][..m - 1];
  }

  lemma {:induction false} PrefixSizesGrow(s: string, i: nat, j: nat)
    requires i < j <= |s|
    ensures |Encode(s[..i])| < |Encode(s[..j])|
    decreases |s|
  {
    PrefixSize(s, j);
    if i > 0 {
      PrefixSize(s, i);
      PrefixSizesGrow(s[1..], i - 1, j - 1);
    }
  }

  /**
   Cutting after `m` code points is the best cut for the limit, and the kept part
   and the omitted bytes together are all of the text.
   */
  ghost predicate BestCut(s: string, limit: nat, m: int, r: RetainedEvidence) {
    && 0 <= m < |s|
    && r.output == s[..m] + TRUNCATION_NOTE
    && |Encode(s[..m])| + r.omittedBytes == |Encode(s)|
    && limit - 3 <= |Encode(s[..m])| <= limit < |Encode(s[..m + 1])|
  }

  lemma RetainedConserves(s: string, limit: nat)
    ensures var r := Retained(s, limit);
      && (r.truncated <==> |Encode(s)| > limit)
      && (!r.truncated ==> r.output == s && r.omittedBytes == 0)
      && (r.truncated ==> exists m :: BestCut(s, limit, m, r))
  {
    if |Encode(s)| > limit {
      var m := Fit(s, limit);
      FitIsLongest(s, limit);
      assert s[..|s|] == s;
      assert |Encode(s[..m + 1])| > limit;
      assert BestCut(s, limit, m, Retained(s, limit));
    }
  }

  /** The result of the cut on encoded text, read back as text. */
  ghost predicate RetainsBytes(value: seq<Byte>, limit: nat, output: seq<Byte>, truncated: bool, omittedBytes: nat)
    requires Decode(value).Some?
  {
    var r := Retained(Decode(value).value, limit);
    output == Encode(r.output) && truncated == r.truncated && omittedBytes == r.omittedBytes
  }

  /**
   `truncate_evidence`, on the bytes of the string: step back from the limit to a
   code point boundary, cut there and append the note.
   */
  method TruncateEvidence(value: seq<Byte>, limit: nat)
    returns (output: seq<Byte>, truncated: bool, omittedBytes: nat)
    requires Decode(value).Some?
    ensures RetainsBytes(value, limit, output, truncated, omittedBytes)
  {
    if |value| <= limit {
      EncodeDecode(value);
      return value, false, 0;
    }
    var cut := limit;
    while cut > 0 && !Boundary(value, cut)
      invariant 0 <= cut <= limit
      invariant forall j :: cut < j <= limit ==> !Boundary(value, j)
    {
      cut := cut - 1;
    }
    CutRetains(value, limit, cut);
    return value[..cut] + Encode(TRUNCATION_NOTE), true, |value| - cut;
  }

  lemma CutRetains(value: seq<Byte>, limit: nat, cut: nat)
    requires Decode(value).Some?
    requires cut <= limit < |value| && Boundary(value, cut)
    requires forall j :: cut < j <= limit ==> !Boundary(value, j)
    ensures RetainsBytes(value, limit, value[..cut] + Encode(TRUNCATION_NOTE), true, |value| - cut)
  {
    EncodeDecode(value);
    var s := Decode(value).value;
    var m := CutIsFit(s, limit, cut);
    EncodeConcat(s[..m], TRUNCATION_NOTE);
  }

  lemma CutIsFit(s: string, limit: nat, cut: nat) returns (m: nat)
    requires cut <= limit < |Encode(s)| && Boundary(Encode(s), cut)
    requires forall j :: cut < j <= limit ==> !Boundary(Encode(s), j)
    ensures m == Fit(s, limit) && Encode(s)[..cut] == Encode(s[..m]) && |Encode(s[..m])| == cut
  {
    BoundaryIsPrefix(s, cut);
    m :| 0 <= m <= |s| && |Encode(s[..m])| == cut;
    EncodeConcat(s[..m], s[m..]);
    assert s == s[..m] + s[m..];
    var n := Fit(s, limit);
    FitIsLongest(s, limit);
    if m < n {
      PrefixSizesGrow(s, m, n);
      BoundaryIsPrefix(s, |Encode(s[..n])|);
    }
  }

  // ---------- probes ----------

  datatype Privilege = Unprivileged | RootRecommended | RootRequired

  datatype ProbeKind =
    | Detection(severity: Severity, remediation: string, evaluate: string -> bool)
    | Evidence

  datatype Probe = Probe(
    id: string,
    title: string,
    category: string,
    description: string,
    requiredTools: seq<string>,
    privilege: Privilege,
    script: string,
    kind: ProbeKind)

  // ---------- reports ----------

  datatype Finding = Finding(
    id: string,
    title: string,
    severity: Severity,
    category: string,
    description: string,
    remediation: string,
    command: string,
    evidence: RetainedEvidence)

  datatype Observation = Observation(
    id: string,
    title: string,
    category: string,
    partial: Option<string>,
    truncated: bool,
    collectionLimits: seq<string>,
    budgetExceeded: bool,
    command: string,
    output: string)

  datatype ScanError = ScanError(probe: string, message: string)

  datatype PackInfo = PackInfo(id: string, version: string, signer: string)

  datatype ScanReport = ScanReport(
    scannerVersion: string,
    probePack: Option<PackInfo>,
    target: string,
    host: Option<Protocol.HostInfo>,
    probesRun: nat,
    findings: seq<Finding>,
    observations: seq<Observation>,
    errors: seq<ScanError>)

  lemma SeveritiesAreOrdered()
    ensures Rank(Info) < Rank(Low) < Rank(Medium) < Rank(High) < Rank(Critical)
  {
  }

  function HighestSeverity(findings: seq<Finding>): Option<Severity> {
    if findings == [] then None
    else MaxSeverity(Some(findings[0].severity), HighestSeverity(findings[1..]))
  }

  /** The highest severity is one of the findings' and no finding is above it. */
  lemma {:induction false} HighestSeveritySpec(findings: seq<Finding>)
    ensures HighestSeverity(findings) == None <==> findings == []
    ensures forall i :: 0 <= i < |findings| ==> Rank(findings[i].severity) <= OptionalRank(HighestSeverity(findings))
    ensures findings != [] ==> exists i :: 0 <= i < |findings| && HighestSeverity(findings) == Some(findings[i].severity)
  {
    if findings != [] {
      HighestSeveritySpec(findings[1..]);
      forall i | 0 <= i < |findings|
        ensures Rank(findings[i].severity) <= OptionalRank(HighestSeverity(findings))
      {
        assert i > 0 ==> findings[1..][i - 1] == findings[i];
      }
      if HighestSeverity(findings) == Some(findings[0].severity) {
        assert 0 <= 0 < |findings|;
      } else {
        var i :| 0 <= i < |findings[1..]| && HighestSeverity(findings[1..]) == Some(findings[1..][i].severity);
        assert findings[i + 1] == findings[1..][i];
      }
    }
  }

  /** `Probe::finding`: a detection reports what its evaluator accepts. */
  function FindingOf(p: Probe, output: string, evidence: RetainedEvidence): Option<Finding> {
    if p.kind.Detection? && p.kind.evaluate(output)
    then Some(Finding(p.id, p.title, p.kind.severity, p.category, p.description, p.kind.remediation, p.script, evidence))
    else None
  }

  /** `Probe::observation`: an evidence probe retains its output without a verdict. */
  function ObservationOf(p: Probe, evidence: RetainedEvidence, partial: Option<string>, limits: seq<string>): Option<Observation> {
    if p.kind.Evidence?
    then Some(Observation(
      p.id, p.title, p.category, partial, evidence.truncated || limits != [], limits,
      evidence.truncated, p.script, evidence.output))
    else None
  }
}
