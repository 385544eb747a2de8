/**
 From the host to the verdict: what a PASS says about the transcript that arrived,
 and exactly which hosts and probes lead to one.
 */
module EndToEnd {
  import opened Basics
  import opened Text
  import opened Utf8
  import opened Protocol
  import opened Framing
  import opened Model
  import opened Transcripts
  import opened Script
  import opened Collection
  import opened Engine
  import OsRelease
  import Transport

  // ---------- what a PASS says about the transcript ----------

  /** The lines `i` and `j` are the last frame of `id`, and what they enclose is `wanted`. */
  ghost predicate FramedAs(m: Markers, lines: seq<string>, id: string, i: int, j: int, wanted: Section -> bool) {
    LastFramed(m, lines, i, j, id) && wanted(SectionOf(m, StatusAt(m, lines[j], id), lines[i + 1..j]))
  }

  ghost predicate HasFrameAs(m: Markers, lines: seq<string>, id: string, wanted: Section -> bool) {
    exists i, j :: FramedAs(m, lines, id, i, j, wanted)
  }

  /** Complete evidence: status 0, no unavailable and no partial mark, whole output rejected by the evaluator. */
  function CleanEvidence(p: Probe): Section -> bool {
    (s: Section) => s.status == 0 && s.unavailable == None && s.partial == None
      && (p.kind.Detection? ==> !p.kind.evaluate(s.output))
  }

  function Succeeded(s: Section): bool {
    s.status == 0
  }

  /** A decodable os-release dump. */
  function Decodable(s: Section): bool {
    s.status == 0 && s.unavailable == None && OsRelease.OsName(s.output).Ok?
  }

  lemma LastFrame(m: Markers, lines: seq<string>, id: string, i0: int, j0: int) returns (i: int, j: int)
    requires Framed(m, lines, i0, j0, id)
    ensures LastFramed(m, lines, i, j, id)
    decreases |lines| - j0
  {
    if i', j' :| Framed(m, lines, i', j', id) && j0 < j' {
      i, j := LastFrame(m, lines, id, i', j');
    } else {
      i, j := i0, j0;
    }
  }

  lemma FrameIsSection(m: Markers, lines: seq<string>, id: string, wanted: Section -> bool)
    ensures var sections := SectionsOf(m, lines);
      HasFrameAs(m, lines, id, wanted) <==> id in sections && wanted(sections[id])
  {
    SectionsAreFrames(m, lines, id);
    var sections := SectionsOf(m, lines);
    if id in sections && wanted(sections[id]) {
      var i0, j0 :| Framed(m, lines, i0, j0, id);
      var i, j := LastFrame(m, lines, id, i0, j0);
      assert FramedAs(m, lines, id, i, j, wanted);
    }
    if i, j :| FramedAs(m, lines, id, i, j, wanted) {
      assert LastFramed(m, lines, i, j, id);
    }
  }

  /** Settling changes only what makes os-release unavailable. */
  lemma SettledSection(sections: map<string, Section>, p: Probe)
    ensures CleanSection(Settled(sections), p) && Decodes(sections)
      <==> p.id in sections && CleanEvidence(p)(sections[p.id]) && Decodes(sections)
  {
  }

  predicate Decodes(sections: map<string, Section>) {
    OS_RELEASE_ID in sections && Decodable(sections[OS_RELEASE_ID])
  }

  lemma SettledMetadata(sections: map<string, Section>)
    ensures CleanMetadata(Settled(sections))
      <==> Decodes(sections) && CAPABILITIES_ID in sections && Succeeded(sections[CAPABILITIES_ID])
  {
  }

  /**
   Never a silent pass, on the lines of the transcript: a report shows PASS exactly
   when nothing was cut off, the capability and os-release sections have complete
   frames, and so has every probe, with an output its evaluator rejects.
   */
  lemma PassIsFramed(target: string, probes: seq<Probe>, pack: Option<PackInfo>, version: string, nonce: string, raw: Collected)
    ensures VerdictOf(ReportOf(target, probes, pack, version, nonce, raw)) == Pass <==>
      && raw.Ok? && !raw.value.truncated
      && var m, lines := MarkersFor(nonce), Lines(Lossy(raw.value.bytes));
         && HasFrameAs(m, lines, CAPABILITIES_ID, Succeeded)
         && HasFrameAs(m, lines, OS_RELEASE_ID, Decodable)
         && forall i :: 0 <= i < |probes| ==> HasFrameAs(m, lines, probes[i].id, CleanEvidence(probes[i]))
  {
    NeverASilentPass(target, probes, pack, version, nonce, raw);
    if raw.Ok? {
      var m, lines := MarkersFor(nonce), Lines(Lossy(raw.value.bytes));
      var sections := SectionsOf(m, lines);
      FrameIsSection(m, lines, CAPABILITIES_ID, Succeeded);
      FrameIsSection(m, lines, OS_RELEASE_ID, Decodable);
      SettledMetadata(sections);
      forall i | 0 <= i < |probes|
        ensures Decodes(sections) ==>
          (CleanSection(Settled(sections), probes[i]) <==> HasFrameAs(m, lines, probes[i].id, CleanEvidence(probes[i])))
      {
        FrameIsSection(m, lines, probes[i].id, CleanEvidence(probes[i]));
        SettledSection(sections, probes[i]);
      }
    }
  }

  // ---------- from the host to the verdict ----------

  /** What the transport makes of a session that printed `stream`: its first bytes, or a failure. */
  function CollectedFrom(s: Session, stream: seq<Byte>, failure: string): Collected {
    if s.last != 0 then Err(failure) else Ok(Transport.Cap(stream, Transport.STDOUT_LIMIT))
  }

  /**
   The probe can run, does so successfully, prints no unavailable and no partial
   mark, and its evaluator rejects the evidence among its output.
   */
  ghost predicate FindsNothing(m: Markers, p: Probe, host: Host) {
    var run := RunIn(m, p, host);
    var lines := BodyLines(run.output);
    && (forall t :: t in p.requiredTools ==> t in host.tools)
    && (p.privilege.Unprivileged? || Root(host))
    && run.status == 0
    && Reasons(m, Unavailable, lines) == [] && Reasons(m, Partial, lines) == []
    && (p.kind.Detection? ==> !p.kind.evaluate(Trim(Join(EvidenceLines(m, lines), "\n"))))
  }

  /** For a fragment that does not know the nonce the evidence is its whole trimmed output. */
  lemma FindsNothingWithoutNonce(nonce: string, p: Probe, host: Host)
    requires Clean(nonce) && !Contains(RunIn(MarkersFor(nonce), p, host).output, nonce)
    ensures var run := RunIn(MarkersFor(nonce), p, host);
      FindsNothing(MarkersFor(nonce), p, host) <==>
        && (forall t :: t in p.requiredTools ==> t in host.tools)
        && (p.privilege.Unprivileged? || Root(host))
        && run.status == 0
        && (p.kind.Detection? ==> !p.kind.evaluate(Unixify(Trim(run.output))))
  {
    OwnSectionWithoutNonce(nonce, p, host);
    FirstReason(Reasons(MarkersFor(nonce), Unavailable, BodyLines(RunIn(MarkersFor(nonce), p, host).output)));
  }

  lemma FirstReason(reasons: seq<string>)
    ensures First(reasons) == None <==> reasons == []
  {
  }

  lemma {:induction false} MissingTools(tools: seq<string>, host: Host)
    ensures MissingText(tools, host) == "" <==> forall t :: t in tools ==> t in host.tools
  {
    if tools != [] {
      var init, last := tools[..|tools| - 1], tools[|tools| - 1];
      MissingTools(init, host);
      assert tools == init + [last];
    }
  }

  lemma DirectIsClean(m: Markers, p: Probe, host: Host)
    ensures CleanEvidence(p)(Direct(m, p, host)) <==> FindsNothing(m, p, host)
  {
    MissingTools(p.requiredTools, host);
  }

  lemma WholeStream(stream: seq<Byte>, limit: nat)
    requires |stream| <= limit
    ensures Transport.Cap(stream, limit) == Transport.Capped(stream, false)
  {
    assert stream[..|stream|] == stream;
  }

  /** The verdict over a transcript that meets its specification. */
  lemma PassOverSpec(m: Markers, probes: seq<Probe>, host: Host, t: Transcript)
    requires MeetsSpec(m, probes, host, t)
    ensures CleanMetadata(t.sections) && (forall i :: 0 <= i < |probes| ==> CleanSection(t.sections, probes[i]))
      <==> OsUsable(host) && forall i :: 0 <= i < |probes| ==> FindsNothing(m, probes[i], host)
  {
    forall i | 0 <= i < |probes|
      ensures CleanSection(t.sections, probes[i]) <==> FindsNothing(m, probes[i], host)
    {
      DirectIsClean(m, probes[i], host);
    }
  }

  /** The condition under which a host passes. */
  ghost predicate Passes(m: Markers, probes: seq<Probe>, host: Host, stream: seq<Byte>) {
    && RequiredTools(probes) != []
    && |stream| <= Transport.STDOUT_LIMIT
    && OsUsable(host)
    && forall i :: 0 <= i < |probes| ==> FindsNothing(m, probes[i], host)
  }

  /**
   End to end: the report of a host is PASS exactly when some probe requires a tool
   (without one the script cannot run), the output fits the transport limit, the
   os-release file is usable, and every probe can run, succeeds and finds nothing.
   */
  lemma PassExactlyWhenClean(
    nonce: string, target: string, probes: seq<Probe>, pack: Option<PackInfo>, version: string,
    host: Host, s: Session, stream: seq<Byte>, failure: string)
    requires Clean(nonce) && nonce != "" && ValidProbes(probes) && HonestHost(MarkersFor(nonce), probes, host)
    requires s == SessionOf(ScriptOf(MarkersFor(nonce), probes), host) && Lossy(stream) == s.out
    ensures VerdictOf(ReportOf(target, probes, pack, version, nonce, CollectedFrom(s, stream, failure))) == Pass
      <==> Passes(MarkersFor(nonce), probes, host, stream)
  {
    if RequiredTools(probes) == [] {
      NoToolsNoSession(nonce, probes, host);
      FailedSession(target, probes, pack, version, nonce, s, stream, failure);
    } else {
      CollectionMeetsSpec(nonce, probes, host);
      PassOfSession(nonce, target, probes, pack, version, host, s, stream, failure);
    }
  }

  lemma FailedSession(
    target: string, probes: seq<Probe>, pack: Option<PackInfo>, version: string, nonce: string,
    s: Session, stream: seq<Byte>, failure: string)
    requires s.last != 0
    ensures VerdictOf(ReportOf(target, probes, pack, version, nonce, CollectedFrom(s, stream, failure))) == Incomplete
  {
  }

  lemma PassOfSession(
    nonce: string, target: string, probes: seq<Probe>, pack: Option<PackInfo>, version: string,
    host: Host, s: Session, stream: seq<Byte>, failure: string)
    requires s.last == 0 && Lossy(stream) == s.out && MeetsSpec(MarkersFor(nonce), probes, host, Parsed(s.out, nonce))
    requires RequiredTools(probes) != []
    ensures VerdictOf(ReportOf(target, probes, pack, version, nonce, CollectedFrom(s, stream, failure))) == Pass
      <==> Passes(MarkersFor(nonce), probes, host, stream)
  {
    NeverASilentPass(target, probes, pack, version, nonce, CollectedFrom(s, stream, failure));
    if |stream| <= Transport.STDOUT_LIMIT {
      WholeStream(stream, Transport.STDOUT_LIMIT);
      PassOverSpec(MarkersFor(nonce), probes, host, Parsed(s.out, nonce));
    }
  }

  /** Whatever part of the output is cut off, the report is incomplete and what it shows is right. */
  lemma CutIsSafeAndReported(
    nonce: string, target: string, probes: seq<Probe>, pack: Option<PackInfo>, version: string,
    host: Host, stream: seq<Byte>, failure: string)
    requires Clean(nonce) && nonce != "" && ValidProbes(probes) && HonestHost(MarkersFor(nonce), probes, host)
    requires RequiredTools(probes) != []
    requires Lossy(stream) == SessionOf(ScriptOf(MarkersFor(nonce), probes), host).out
    requires |stream| > Transport.STDOUT_LIMIT
    ensures
      var s := SessionOf(ScriptOf(MarkersFor(nonce), probes), host);
      var raw := CollectedFrom(s, stream, failure);
      var report := ReportOf(target, probes, pack, version, nonce, raw);
      && raw.Ok?
      && VerdictOf(report) == Incomplete
      && (exists i :: 0 <= i < |report.errors| && report.errors[i].probe == COLLECTOR)
      && var cut, full := Parsed(Lossy(raw.value.bytes), nonce), Parsed(s.out, nonce);
         && MeetsSpec(MarkersFor(nonce), probes, host, full)
         && Submap(cut.sections, full.sections)
         && report.host == cut.host && HostWithin(cut.host, full.host)
  {
    var m := MarkersFor(nonce);
    var s := SessionOf(ScriptOf(m, probes), host);
    var raw := CollectedFrom(s, stream, failure);
    SessionPrints(nonce, probes, host);
    PartsFramed(nonce, probes, host);
    TruncationSafe(m, FramesOf(m, Parts(probes), host), stream, Transport.STDOUT_LIMIT);
    CollectionMeetsSpec(nonce, probes, host);
    TruncationIsReported(target, probes, pack, version, nonce, raw);
  }
}
