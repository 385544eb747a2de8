/** What a report says of the observations, of the errors and of the scan itself. */
module Reports {
  import opened Basics
  import opened Text
  import opened Utf8
  import opened Protocol
  import opened Model
  import opened Engine
  import Bags
  import Transport

  // ---------- observations ----------

  /** A probe that only collects, with a section that was collected. */
  predicate Observed(sections: map<string, Section>, p: Probe) {
    p.kind.Evidence? && p.id in sections && sections[p.id].unavailable == None && sections[p.id].status == 0
  }

  /** An observation says what a probe collected: whose it is, its retained output, and every limit it met. */
  ghost predicate Records(o: Observation, p: Probe, s: Section) {
    && o.id == p.id && o.title == p.title && o.category == p.category && o.command == p.script
    && o.partial == s.partial && o.collectionLimits == s.collectionLimits
    && o.output == Retained(s.output, EVIDENCE_LIMIT).output
    && (o.budgetExceeded <==> |Encode(s.output)| > EVIDENCE_LIMIT)
    && (o.truncated <==> |Encode(s.output)| > EVIDENCE_LIMIT || s.collectionLimits != [])
  }

  /** The observed probes, in order. */
  ghost function ObservedOf(sections: map<string, Section>, probes: seq<Probe>): seq<Probe> {
    Bags.Filter((p: Probe) => Observed(sections, p), probes)
  }

  /** One observation for each of the probes, in their order. */
  ghost predicate RecordsAll(sections: map<string, Section>, observed: seq<Probe>, observations: seq<Observation>) {
    && |observations| == |observed|
    && forall k :: 0 <= k < |observed| ==> observed[k].id in sections && Records(observations[k], observed[k], sections[observed[k].id])
  }

  lemma ObservationRecords(sections: map<string, Section>, p: Probe)
    ensures var own := ProbeObservations(sections, p);
      if Observed(sections, p) then |own| == 1 && Records(own[0], p, sections[p.id]) else own == []
  {
    if Observed(sections, p) {
      RetainedConserves(sections[p.id].output, EVIDENCE_LIMIT);
    }
  }

  lemma RecordsOneMore(sections: map<string, Section>, observed: seq<Probe>, last: Probe, observations: seq<Observation>, own: Observation)
    requires RecordsAll(sections, observed, observations)
    requires last.id in sections && Records(own, last, sections[last.id])
    ensures RecordsAll(sections, observed + [last], observations + [own])
  {
    var all, together := observed + [last], observations + [own];
    forall k | 0 <= k < |all|
      ensures all[k].id in sections && Records(together[k], all[k], sections[all[k].id])
    {
      assert k < |observed| ==> all[k] == observed[k] && together[k] == observations[k];
    }
  }

  lemma {:induction false} ObservationsAreRecorded(sections: map<string, Section>, probes: seq<Probe>)
    ensures RecordsAll(sections, ObservedOf(sections, probes), AllObservations(sections, probes))
  {
    if probes != [] {
      var init, last := probes[..|probes| - 1], probes[|probes| - 1];
      var own := ProbeObservations(sections, last);
      ObservationsAreRecorded(sections, init);
      ObservationRecords(sections, last);
      if Observed(sections, last) {
        RecordsOneMore(sections, ObservedOf(sections, init), last, AllObservations(sections, init), own[0]);
        assert own == [own[0]];
      } else {
        assert AllObservations(sections, init) + [] == AllObservations(sections, init);
      }
    }
  }

  /** A report's observations record exactly the collected probes without a verdict, each once and in order. */
  lemma ObservationsAreExact(target: string, probes: seq<Probe>, pack: Option<PackInfo>, version: string, nonce: string, output: Transport.Capped)
    ensures var report := ReportOf(target, probes, pack, version, nonce, Ok(output));
      var sections := Parsed(Lossy(output.bytes), nonce).sections;
      RecordsAll(sections, ObservedOf(sections, probes), report.observations)
  {
    ObservationsAreRecorded(Parsed(Lossy(output.bytes), nonce).sections, probes);
  }

  // ---------- the scan ----------

  /** What else a report says: who made it, of what, with how many probes; and of a failed session nothing but the error. */
  lemma ReportSays(target: string, probes: seq<Probe>, pack: Option<PackInfo>, version: string, nonce: string, raw: Collected)
    ensures var report := ReportOf(target, probes, pack, version, nonce, raw);
      && report.target == target && report.scannerVersion == version && report.probePack == pack
      && report.probesRun == |probes|
      && (raw.Ok? ==> report.host == Parsed(Lossy(raw.value.bytes), nonce).host)
      && (raw.Err? ==>
            && report.host == None && report.findings == [] && report.observations == []
            && report.errors == [ScanError("collector", "collector setup or execution failed: " + raw.error)])
  {
  }

  // ---------- errors ----------

  /** What is wrong with the metadata or the session, in the words of the report. */
  ghost predicate SessionFails(sections: map<string, Section>, truncated: bool, e: ScanError) {
    || (e.probe == "os-release"
        && if OS_RELEASE_ID !in sections then e.message == "collector returned no os-release metadata section"
           else match sections[OS_RELEASE_ID].unavailable
                case Some(reason) => e.message == "metadata unavailable: " + reason
                case None =>
                  && sections[OS_RELEASE_ID].status != 0
                  && e.message == "metadata collection exited with status " + ShowInt(sections[OS_RELEASE_ID].status))
    || (truncated && e.probe == "collector"
        && e.message == "collector stdout exceeded the 524288-byte transport limit; report is incomplete")
    || (e.probe == "capabilities"
        && if CAPABILITIES_ID !in sections then e.message == "collector returned no capability inventory"
           else
             && sections[CAPABILITIES_ID].status != 0
             && e.message == "capability inventory exited with status " + ShowInt(sections[CAPABILITIES_ID].status))
  }

  /** What is wrong with a probe's evidence; a section can be partial and have failed. */
  ghost predicate ProbeFails(sections: map<string, Section>, p: Probe, e: ScanError) {
    && e.probe == p.id
    && if p.id !in sections then
         e.message == "collector returned no evidence section (session truncated or interrupted)"
       else
         var s := sections[p.id];
         match s.unavailable
         case Some(reason) => e.message == "evidence unavailable: " + reason
         case None =>
           || (s.partial.Some? && e.message == "partial evidence: " + s.partial.value)
           || (s.status != 0 && e.message == "probe exited with status " + ShowInt(s.status))
  }

  lemma {:induction false} ErrorsAreRaised(sections: map<string, Section>, probes: seq<Probe>, e: ScanError)
    ensures e in AllErrors(sections, probes) <==> exists p :: p in probes && ProbeFails(sections, p, e)
  {
    if probes != [] {
      var init, last := probes[..|probes| - 1], probes[|probes| - 1];
      ErrorsAreRaised(sections, init, e);
      assert e in ProbeErrors(sections, last) <==> ProbeFails(sections, last, e);
      assert forall p :: p in probes <==> p in init || p == last by {
        assert probes == init + [last];
      }
    }
  }

  /** A report's errors say exactly what was not collected, and nothing else. */
  lemma ErrorsAreExact(target: string, probes: seq<Probe>, pack: Option<PackInfo>, version: string, nonce: string, output: Transport.Capped)
    ensures var report := ReportOf(target, probes, pack, version, nonce, Ok(output));
      var sections := Parsed(Lossy(output.bytes), nonce).sections;
      forall e :: e in report.errors
        <==> SessionFails(sections, output.truncated, e) || exists p :: p in probes && ProbeFails(sections, p, e)
  {
    var sections := Parsed(Lossy(output.bytes), nonce).sections;
    var own := OsReleaseErrors(sections) + TruncationErrors(output.truncated) + CapabilityErrors(sections);
    forall e
      ensures e in own + AllErrors(sections, probes)
        <==> SessionFails(sections, output.truncated, e) || exists p :: p in probes && ProbeFails(sections, p, e)
    {
      ErrorsAreRaised(sections, probes, e);
      SessionErrorsAre(sections, output.truncated, e);
    }
  }

  lemma SessionErrorsAre(sections: map<string, Section>, truncated: bool, e: ScanError)
    ensures e in OsReleaseErrors(sections) + TruncationErrors(truncated) + CapabilityErrors(sections)
      <==> SessionFails(sections, truncated, e)
  {
  }
}
