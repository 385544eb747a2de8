/** The two modes of a fleet scan end alike: same reports, same summary, same exit code. */
module Modes {
  import opened Basics
  import opened Model
  import opened Bags
  import opened Jobs
  import opened Summary
  import Engine
  import Fleet
  import Stream

  function StreamResult(job: Job, s: Stream.State): Result<Totals, (WriteError, Totals)> {
    match s.firstError
    case None => Ok(Stream.SummaryOf(job, s))
    case Some(error) => Err((error, Stream.SummaryOf(job, s)))
  }

  /**
   Over all interleavings of both modes and all panics: once both have ended and the
   stream has dispatched every target, they exit alike for the same write result.
   */
  lemma ExitCodesAgree(
    job: Job, buffered: seq<Fleet.State>, streamed: seq<Stream.State>,
    persist: Option<WriteError>, strict: bool, failOn: Severity)
    requires Fleet.Run(job, buffered) && Fleet.Done(buffered[|buffered| - 1])
    requires Stream.Run(job, streamed) && streamed[|streamed| - 1].receiver.Finished?
    requires Stream.Claimed(job, streamed[|streamed| - 1]) == job.Size()
    ensures var s := streamed[|streamed| - 1];
      var written := if s.firstError.Some? then s.firstError else persist;
      StreamedExit(StreamResult(job, s), persist, strict, failOn)
      == BufferedExit(written, Tally(Start(job.Size()), Fleet.Results(buffered[|buffered| - 1])), strict, failOn)
  {
    Fleet.ResultIsSequential(job, buffered);
    Stream.SummaryIsBuffered(job, streamed);
  }

  /** A stream that left targets out, or a scan that panicked, is a failure in every mode. */
  lemma PartialOrPanickedFails(job: Job, streamed: seq<Stream.State>, persist: Option<WriteError>, strict: bool, failOn: Severity)
    requires Stream.Run(job, streamed) && streamed[|streamed| - 1].receiver.Finished?
    requires Stream.Claimed(job, streamed[|streamed| - 1]) < job.Size()
          || exists i :: 0 <= i < job.Size() && job.outcome(i).Panicked?
    ensures StreamedExit(StreamResult(job, streamed[|streamed| - 1]), persist, strict, failOn) == FAILURE_EXIT
  {
    var s := streamed[|streamed| - 1];
    Stream.CompletedIsClaimed(job, streamed);
    TallyDescribes(job.Size(), Stream.Reports(s.included));
    if Stream.Claimed(job, s) == job.Size() {
      var i :| 0 <= i < job.Size() && job.outcome(i).Panicked?;
      PanicIsIncluded(job, s, i);
    }
  }

  lemma PanicIsIncluded(job: Job, s: Stream.State, i: nat)
    requires i < job.Size() && job.outcome(i).Panicked?
    requires multiset(s.included) == Prefix(job, job.Size())
    ensures exists r :: r in Stream.Reports(s.included) && CollectorFailed(r)
  {
    PrefixCounts(job, job.Size(), EntryAt(job, i));
    assert EntryAt(job, i) in multiset(s.included);
    var k :| 0 <= k < |s.included| && s.included[k] == EntryAt(job, i);
    var r := Stream.Reports(s.included)[k];
    assert r == ReportOf(EntryAt(job, i));
    assert r == PanickedReport(job, job.targets[i]);
    assert r.errors[0].probe == Engine.COLLECTOR;
    assert CollectorFailed(r);
  }
}
