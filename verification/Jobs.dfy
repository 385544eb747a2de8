/** What a fleet scan is asked to do, and the result that the sequential scan would give. */
module Jobs {
  import opened Basics
  import opened Model
  import opened Bags
  import Engine
  import Sorting

  type Positive = n: nat | n > 0 witness 1

  /** What one call of the scan gives. */
  datatype Outcome = Returned(report: ScanReport) | Panicked

  /** A fleet scan; `outcome` is what the scan of each index gives when it runs. */
  datatype Job = Job(
    targets: seq<string>,
    concurrency: Positive,
    probesRun: nat,
    pack: Option<PackInfo>,
    version: string,
    outcome: nat -> Outcome)
  {
    function Size(): nat {
      |targets|
    }

    function WorkerCount(): nat {
      Min(concurrency, |targets|)
    }
  }

  const WORKER_PANICKED := "scan worker panicked"

  function PanickedReport(job: Job, target: string): ScanReport {
    ScanReport(job.version, job.pack, target, None, job.probesRun, [], [], [ScanError(Engine.COLLECTOR, WORKER_PANICKED)])
  }

  /** The report of one index: a panicking scan is replaced by a collector error. */
  function ReportAt(job: Job, index: nat): ScanReport
    requires index < job.Size()
  {
    match job.outcome(index)
    case Returned(report) => report
    case Panicked => PanickedReport(job, job.targets[index])
  }

  /** A scan that returns is reported as it is, one that panics as a failed collection of its target. */
  lemma EveryScanIsReported(job: Job, index: nat)
    requires index < job.Size()
    ensures var r := ReportAt(job, index);
      && (job.outcome(index).Returned? ==> r == job.outcome(index).report)
      && (job.outcome(index).Panicked? ==>
            && r.target == job.targets[index] && r.scannerVersion == job.version && r.probePack == job.pack
            && r.probesRun == job.probesRun && r.host == None && r.findings == [] && r.observations == []
            && r.errors == [ScanError("collector", "scan worker panicked")])
  {
  }

  type Entry = (nat, ScanReport)

  function EntryAt(job: Job, index: nat): Entry
    requires index < job.Size()
  {
    (index, ReportAt(job, index))
  }

  /** The sequential map of the scan over the targets. */
  function Sequential(job: Job): seq<Entry> {
    seq(job.Size(), i requires 0 <= i < job.Size() => EntryAt(job, i))
  }

  /** The entries of the indices below `k`. */
  ghost function Prefix(job: Job, k: nat): multiset<Entry>
    requires k <= job.Size()
  {
    multiset(Sequential(job)[..k])
  }

  lemma PrefixStep(job: Job, k: nat)
    requires k < job.Size()
    ensures Prefix(job, k + 1) == Prefix(job, k) + multiset{EntryAt(job, k)}
  {
    var all := Sequential(job);
    assert all[..k + 1] == all[..k] + [all[k]];
  }

  /** Each index below `k` has its entry exactly once, and there is nothing else. */
  lemma {:induction false} PrefixCounts(job: Job, k: nat, e: Entry)
    requires k <= job.Size()
    ensures Prefix(job, k)[e] == if e.0 < k && e == EntryAt(job, e.0) then 1 else 0
  {
    if k == 0 {
      assert Sequential(job)[..0] == [];
    } else {
      PrefixCounts(job, k - 1, e);
      PrefixStep(job, k - 1);
    }
  }

  // ---------- the expected result ----------

  /** By target, then by original index. */
  predicate EntryLe(a: Entry, b: Entry) {
    if a.1.target == b.1.target then a.0 <= b.0 else Sorting.StringLe(a.1.target, b.1.target)
  }

  function ReportOf(e: Entry): ScanReport {
    e.1
  }

  /** The sequential map, sorted by target and original index. */
  function Expected(job: Job): seq<ScanReport> {
    Map(ReportOf, Sorting.Sort(EntryLe, Sequential(job)))
  }

  lemma EntryLeRanks()
    ensures Sorting.Ranking(EntryLe)
  {
    Sorting.StringLeIsTotalOrder();
  }

  lemma SequentialIsDecisive(job: Job)
    ensures Sorting.Decisive(EntryLe, Sequential(job))
  {
    Sorting.StringLeIsTotalOrder();
  }

  /** The expected result lists every report once, by target and, within a target, in the original order. */
  lemma ExpectedIsSorted(job: Job)
    ensures multiset(Expected(job)) == multiset(Map(ReportOf, Sequential(job)))
    ensures Sorting.Sorted(ByTarget, Expected(job))
    ensures var entries := Sorting.Sort(EntryLe, Sequential(job));
      && Expected(job) == Map(ReportOf, entries)
      && forall i, j :: 0 <= i < j < |entries| && entries[i].1.target == entries[j].1.target ==> entries[i].0 <= entries[j].0
  {
    EntryLeRanks();
    var all := Sequential(job);
    Sorting.SortSorts(EntryLe, all);
    Sorting.SortKeeps(EntryLe, all);
    MapPermutation(ReportOf, Sorting.Sort(EntryLe, all), all);
    SortedByTarget(Sorting.Sort(EntryLe, all));
  }

  predicate ByTarget(a: ScanReport, b: ScanReport) {
    Sorting.StringLe(a.target, b.target)
  }

  lemma EntryLeByTarget(a: Entry, b: Entry)
    requires EntryLe(a, b)
    ensures ByTarget(ReportOf(a), ReportOf(b))
  {
    Sorting.StringLeTotal(a.1.target, a.1.target);
  }

  lemma SortedByTarget(entries: seq<Entry>)
    requires Sorting.Sorted(EntryLe, entries)
    ensures Sorting.Sorted(ByTarget, Map(ReportOf, entries))
  {
    forall i, j | 0 <= i < j < |entries|
      ensures ByTarget(Map(ReportOf, entries)[i], Map(ReportOf, entries)[j])
    {
      EntryLeByTarget(entries[i], entries[j]);
    }
  }
}
