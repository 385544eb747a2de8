/**
 The buffered scheduler: workers claim targets from a shared counter and keep their
 reports, which are joined and sorted at the end.
 */
module Fleet {
  import opened Basics
  import opened Model
  import opened Bags
  import opened Jobs
  import Sorting

  // ---------- workers ----------

  datatype Worker =
    | Idle(done: seq<Entry>)
    | Busy(index: nat, done: seq<Entry>)
    | Exited(done: seq<Entry>)

  datatype State = State(next: nat, workers: seq<Worker>)

  function Init(job: Job): State {
    State(0, seq(job.WorkerCount(), i => Idle([])))
  }

  /** `fetch_add` on the counter; past the last target the worker leaves its loop. */
  predicate Claims(job: Job, s: State, s': State, w: int) {
    && 0 <= w < |s.workers| && s.workers[w].Idle?
    && var done := s.workers[w].done;
       s' == State(s.next + 1, s.workers[w := if s.next < job.Size() then Busy(s.next, done) else Exited(done)])
  }

  predicate Completes(job: Job, s: State, s': State, w: int) {
    && 0 <= w < |s.workers| && s.workers[w].Busy? && s.workers[w].index < job.Size()
    && var done := s.workers[w].done;
       s' == s.(workers := s.workers[w := Idle(done + [EntryAt(job, s.workers[w].index)])])
  }

  ghost predicate Next(job: Job, s: State, s': State) {
    exists w :: Claims(job, s, s', w) || Completes(job, s, s', w)
  }

  /** Any interleaving of any number of steps from the start. */
  ghost predicate Run(job: Job, trace: seq<State>) {
    && trace != []
    && trace[0] == Init(job)
    && forall i :: 0 <= i < |trace| - 1 ==> Next(job, trace[i], trace[i + 1])
  }

  predicate Done(s: State) {
    forall w :: 0 <= w < |s.workers| ==> s.workers[w].Exited?
  }

  function Claimed(job: Job, s: State): nat {
    Min(s.next, job.Size())
  }

  // ---------- the invariant ----------

  ghost function Held(job: Job): Worker -> multiset<Entry> {
    (w: Worker) => multiset(w.done)
      + if w.Busy? && w.index < job.Size() then multiset{EntryAt(job, w.index)} else multiset{}
  }

  ghost predicate Valid(job: Job, s: State) {
    && |s.workers| == job.WorkerCount()
    && Total(Held(job), s.workers) == Prefix(job, Claimed(job, s))
    && (forall w :: 0 <= w < |s.workers| ==> Sound(job, s.next, s.workers[w]))
  }

  /** A busy worker holds a target, and none leaves before all are claimed. */
  predicate Sound(job: Job, next: nat, w: Worker) {
    (w.Busy? ==> w.index < job.Size()) && (w.Exited? ==> next >= job.Size())
  }

  lemma InitValid(job: Job)
    ensures Valid(job, Init(job))
  {
    TotalEmpty(Held(job), Init(job).workers);
    assert Sequential(job)[..0] == [];
  }

  lemma ClaimKeepsValid(job: Job, s: State, s': State, w: int)
    requires Valid(job, s) && Claims(job, s, s', w)
    ensures Valid(job, s')
  {
    var worker := s.workers[w];
    if s.next < job.Size() {
      ClaimTakes(job, s, w);
    } else {
      TotalGrows(Held(job), s.workers, w, Exited(worker.done), multiset{});
    }
  }

  lemma ClaimTakes(job: Job, s: State, w: nat)
    requires w < |s.workers| && s.workers[w].Idle? && s.next < job.Size()
    requires Total(Held(job), s.workers) == Prefix(job, s.next)
    ensures Total(Held(job), s.workers[w := Busy(s.next, s.workers[w].done)]) == Prefix(job, s.next + 1)
  {
    ClaimAdds(job, s, w);
    PrefixStep(job, s.next);
  }

  lemma ClaimAdds(job: Job, s: State, w: nat)
    requires w < |s.workers| && s.workers[w].Idle? && s.next < job.Size()
    ensures Total(Held(job), s.workers[w := Busy(s.next, s.workers[w].done)])
         == Total(Held(job), s.workers) + multiset{EntryAt(job, s.next)}
  {
    var worker := s.workers[w];
    ClaimHolds(job, worker, s.next);
    TotalGrows(Held(job), s.workers, w, Busy(s.next, worker.done), multiset{EntryAt(job, s.next)});
  }

  lemma CompleteKeepsValid(job: Job, s: State, s': State, w: int)
    requires Valid(job, s) && Completes(job, s, s', w)
    ensures Valid(job, s')
  {
    var worker := s.workers[w];
    CompletionHolds(job, worker);
    TotalGrows(Held(job), s.workers, w, Idle(worker.done + [EntryAt(job, worker.index)]), multiset{});
  }

  lemma ClaimHolds(job: Job, worker: Worker, index: nat)
    requires worker.Idle? && index < job.Size()
    ensures Held(job)(Busy(index, worker.done)) == Held(job)(worker) + multiset{EntryAt(job, index)}
  {
  }

  lemma CompletionHolds(job: Job, worker: Worker)
    requires worker.Busy? && worker.index < job.Size()
    ensures Held(job)(Idle(worker.done + [EntryAt(job, worker.index)])) == Held(job)(worker)
  {
  }

  lemma {:induction false} RunsAreValid(job: Job, trace: seq<State>)
    requires Run(job, trace)
    ensures Valid(job, trace[|trace| - 1])
  {
    var n := |trace| - 1;
    if n == 0 {
      InitValid(job);
    } else {
      var before := trace[..n];
      RunsAreValid(job, before);
      assert Next(job, trace[n - 1], trace[n]);
      var w :| Claims(job, trace[n - 1], trace[n], w) || Completes(job, trace[n - 1], trace[n], w);
      if Claims(job, trace[n - 1], trace[n], w) {
        ClaimKeepsValid(job, trace[n - 1], trace[n], w);
      } else {
        CompleteKeepsValid(job, trace[n - 1], trace[n], w);
      }
    }
  }

  /**
   Exactly-once claiming, in every reachable state: each claimed index is held by
   exactly one worker, in progress or done with its own report, and never twice.
   */
  lemma ClaimedExactlyOnce(job: Job, trace: seq<State>, e: Entry)
    requires Run(job, trace)
    ensures var s := trace[|trace| - 1];
      Total(Held(job), s.workers)[e] == if e.0 < Claimed(job, s) && e == EntryAt(job, e.0) then 1 else 0
  {
    RunsAreValid(job, trace);
    PrefixCounts(job, Claimed(job, trace[|trace| - 1]), e);
  }

  lemma NeverScannedTwice(job: Job, trace: seq<State>, v: nat, w: nat)
    requires Run(job, trace)
    requires var s := trace[|trace| - 1]; v < w < |s.workers| && s.workers[v].Busy? && s.workers[w].Busy?
    ensures var s := trace[|trace| - 1]; s.workers[v].index != s.workers[w].index
  {
    var s := trace[|trace| - 1];
    RunsAreValid(job, trace);
    var e := EntryAt(job, s.workers[v].index);
    PrefixCounts(job, Claimed(job, s), e);
    TwoHold(Held(job), s.workers, v, w, e);
  }

  function InFlight(w: Worker): nat {
    if w.Busy? then 1 else 0
  }

  /** Never more scans at once than the concurrency and the number of targets allow. */
  lemma ConcurrencyIsBounded(job: Job, trace: seq<State>)
    requires Run(job, trace)
    ensures Sum(InFlight, trace[|trace| - 1].workers) <= Min(job.concurrency, job.Size())
  {
    RunsAreValid(job, trace);
    SumAtMost(InFlight, trace[|trace| - 1].workers);
  }

  // ---------- progress ----------

  function Weight(w: Worker): nat {
    match w
    case Idle(_) => 1
    case Busy(_, _) => 2
    case Exited(_) => 0
  }

  function StepsLeft(job: Job, s: State): nat {
    2 * (job.Size() - Claimed(job, s)) + Sum(Weight, s.workers)
  }

  lemma StepCounts(job: Job, s: State, s': State)
    requires Next(job, s, s')
    ensures StepsLeft(job, s') == StepsLeft(job, s) - 1
  {
    var w :| Claims(job, s, s', w) || Completes(job, s, s', w);
    SumUpdate(Weight, s.workers, w, s'.workers[w]);
  }

  /** Every run is finite, and its length is fixed by how far it has come. */
  lemma {:induction false} RunLength(job: Job, trace: seq<State>)
    requires Run(job, trace)
    ensures |trace| - 1 + StepsLeft(job, trace[|trace| - 1]) == 2 * job.Size() + job.WorkerCount()
  {
    var n := |trace| - 1;
    if n == 0 {
      SumConstant(Weight, trace[0].workers, 1);
    } else {
      RunLength(job, trace[..n]);
      assert Next(job, trace[n - 1], trace[n]);
      StepCounts(job, trace[n - 1], trace[n]);
    }
  }

  /** No deadlock: as long as a worker has not left, some step is possible. */
  lemma SomeStepPossible(job: Job, trace: seq<State>) returns (s': State)
    requires Run(job, trace) && !Done(trace[|trace| - 1])
    ensures Next(job, trace[|trace| - 1], s')
  {
    var s := trace[|trace| - 1];
    RunsAreValid(job, trace);
    var w :| 0 <= w < |s.workers| && !s.workers[w].Exited?;
    var done := s.workers[w].done;
    if s.workers[w].Idle? {
      s' := State(s.next + 1, s.workers[w := if s.next < job.Size() then Busy(s.next, done) else Exited(done)]);
      assert Claims(job, s, s', w);
    } else {
      s' := s.(workers := s.workers[w := Idle(done + [EntryAt(job, s.workers[w].index)])]);
      assert Completes(job, s, s', w);
    }
  }

  // ---------- the result ----------

  function Joined(workers: seq<Worker>): seq<Entry> {
    if workers == [] then [] else Joined(workers[..|workers| - 1]) + workers[|workers| - 1].done
  }

  function Results(s: State): seq<ScanReport> {
    Map(ReportOf, Sorting.Sort(EntryLe, Joined(s.workers)))
  }

  lemma {:induction false} JoinedHolds(job: Job, workers: seq<Worker>)
    requires forall w :: 0 <= w < |workers| ==> workers[w].Exited?
    ensures multiset(Joined(workers)) == Total(Held(job), workers)
  {
    if workers != [] {
      JoinedHolds(job, workers[..|workers| - 1]);
    }
  }

  lemma AllClaimed(job: Job, s: State)
    requires Valid(job, s) && Done(s)
    ensures s.next >= job.Size() && multiset(Joined(s.workers)) == multiset(Sequential(job))
  {
    if job.Size() > 0 {
      assert s.workers[0].Exited?;
    }
    assert Sequential(job)[..job.Size()] == Sequential(job);
    JoinedHolds(job, s.workers);
  }

  /**
   Determinism: whenever all workers have left, however they interleaved and
   whichever scans panicked, the result is the sequential map, sorted.
   */
  lemma ResultIsSequential(job: Job, trace: seq<State>)
    requires Run(job, trace) && Done(trace[|trace| - 1])
    ensures Results(trace[|trace| - 1]) == Expected(job)
    ensures |trace| - 1 == 2 * job.Size() + job.WorkerCount()
  {
    var s := trace[|trace| - 1];
    RunsAreValid(job, trace);
    AllClaimed(job, s);
    EntryLeRanks();
    SequentialIsDecisive(job);
    Sorting.SortOfPermutation(EntryLe, Sequential(job), Joined(s.workers));
    RunLength(job, trace);
    SumConstant(Weight, s.workers, 0);
  }
}
