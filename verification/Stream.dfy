/**
 The streaming scheduler: workers claim targets, send their reports through a bounded
 channel, and stop claiming after the first error of the consumer.
 */
module Stream {
  import opened Basics
  import opened Model
  import opened Bags
  import opened Jobs
  import Summary

  // ---------- the state ----------

  /** A worker at the head of its loop, past the stop check, scanning, sending, or gone. */
  datatype Worker =
    | Top
    | Passed
    | Scanning(index: nat)
    | Sending(index: nat)
    | Exited

  datatype Receiver = Waiting | Delivering(entry: Entry) | Finished

  /** `included` are the reports in the summary; `calls` counts the calls of the consumer. */
  datatype State = State(
    next: nat,
    workers: seq<Worker>,
    channel: seq<Entry>,
    receiver: Receiver,
    stopped: bool,
    included: seq<Entry>,
    calls: nat,
    firstError: Option<Summary.WriteError>)

  function Capacity(job: Job): nat {
    Max(job.WorkerCount(), 1)
  }

  function Init(job: Job): State {
    State(0, seq(job.WorkerCount(), i => Top), [], Waiting, false, [], 0, None)
  }

  // ---------- steps ----------

  predicate At(s: State, w: int, before: Worker) {
    0 <= w < |s.workers| && s.workers[w] == before
  }

  function Move(s: State, w: int, after: Worker): State
    requires 0 <= w < |s.workers|
  {
    s.(workers := s.workers[w := after])
  }

  predicate ChecksStop(s: State, s': State, w: int) {
    At(s, w, Top) && s' == Move(s, w, if s.stopped then Exited else Passed)
  }

  predicate Claims(job: Job, s: State, s': State, w: int) {
    && At(s, w, Passed)
    && s' == Move(s, w, if s.next < job.Size() then Scanning(s.next) else Exited).(next := s.next + 1)
  }

  predicate Scans(s: State, s': State, w: int) {
    && 0 <= w < |s.workers| && s.workers[w].Scanning?
    && s' == Move(s, w, Sending(s.workers[w].index))
  }

  /** Sending blocks while the channel is full. */
  predicate Sends(job: Job, s: State, s': State, w: int) {
    && 0 <= w < |s.workers| && s.workers[w].Sending? && s.workers[w].index < job.Size()
    && |s.channel| < Capacity(job)
    && s' == Move(s, w, Top).(channel := s.channel + [EntryAt(job, s.workers[w].index)])
  }

  predicate Receives(s: State, s': State) {
    && s.receiver.Waiting? && s.channel != []
    && s' == s.(channel := s.channel[1..], receiver := Delivering(s.channel[0]))
  }

  /** Include the report; unless an earlier call failed, call the consumer, which gives `error`. */
  predicate Delivers(s: State, s': State, error: Option<Summary.WriteError>) {
    && s.receiver.Delivering?
    && var t := s.(included := s.included + [s.receiver.entry], receiver := Waiting);
       s' == if s.firstError.Some? then t
             else t.(calls := s.calls + 1, stopped := s.stopped || error.Some?, firstError := error)
  }

  predicate AllExited(s: State) {
    forall w :: 0 <= w < |s.workers| ==> s.workers[w].Exited?
  }

  /** The channel reports its end once it is empty and every sender is gone. */
  predicate Closes(s: State, s': State) {
    s.receiver.Waiting? && s.channel == [] && AllExited(s) && s' == s.(receiver := Finished)
  }

  predicate WorkerSteps(job: Job, s: State, s': State, w: int) {
    ChecksStop(s, s', w) || Claims(job, s, s', w) || Scans(s, s', w) || Sends(job, s, s', w)
  }

  ghost predicate ReceiverSteps(s: State, s': State) {
    Receives(s, s') || (exists error :: Delivers(s, s', error)) || Closes(s, s')
  }

  ghost predicate Next(job: Job, s: State, s': State) {
    (exists w :: WorkerSteps(job, s, s', w)) || ReceiverSteps(s, s')
  }

  /** Any interleaving of workers and receiver, with any answers of the consumer. */
  ghost predicate Run(job: Job, trace: seq<State>) {
    && trace != []
    && trace[0] == Init(job)
    && forall i :: 0 <= i < |trace| - 1 ==> Next(job, trace[i], trace[i + 1])
  }

  function Claimed(job: Job, s: State): nat {
    Min(s.next, job.Size())
  }

  // ---------- the invariant ----------

  ghost function Held(job: Job): Worker -> multiset<Entry> {
    (w: Worker) =>
      if (w.Scanning? || w.Sending?) && w.index < job.Size() then multiset{EntryAt(job, w.index)} else multiset{}
  }

  ghost function InHand(r: Receiver): multiset<Entry> {
    if r.Delivering? then multiset{r.entry} else multiset{}
  }

  /** Where the claimed entries are: with a worker, in the channel, in the receiver's hand, or included. */
  ghost function Everywhere(job: Job, s: State): multiset<Entry> {
    Total(Held(job), s.workers) + multiset(s.channel) + InHand(s.receiver) + multiset(s.included)
  }

  predicate Sound(job: Job, s: State, w: Worker) {
    && (w.Scanning? || w.Sending? ==> w.index < job.Size())
    && (w.Exited? ==> s.stopped || s.next >= job.Size())
  }

  function Received(s: State): nat {
    |s.included| + if s.receiver.Delivering? then 1 else 0
  }

  /** Past the stop check without a target yet. */
  function HasPassed(w: Worker): nat {
    if w.Passed? then 1 else 0
  }

  function Holds(w: Worker): nat {
    if w.Scanning? || w.Sending? then 1 else 0
  }

  /** Conservation of the claimed entries. */
  ghost predicate Conserved(job: Job, s: State) {
    && |s.workers| == job.WorkerCount()
    && Everywhere(job, s) == Prefix(job, Claimed(job, s))
    && AllSound(job, s)
  }

  predicate AllSound(job: Job, s: State) {
    forall w :: 0 <= w < |s.workers| ==> Sound(job, s, s.workers[w])
  }

  /** The bookkeeping of the receiver. */
  predicate Accounted(job: Job, s: State) {
    && |s.channel| <= Capacity(job)
    && (s.stopped <==> s.firstError.Some?)
    && (s.firstError == None ==> s.calls == |s.included|)
    && (s.firstError.Some? ==> 1 <= s.calls <= |s.included|)
    && (s.receiver.Finished? ==> s.channel == [] && AllExited(s))
  }

  /** After a consumer error few more targets can be claimed. */
  predicate Draining(job: Job, s: State) {
    s.firstError.Some? ==> Claimed(job, s) + Sum(HasPassed, s.workers) <= s.calls + 2 * job.WorkerCount()
  }

  ghost predicate Valid(job: Job, s: State) {
    Conserved(job, s) && Accounted(job, s) && Draining(job, s)
  }

  lemma InitValid(job: Job)
    ensures Valid(job, Init(job))
  {
    TotalEmpty(Held(job), Init(job).workers);
    assert Sequential(job)[..0] == [];
  }

  // ---------- conservation, step by step ----------

  lemma Exchange<E>(a: multiset<E>, b: multiset<E>, c: multiset<E>, d: multiset<E>, extra: multiset<E>)
    ensures a + extra + b + c + d == a + b + c + d + extra
    ensures a + (b + extra) + c + d == a + extra + b + c + d
    ensures a + b + (c + extra) + d == a + (b + extra) + c + d
    ensures a + b + c + (d + extra) == a + b + (c + extra) + d
  {
  }

  /** A worker that takes up `extra` adds it to the whole. */
  lemma MoveAdds(job: Job, s: State, w: nat, after: Worker, extra: multiset<Entry>)
    requires w < |s.workers| && Held(job)(after) == Held(job)(s.workers[w]) + extra
    ensures Everywhere(job, Move(s, w, after)) == Everywhere(job, s) + extra
  {
    TotalGrows(Held(job), s.workers, w, after, extra);
    Exchange(Total(Held(job), s.workers), multiset(s.channel), InHand(s.receiver), multiset(s.included), extra);
  }

  lemma ClaimTakes(job: Job, s: State, s': State, w: int)
    requires Claims(job, s, s', w) && s.next < job.Size()
    ensures Everywhere(job, s') == Everywhere(job, s) + multiset{EntryAt(job, s.next)}
  {
    MoveAdds(job, s, w, Scanning(s.next), multiset{EntryAt(job, s.next)});
  }

  lemma ClaimLeaves(job: Job, s: State, s': State, w: int)
    requires Claims(job, s, s', w) && s.next >= job.Size()
    ensures Everywhere(job, s') == Everywhere(job, s)
  {
    MoveAdds(job, s, w, Exited, multiset{});
  }

  lemma ClaimMoves(job: Job, s: State, s': State, w: int)
    requires Claims(job, s, s', w) && Everywhere(job, s) == Prefix(job, Claimed(job, s))
    ensures Everywhere(job, s') == Prefix(job, Claimed(job, s'))
  {
    if s.next < job.Size() {
      ClaimTakes(job, s, s', w);
      PrefixStep(job, s.next);
    } else {
      ClaimLeaves(job, s, s', w);
    }
  }

  /** Sending moves an entry from the worker to the channel. */
  lemma SendMoves(job: Job, s: State, s': State, w: int)
    requires Sends(job, s, s', w)
    ensures Everywhere(job, s') == Everywhere(job, s)
  {
    var e := multiset{EntryAt(job, s.workers[w].index)};
    var rest := Total(Held(job), s'.workers);
    assert s.workers == s'.workers[w := s.workers[w]];
    TotalGrows(Held(job), s'.workers, w, s.workers[w], e);
    Exchange(rest, multiset(s.channel), InHand(s.receiver), multiset(s.included), e);
  }

  lemma WorkerMoves(job: Job, s: State, s': State, w: int)
    requires WorkerSteps(job, s, s', w) && Everywhere(job, s) == Prefix(job, Claimed(job, s))
    ensures Everywhere(job, s') == Prefix(job, Claimed(job, s'))
  {
    if Claims(job, s, s', w) {
      ClaimMoves(job, s, s', w);
    } else if Sends(job, s, s', w) {
      SendMoves(job, s, s', w);
    } else {
      MoveAdds(job, s, w, s'.workers[w], multiset{});
    }
  }

  lemma ReceiveMoves(job: Job, s: State, s': State)
    requires Receives(s, s')
    ensures Everywhere(job, s') == Everywhere(job, s)
  {
    var first, rest := s.channel[0], s.channel[1..];
    assert s.channel == [first] + rest;
    assert multiset(s.channel) == multiset(rest) + multiset{first};
    Exchange(Total(Held(job), s.workers), multiset(rest), multiset{}, multiset(s.included), multiset{first});
  }

  lemma DeliverMoves(job: Job, s: State, s': State, error: Option<Summary.WriteError>)
    requires Delivers(s, s', error)
    ensures Everywhere(job, s') == Everywhere(job, s)
  {
    Exchange(Total(Held(job), s.workers), multiset(s.channel), multiset{}, multiset(s.included), multiset{s.receiver.entry});
  }

  lemma StepConserves(job: Job, s: State, s': State)
    requires Next(job, s, s') && Everywhere(job, s) == Prefix(job, Claimed(job, s))
    ensures Everywhere(job, s') == Prefix(job, Claimed(job, s'))
  {
    if w :| WorkerSteps(job, s, s', w) {
      WorkerMoves(job, s, s', w);
    } else if Receives(s, s') {
      ReceiveMoves(job, s, s');
    } else if error :| Delivers(s, s', error) {
      DeliverMoves(job, s, s', error);
    }
  }

  lemma StepStaysSound(job: Job, s: State, s': State)
    requires Next(job, s, s') && AllSound(job, s) && (s.firstError.Some? ==> s.stopped)
    ensures AllSound(job, s') && |s'.workers| == |s.workers|
  {
  }

  // ---------- the bound ----------

  /** A worker holds at most one target, or the right to claim one. */
  lemma HoldingIsBounded(workers: seq<Worker>)
    ensures Sum(Holds, workers) + Sum(HasPassed, workers) <= |workers|
  {
    if workers != [] {
      HoldingIsBounded(workers[..|workers| - 1]);
    }
  }

  /** In every reachable state the claimed targets exceed the received reports by at most twice the workers. */
  lemma DispatchIsBounded(job: Job, s: State)
    requires Conserved(job, s) && Accounted(job, s)
    ensures Claimed(job, s) + Sum(HasPassed, s.workers) <= Received(s) + 2 * job.WorkerCount()
  {
    HeldSize(job, s);
    HoldingIsBounded(s.workers);
    assert |Prefix(job, Claimed(job, s))| == Claimed(job, s);
    assert |Everywhere(job, s)| == Sum(Holds, s.workers) + |s.channel| + |InHand(s.receiver)| + |s.included|;
    if job.WorkerCount() == 0 {
      assert job.Size() == 0;
    }
  }

  lemma HeldSize(job: Job, s: State)
    requires Conserved(job, s)
    ensures |Total(Held(job), s.workers)| == Sum(Holds, s.workers)
  {
    TotalSize(Held(job), Holds, s.workers);
  }

  lemma WorkerDrains(job: Job, s: State, s': State, w: int)
    requires Valid(job, s) && WorkerSteps(job, s, s', w)
    ensures Accounted(job, s') && Draining(job, s')
  {
    SumUpdate(HasPassed, s.workers, w, s'.workers[w]);
  }

  lemma ReceiverDrains(job: Job, s: State, s': State)
    requires Valid(job, s) && ReceiverSteps(s, s')
    ensures Accounted(job, s') && Draining(job, s')
  {
    DispatchIsBounded(job, s);
  }

  lemma StepKeepsValid(job: Job, s: State, s': State)
    requires Valid(job, s) && Next(job, s, s')
    ensures Valid(job, s')
  {
    StepConserves(job, s, s');
    StepStaysSound(job, s, s');
    if w :| WorkerSteps(job, s, s', w) {
      WorkerDrains(job, s, s', w);
    } else {
      ReceiverDrains(job, s, s');
    }
  }

  lemma {:induction false} RunsAreValid(job: Job, trace: seq<State>)
    requires Run(job, trace)
    ensures Valid(job, trace[|trace| - 1])
  {
    var n := |trace| - 1;
    if n == 0 {
      InitValid(job);
    } else {
      RunsAreValid(job, trace[..n]);
      assert Next(job, trace[n - 1], trace[n]);
      StepKeepsValid(job, trace[n - 1], trace[n]);
    }
  }

  /** Over-dispatch is bounded in every reachable state. */
  lemma OverDispatchIsBounded(job: Job, trace: seq<State>)
    requires Run(job, trace)
    ensures var s := trace[|trace| - 1];
      && Claimed(job, s) <= Received(s) + 2 * job.WorkerCount()
      && (s.firstError.Some? ==> Claimed(job, s) <= s.calls + 2 * job.WorkerCount())
  {
    RunsAreValid(job, trace);
    DispatchIsBounded(job, trace[|trace| - 1]);
  }

  /** Each claimed index is in exactly one place, and nothing else is anywhere. */
  lemma ClaimedExactlyOnce(job: Job, trace: seq<State>, e: Entry)
    requires Run(job, trace)
    ensures var s := trace[|trace| - 1];
      Everywhere(job, s)[e] == if e.0 < Claimed(job, s) && e == EntryAt(job, e.0) then 1 else 0
  {
    RunsAreValid(job, trace);
    PrefixCounts(job, Claimed(job, trace[|trace| - 1]), e);
  }

  /**
   The consumer sees every report up to the first it fails on, and none after:
   a call that fails is the last one.
   */
  lemma CallsStopAtFirstError(job: Job, trace: seq<State>, i: nat)
    requires Run(job, trace) && i < |trace| - 1
    ensures var s, s' := trace[i], trace[i + 1];
      && (s.firstError.Some? ==> s'.firstError == s.firstError && s'.calls == s.calls && s'.stopped)
      && (s.firstError == None && s'.firstError.Some? ==> s'.calls == |s'.included| == s.calls + 1)
  {
    ValidAt(job, trace, i);
    assert Next(job, trace[i], trace[i + 1]);
    StepCountsCalls(job, trace[i], trace[i + 1]);
  }

  lemma ValidAt(job: Job, trace: seq<State>, i: nat)
    requires Run(job, trace) && i < |trace|
    ensures Valid(job, trace[i])
  {
    var before := trace[..i + 1];
    assert Run(job, before) && before[|before| - 1] == trace[i];
    RunsAreValid(job, before);
  }

  lemma StepCountsCalls(job: Job, s: State, s': State)
    requires Next(job, s, s') && Accounted(job, s)
    ensures s.firstError.Some? ==> s'.firstError == s.firstError && s'.calls == s.calls && s'.stopped
    ensures s.firstError == None && s'.firstError.Some? ==> s'.calls == |s'.included| == s.calls + 1
  {
  }

  /** From the first error on, over the rest of any run, the consumer is never called again. */
  lemma {:induction false} FirstErrorIsFinal(job: Job, trace: seq<State>, i: nat, j: nat)
    requires Run(job, trace) && i <= j < |trace| && trace[i].firstError.Some?
    ensures trace[j].firstError == trace[i].firstError && trace[j].calls == trace[i].calls
    ensures Claimed(job, trace[j]) <= trace[i].calls + 2 * job.WorkerCount()
  {
    if i < j {
      FirstErrorIsFinal(job, trace, i, j - 1);
      assert Next(job, trace[j - 1], trace[j]);
      StepAfterError(job, trace[j - 1], trace[j]);
    }
    BoundAt(job, trace, j);
  }

  lemma StepAfterError(job: Job, s: State, s': State)
    requires Next(job, s, s') && s.firstError.Some?
    ensures s'.firstError == s.firstError && s'.calls == s.calls
  {
  }

  lemma BoundAt(job: Job, trace: seq<State>, j: nat)
    requires Run(job, trace) && j < |trace|
    ensures trace[j].firstError.Some? ==> Claimed(job, trace[j]) <= trace[j].calls + 2 * job.WorkerCount()
  {
    ValidAt(job, trace, j);
  }

  // ---------- progress ----------

  function Weight(w: Worker): nat {
    match w
    case Top => 2
    case Passed => 1
    case Scanning(_) => 6
    case Sending(_) => 5
    case Exited => 0
  }

  function ReceiverWeight(r: Receiver): nat {
    match r
    case Waiting => 1
    case Delivering(_) => 2
    case Finished => 0
  }

  function StepsLeft(job: Job, s: State): nat {
    6 * (job.Size() - Claimed(job, s)) + Sum(Weight, s.workers) + 2 * |s.channel| + ReceiverWeight(s.receiver)
  }

  lemma WorkerAdvances(job: Job, s: State, s': State, w: int)
    requires WorkerSteps(job, s, s', w)
    ensures StepsLeft(job, s') < StepsLeft(job, s)
  {
    SumUpdate(Weight, s.workers, w, s'.workers[w]);
  }

  lemma ReceiverAdvances(job: Job, s: State, s': State)
    requires ReceiverSteps(s, s')
    ensures StepsLeft(job, s') < StepsLeft(job, s)
  {
  }

  lemma StepAdvances(job: Job, s: State, s': State)
    requires Next(job, s, s')
    ensures StepsLeft(job, s') < StepsLeft(job, s)
  {
    if w :| WorkerSteps(job, s, s', w) {
      WorkerAdvances(job, s, s', w);
    } else {
      ReceiverAdvances(job, s, s');
    }
  }

  /** Every run ends, also after a consumer error. */
  lemma {:induction false} RunsAreBounded(job: Job, trace: seq<State>)
    requires Run(job, trace)
    ensures |trace| - 1 + StepsLeft(job, trace[|trace| - 1]) <= 6 * job.Size() + 2 * job.WorkerCount() + 1
  {
    var n := |trace| - 1;
    if n == 0 {
      SumConstant(Weight, trace[0].workers, 2);
    } else {
      RunsAreBounded(job, trace[..n]);
      assert Next(job, trace[n - 1], trace[n]);
      StepAdvances(job, trace[n - 1], trace[n]);
    }
  }

  lemma WorkerCanStep(job: Job, s: State, w: nat) returns (s': State)
    requires w < |s.workers| && !s.workers[w].Exited? && Sound(job, s, s.workers[w]) && s.channel == []
    ensures WorkerSteps(job, s, s', w)
  {
    match s.workers[w]
    case Top => s' := Move(s, w, if s.stopped then Exited else Passed);
    case Passed =>
      s' := Move(s, w, if s.next < job.Size() then Scanning(s.next) else Exited).(next := s.next + 1);
    case Scanning(index) => s' := Move(s, w, Sending(index));
    case Sending(index) => s' := Move(s, w, Top).(channel := s.channel + [EntryAt(job, index)]);
  }

  /** No deadlock: until the receiver has finished, somebody can move, full channel or not. */
  lemma SomeStepPossible(job: Job, trace: seq<State>) returns (s': State)
    requires Run(job, trace) && !trace[|trace| - 1].receiver.Finished?
    ensures Next(job, trace[|trace| - 1], s')
  {
    var s := trace[|trace| - 1];
    RunsAreValid(job, trace);
    if s.receiver.Delivering? {
      s' := s.(included := s.included + [s.receiver.entry], receiver := Waiting);
      s' := if s.firstError.Some? then s' else s'.(calls := s.calls + 1);
      assert Delivers(s, s', None);
    } else if s.channel != [] {
      s' := s.(channel := s.channel[1..], receiver := Delivering(s.channel[0]));
      assert Receives(s, s');
    } else if AllExited(s) {
      s' := s.(receiver := Finished);
      assert Closes(s, s');
    } else {
      var w :| 0 <= w < |s.workers| && !s.workers[w].Exited?;
      s' := WorkerCanStep(job, s, w);
    }
  }

  // ---------- the end ----------

  function Reports(entries: seq<Entry>): seq<ScanReport> {
    Map(ReportOf, entries)
  }

  /** The summary returned at the end. */
  function SummaryOf(job: Job, s: State): Summary.Totals {
    Summary.Tally(Summary.Start(job.Size()), Reports(s.included))
  }

  lemma EndIncludesAll(job: Job, s: State)
    requires Valid(job, s) && s.receiver.Finished?
    ensures multiset(s.included) == Prefix(job, Claimed(job, s))
    ensures s.firstError == None ==> Claimed(job, s) == job.Size()
  {
    TotalEmpty(Held(job), s.workers);
    if s.firstError == None && job.Size() > 0 {
      assert Sound(job, s, s.workers[0]);
    }
  }

  /**
   At the end every claimed target is in the summary, once; without a consumer
   error these are all targets.
   */
  lemma CompletedIsClaimed(job: Job, trace: seq<State>)
    requires Run(job, trace) && trace[|trace| - 1].receiver.Finished?
    ensures var s := trace[|trace| - 1];
      && SummaryOf(job, s).completed == Claimed(job, s)
      && multiset(s.included) == Prefix(job, Claimed(job, s))
      && (s.firstError == None ==> SummaryOf(job, s).completed == SummaryOf(job, s).requested)
  {
    var s := trace[|trace| - 1];
    RunsAreValid(job, trace);
    EndIncludesAll(job, s);
    Summary.TallyDescribes(job.Size(), Reports(s.included));
    assert |s.included| == |multiset(s.included)|;
  }

  /** A stream that dispatched everything ends with the summary of the buffered mode. */
  lemma SummaryIsBuffered(job: Job, trace: seq<State>)
    requires Run(job, trace) && trace[|trace| - 1].receiver.Finished?
    requires Claimed(job, trace[|trace| - 1]) == job.Size()
    ensures multiset(Reports(trace[|trace| - 1].included)) == multiset(Expected(job))
    ensures SummaryOf(job, trace[|trace| - 1]) == Summary.Tally(Summary.Start(job.Size()), Expected(job))
  {
    var s := trace[|trace| - 1];
    RunsAreValid(job, trace);
    EndIncludesAll(job, s);
    assert Sequential(job)[..job.Size()] == Sequential(job);
    MapPermutation(ReportOf, s.included, Sequential(job));
    ExpectedIsSorted(job);
    Summary.TallyOfPermutation(job.Size(), Reports(s.included), Expected(job));
  }

  // ---------- the bound is exact ----------

  lemma Extend(job: Job, trace: seq<State>, s': State)
    requires Run(job, trace) && Next(job, trace[|trace| - 1], s')
    ensures Run(job, trace + [s'])
  {
    var longer := trace + [s'];
    forall i | 0 <= i < |longer| - 1
      ensures Next(job, longer[i], longer[i + 1])
    {
      assert i < |trace| - 1 ==> Next(job, trace[i], trace[i + 1]);
    }
  }

  lemma Advance(job: Job, trace: seq<State>, s': State, w: int) returns (longer: seq<State>)
    requires Run(job, trace) && WorkerSteps(job, trace[|trace| - 1], s', w)
    ensures Run(job, longer) && longer == trace + [s']
  {
    Extend(job, trace, s');
    longer := trace + [s'];
  }

  function Last(trace: seq<State>): State
    requires trace != []
  {
    trace[|trace| - 1]
  }

  /** Worker `w` passes the stop check and claims one more target. */
  lemma ClaimOne(job: Job, trace: seq<State>, w: nat) returns (longer: seq<State>)
    requires Run(job, trace)
    requires At(Last(trace), w, Top) && !Last(trace).stopped && Last(trace).next < job.Size()
    ensures Run(job, longer)
    ensures var s := Last(trace); Last(longer) == Move(s, w, Scanning(s.next)).(next := s.next + 1)
  {
    var s := Last(trace);
    var passed := Move(s, w, Passed);
    longer := Advance(job, trace, passed, w);
    var claimed := Move(s, w, Scanning(s.next)).(next := s.next + 1);
    assert claimed.workers == passed.workers[w := Scanning(s.next)];
    longer := Advance(job, longer, claimed, w);
  }

  /** Worker `w` claims, scans and sends one more target. */
  lemma SendOne(job: Job, trace: seq<State>, w: nat) returns (longer: seq<State>)
    requires Run(job, trace)
    requires At(Last(trace), w, Top) && !Last(trace).stopped && Last(trace).next < job.Size()
    requires |Last(trace).channel| < Capacity(job)
    ensures Run(job, longer)
    ensures var s := Last(trace);
      Last(longer) == s.(next := s.next + 1, channel := s.channel + [EntryAt(job, s.next)])
  {
    var s := Last(trace);
    longer := ClaimOne(job, trace, w);
    var sending := Move(Last(longer), w, Sending(s.next));
    longer := Advance(job, longer, sending, w);
    var sent := s.(next := s.next + 1, channel := s.channel + [EntryAt(job, s.next)]);
    assert sent.workers == sending.workers[w := Top];
    assert Sends(job, sending, sent, w);
    longer := Advance(job, longer, sent, w);
  }

  lemma ReceiveOne(job: Job, trace: seq<State>) returns (longer: seq<State>)
    requires Run(job, trace) && Last(trace).receiver.Waiting? && Last(trace).channel != []
    ensures Run(job, longer)
    ensures var s := Last(trace);
      Last(longer) == s.(channel := s.channel[1..], receiver := Delivering(s.channel[0]))
  {
    var s := Last(trace);
    var received := s.(channel := s.channel[1..], receiver := Delivering(s.channel[0]));
    assert Receives(s, received);
    Extend(job, trace, received);
    longer := trace + [received];
  }

  lemma DeliverOne(job: Job, trace: seq<State>, error: Option<Summary.WriteError>) returns (longer: seq<State>)
    requires Run(job, trace) && Last(trace).receiver.Delivering? && Last(trace).firstError == None && !Last(trace).stopped
    ensures Run(job, longer)
    ensures var s := Last(trace);
      Last(longer) == s.(included := s.included + [s.receiver.entry], receiver := Waiting,
                         calls := s.calls + 1, stopped := error.Some?, firstError := error)
  {
    var s := Last(trace);
    var delivered := s.(included := s.included + [s.receiver.entry], receiver := Waiting,
                        calls := s.calls + 1, stopped := error.Some?, firstError := error);
    assert Delivers(s, delivered, error);
    Extend(job, trace, delivered);
    longer := trace + [delivered];
  }

  predicate AllTop(job: Job, s: State, from: nat) {
    |s.workers| == job.WorkerCount() && forall w :: from <= w < |s.workers| ==> s.workers[w] == Top
  }

  /** The first `n` reports have been delivered without an error, and nothing else has begun. */
  predicate Delivered(job: Job, s: State, n: nat) {
    && s.next == n && s.calls == n && s.firstError == None && !s.stopped
    && s.channel == [] && s.receiver.Waiting? && AllTop(job, s, 0)
  }

  lemma {:induction false} DeliverMany(job: Job, n: nat) returns (trace: seq<State>)
    requires n <= job.Size()
    ensures Run(job, trace) && Delivered(job, Last(trace), n)
  {
    if n == 0 {
      trace := [Init(job)];
    } else {
      trace := DeliverMany(job, n - 1);
      trace := SendOne(job, trace, 0);
      trace := ReceiveOne(job, trace);
      trace := DeliverOne(job, trace, None);
    }
  }

  /** Worker 0 sends `n` more reports, which stay in the channel. */
  lemma {:induction false} SendMany(job: Job, trace: seq<State>, n: nat) returns (longer: seq<State>)
    requires Run(job, trace) && AllTop(job, Last(trace), 0) && !Last(trace).stopped
    requires Last(trace).next + n <= job.Size() && |Last(trace).channel| + n <= job.WorkerCount()
    ensures Run(job, longer)
    ensures var s, t := Last(trace), Last(longer); t == s.(next := s.next + n, channel := t.channel)
    decreases n
  {
    longer := trace;
    if n > 0 {
      longer := SendOne(job, trace, 0);
      longer := SendMany(job, longer, n - 1);
    }
  }

  /** The workers from `from` on claim `n` more targets, one each. */
  lemma {:induction false} ClaimMany(job: Job, trace: seq<State>, from: nat, n: nat) returns (longer: seq<State>)
    requires Run(job, trace) && AllTop(job, Last(trace), from) && !Last(trace).stopped
    requires Last(trace).next + n <= job.Size() && from + n <= job.WorkerCount()
    ensures Run(job, longer)
    ensures var s, t := Last(trace), Last(longer); t == s.(next := s.next + n, workers := t.workers)
    decreases n
  {
    longer := trace;
    if n > 0 {
      longer := ClaimOne(job, trace, from);
      longer := ClaimMany(job, longer, from + 1, n - 1);
    }
  }

  function MostClaimed(job: Job, k: nat): nat {
    Min(job.Size(), k + 2 * job.WorkerCount())
  }

  /** A run whose consumer fails on report `k` when as many targets are claimed as ever can be. */
  lemma WorstRun(job: Job, k: nat) returns (trace: seq<State>)
    requires 1 <= k <= job.Size()
    ensures Run(job, trace)
    ensures Last(trace).firstError.Some? && Last(trace).calls == k && Claimed(job, Last(trace)) == MostClaimed(job, k)
  {
    trace := DeliverMany(job, k - 1);
    trace := SendOne(job, trace, 0);
    trace := ReceiveOne(job, trace);
    var queued := Min(job.WorkerCount(), job.Size() - k);
    trace := SendMany(job, trace, queued);
    trace := ClaimMany(job, trace, 0, Min(job.WorkerCount(), job.Size() - k - queued));
    trace := DeliverOne(job, trace, Some(Summary.BrokenPipe));
  }

  lemma {:induction false} ClaimedGrows(job: Job, trace: seq<State>, i: nat, j: nat)
    requires Run(job, trace) && i <= j < |trace|
    ensures Claimed(job, trace[i]) <= Claimed(job, trace[j])
  {
    if i < j {
      ClaimedGrows(job, trace, i, j - 1);
      StepClaims(job, trace[j - 1], trace[j]);
    }
  }

  lemma StepClaims(job: Job, s: State, s': State)
    requires Next(job, s, s')
    ensures Claimed(job, s) <= Claimed(job, s')
  {
  }

  /** Every run can be brought to its end. */
  lemma {:induction false} RunToEnd(job: Job, trace: seq<State>) returns (longer: seq<State>)
    requires Run(job, trace)
    ensures Run(job, longer) && trace <= longer
    ensures Last(longer).receiver.Finished?
    decreases StepsLeft(job, Last(trace))
  {
    longer := trace;
    if !Last(trace).receiver.Finished? {
      var next := SomeStepPossible(job, trace);
      StepAdvances(job, Last(trace), next);
      Extend(job, trace, next);
      longer := RunToEnd(job, trace + [next]);
    }
  }

  /** A finished run whose consumer failed on call `k` and whose summary counts at least `c` targets. */
  ghost predicate FinishesWith(job: Job, trace: seq<State>, k: nat, c: nat) {
    && Run(job, trace) && Last(trace).receiver.Finished?
    && Last(trace).firstError.Some? && Last(trace).calls == k
    && SummaryOf(job, Last(trace)).completed >= c
  }

  /**
   Over-dispatch is known exactly: for every job there is a run that fails on call
   `k` and completes `c` targets if and only if there is a report `k`, and `c` is at
   most `k` plus twice the workers, and no more than there are.
   */
  lemma OverDispatchIsExact(job: Job, k: nat, c: nat)
    ensures (exists trace :: FinishesWith(job, trace, k, c)) <==> 1 <= k <= job.Size() && c <= MostClaimed(job, k)
  {
    if trace :| FinishesWith(job, trace, k, c) {
      EndIsBounded(job, trace, k, c);
    }
    if 1 <= k <= job.Size() && c <= MostClaimed(job, k) {
      var trace := WorstEnd(job, k, c);
    }
  }

  lemma EndIsBounded(job: Job, trace: seq<State>, k: nat, c: nat)
    requires FinishesWith(job, trace, k, c)
    ensures 1 <= k <= job.Size() && c <= MostClaimed(job, k)
  {
    CompletedIsClaimed(job, trace);
    OverDispatchIsBounded(job, trace);
    RunsAreValid(job, trace);
    assert |Last(trace).included| == |multiset(Last(trace).included)|;
  }

  lemma WorstEnd(job: Job, k: nat, c: nat) returns (trace: seq<State>)
    requires 1 <= k <= job.Size() && c <= MostClaimed(job, k)
    ensures FinishesWith(job, trace, k, c)
  {
    var worst := WorstRun(job, k);
    trace := RunToEnd(job, worst);
    var i := |worst| - 1;
    assert trace[i] == Last(worst);
    FirstErrorIsFinal(job, trace, i, |trace| - 1);
    ClaimedGrows(job, trace, i, |trace| - 1);
    CompletedIsClaimed(job, trace);
  }

  /**
   That at most twice the workers are scanned when the first call fails holds for
   every run of a job if and only if the job has no more targets than that.
   */
  lemma TwiceTheWorkersHoldsIff(job: Job)
    ensures (forall trace :: FinishesWith(job, trace, 1, 0) ==> SummaryOf(job, Last(trace)).completed <= 2 * job.WorkerCount())
      <==> job.Size() <= 2 * job.WorkerCount()
  {
    var c := 2 * job.WorkerCount() + 1;
    OverDispatchIsExact(job, 1, c);
    if trace :| FinishesWith(job, trace, 1, c) {
      assert FinishesWith(job, trace, 1, 0);
    }
    forall trace | FinishesWith(job, trace, 1, 0) && SummaryOf(job, Last(trace)).completed > 2 * job.WorkerCount()
      ensures FinishesWith(job, trace, 1, c)
    {
    }
  }
}
