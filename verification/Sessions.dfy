/** Many sessions at once, with PIDs that the system may reuse once a child is reaped. */
module Sessions {
  import opened Registry

  /**
   A session past its spawn. `Unwinding` and `Abandoned` are the ways of a panic:
   the guard kills, then takes the group out, and nobody reaps the child.
   */
  datatype Session =
    | Spawned(pid: Pid)
    | Active(pid: Pid)
    | Terminated(pid: Pid)
    | Detached(pid: Pid)
    | Ended(pid: Pid)
    | Unwinding(pid: Pid)
    | Abandoned(pid: Pid)

  /** `foreign` are the PIDs of processes that no session owns; `watch` is the rest of the watcher's copy. */
  datatype State = State(sessions: seq<Session>, registry: seq<Pid>, foreign: set<Pid>, watch: seq<Pid>)

  /** The child is alive or a zombie: its PID cannot be given to another process. */
  predicate Unreaped(s: Session) {
    !s.Ended?
  }

  /** Between registration and removal. */
  predicate Listed(s: Session) {
    s.Active? || s.Terminated? || s.Unwinding?
  }

  predicate Free(st: State, pid: Pid) {
    pid !in st.foreign && forall i :: 0 <= i < |st.sessions| && Unreaped(st.sessions[i]) ==> st.sessions[i].pid != pid
  }

  function Init(foreign: set<Pid>): State {
    State([], [], foreign, [])
  }

  // ---------- steps ----------

  predicate Spawns(st: State, st': State, pid: Pid) {
    Free(st, pid) && st' == st.(sessions := st.sessions + [Spawned(pid)])
  }

  function With(st: State, i: int, s: Session): State
    requires 0 <= i < |st.sessions|
  {
    st.(sessions := st.sessions[i := s])
  }

  predicate Registers(st: State, st': State, i: int) {
    && 0 <= i < |st.sessions| && st.sessions[i].Spawned?
    && var pid := st.sessions[i].pid;
       st' == With(st, i, Active(pid)).(registry := st.registry + [pid])
  }

  /** The group kill of a session: in order, or while unwinding. */
  predicate Kills(st: State, st': State, i: int) {
    && 0 <= i < |st.sessions| && st.sessions[i].Active?
    && var pid := st.sessions[i].pid;
       st' == With(st, i, Terminated(pid)) || st' == With(st, i, Unwinding(pid))
  }

  predicate Unregisters(st: State, st': State, i: int) {
    && 0 <= i < |st.sessions| && (st.sessions[i].Terminated? || st.sessions[i].Unwinding?)
    && var pid := st.sessions[i].pid;
       st' == With(st, i, if st.sessions[i].Terminated? then Detached(pid) else Abandoned(pid))
              .(registry := Without(st.registry, pid))
  }

  predicate Reaps(st: State, st': State, i: int) {
    && 0 <= i < |st.sessions| && st.sessions[i].Detached?
    && st' == With(st, i, Ended(st.sessions[i].pid))
  }

  /** Another process takes a free PID, or one ends. */
  predicate ForeignStarts(st: State, st': State, pid: Pid) {
    Free(st, pid) && st' == st.(foreign := st.foreign + {pid})
  }

  predicate ForeignEnds(st: State, st': State, pid: Pid) {
    st' == st.(foreign := st.foreign - {pid})
  }

  /** The watcher copies the registry, then kills group by group. */
  predicate Copies(st: State, st': State) {
    st' == st.(watch := st.registry)
  }

  predicate WatcherKills(st: State, st': State) {
    st.watch != [] && st' == st.(watch := st.watch[1..])
  }

  predicate SessionSteps(st: State, st': State, i: int) {
    Registers(st, st', i) || Kills(st, st', i) || Unregisters(st, st', i) || Reaps(st, st', i)
  }

  predicate SystemSteps(st: State, st': State, pid: Pid) {
    Spawns(st, st', pid) || ForeignStarts(st, st', pid) || ForeignEnds(st, st', pid)
  }

  ghost predicate Next(st: State, st': State) {
    || (exists i :: SessionSteps(st, st', i))
    || (exists pid :: SystemSteps(st, st', pid))
    || Copies(st, st')
    || WatcherKills(st, st')
  }

  ghost predicate StepsAt(trace: seq<State>, i: int)
    requires 0 <= i < |trace| - 1
  {
    Next(trace[i], trace[i + 1])
  }

  ghost predicate Run(trace: seq<State>) {
    && trace != []
    && trace[0] == Init(trace[0].foreign)
    && forall i :: 0 <= i < |trace| - 1 ==> StepsAt(trace, i)
  }

  // ---------- the invariant ----------

  /** Unreaped children have PIDs of their own. */
  predicate OwnPids(st: State) {
    && (forall i :: 0 <= i < |st.sessions| && Unreaped(st.sessions[i]) ==> st.sessions[i].pid !in st.foreign)
    && (forall i, j :: 0 <= i < j < |st.sessions| && Unreaped(st.sessions[i]) && Unreaped(st.sessions[j]) ==>
          st.sessions[i].pid != st.sessions[j].pid)
  }

  ghost predicate IsListed(st: State, pid: Pid) {
    exists i :: 0 <= i < |st.sessions| && Listed(st.sessions[i]) && st.sessions[i].pid == pid
  }

  /** The registry is exactly the sessions between registration and removal, each once. */
  ghost predicate ExactRegistry(st: State) {
    Distinct(st.registry) && forall pid :: pid in st.registry <==> IsListed(st, pid)
  }

  ghost predicate Valid(st: State) {
    OwnPids(st) && ExactRegistry(st)
  }

  lemma ChangedSession(st: State, i: int, s: Session, pid: Pid)
    requires 0 <= i < |st.sessions| && s.pid == st.sessions[i].pid && OwnPids(st) && Unreaped(st.sessions[i])
    requires Listed(s) ==> Unreaped(s)
    ensures IsListed(With(st, i, s), pid)
      <==> if pid == s.pid then Listed(s) else IsListed(st, pid)
  {
    var st' := With(st, i, s);
    if pid == s.pid {
      if Listed(s) {
        assert Listed(st'.sessions[i]);
      }
      if j :| 0 <= j < |st'.sessions| && Listed(st'.sessions[j]) && st'.sessions[j].pid == pid {
        assert j != i ==> Unreaped(st.sessions[j]);
      }
    } else {
      if j :| 0 <= j < |st.sessions| && Listed(st.sessions[j]) && st.sessions[j].pid == pid {
        assert j != i && st'.sessions[j] == st.sessions[j];
      }
      if j :| 0 <= j < |st'.sessions| && Listed(st'.sessions[j]) && st'.sessions[j].pid == pid {
        assert j != i && st.sessions[j] == st'.sessions[j];
      }
    }
  }

  lemma SessionKeepsOwn(st: State, st': State, i: int)
    requires OwnPids(st) && SessionSteps(st, st', i)
    ensures OwnPids(st')
  {
  }

  lemma SessionKeepsExact(st: State, st': State, i: int)
    requires Valid(st) && SessionSteps(st, st', i)
    ensures ExactRegistry(st')
  {
    var was, now := st.sessions[i], st'.sessions[i];
    assert st'.sessions == With(st, i, now).sessions;
    forall pid
      ensures IsListed(st', pid) <==> if pid == now.pid then Listed(now) else IsListed(st, pid)
    {
      ChangedSession(st, i, now, pid);
      assert IsListed(st', pid) <==> IsListed(With(st, i, now), pid);
    }
    assert IsListed(st, was.pid) <==> Listed(was) by {
      ChangedSession(st, i, was, was.pid);
      assert st.sessions[i := was] == st.sessions;
    }
    WithoutMembers(st.registry, was.pid);
    WithoutDistinct(st.registry, was.pid);
  }

  lemma SystemKeepsValid(st: State, st': State, pid: Pid)
    requires Valid(st) && SystemSteps(st, st', pid)
    ensures Valid(st')
  {
    forall p
      ensures IsListed(st', p) <==> IsListed(st, p)
    {
      if i :| 0 <= i < |st.sessions| && Listed(st.sessions[i]) && st.sessions[i].pid == p {
        assert st'.sessions[i] == st.sessions[i];
      }
      if i :| 0 <= i < |st'.sessions| && Listed(st'.sessions[i]) && st'.sessions[i].pid == p {
        assert i < |st.sessions| && st.sessions[i] == st'.sessions[i];
      }
    }
  }

  lemma StepKeepsValid(st: State, st': State)
    requires Valid(st) && Next(st, st')
    ensures Valid(st')
  {
    if i :| SessionSteps(st, st', i) {
      SessionKeepsOwn(st, st', i);
      SessionKeepsExact(st, st', i);
    } else if pid :| SystemSteps(st, st', pid) {
      SystemKeepsValid(st, st', pid);
    } else {
      assert forall p :: IsListed(st', p) <==> IsListed(st, p);
    }
  }

  lemma PrefixRuns(trace: seq<State>, k: nat)
    requires Run(trace) && 0 < k <= |trace|
    ensures Run(trace[..k])
  {
    forall i | 0 <= i < k - 1
      ensures StepsAt(trace[..k], i)
    {
      assert StepsAt(trace, i);
    }
  }

  lemma {:induction false} RunsAreValid(trace: seq<State>)
    requires Run(trace)
    ensures Valid(trace[|trace| - 1])
  {
    var n := |trace| - 1;
    if n > 0 {
      PrefixRuns(trace, n);
      RunsAreValid(trace[..n]);
      assert StepsAt(trace, n - 1);
      StepKeepsValid(trace[n - 1], trace[n]);
    }
  }

  lemma ValidAt(trace: seq<State>, k: nat)
    requires Run(trace) && k < |trace|
    ensures Valid(trace[k])
  {
    PrefixRuns(trace, k + 1);
    RunsAreValid(trace[..k + 1]);
  }

  /**
   In every reachable state the registry holds exactly the sessions between
   registration and removal, without duplicates, and each of them is an unreaped
   child whose PID no other process has.
   */
  lemma RegistryIsExact(trace: seq<State>)
    requires Run(trace)
    ensures var st := trace[|trace| - 1];
      && Distinct(st.registry)
      && (forall pid :: pid in st.registry <==> IsListed(st, pid))
      && (forall pid :: pid in st.registry ==> pid !in st.foreign)
  {
    RunsAreValid(trace);
    var st := trace[|trace| - 1];
    forall pid | pid in st.registry
      ensures pid !in st.foreign
    {
      assert IsListed(st, pid);
    }
  }

  /** A PID that belongs to one session's unreaped child and to nothing else. */
  ghost predicate Owns(st: State, i: int, pid: Pid) {
    && 0 <= i < |st.sessions| && st.sessions[i].pid == pid && Unreaped(st.sessions[i])
    && pid !in st.foreign
    && forall j :: 0 <= j < |st.sessions| && j != i && Unreaped(st.sessions[j]) ==> st.sessions[j].pid != pid
  }

  /** Every group kill of a session comes before its reaping and hits its own child. */
  lemma KillsHitOwnChild(trace: seq<State>, k: nat, i: int)
    requires Run(trace) && k < |trace| - 1 && Kills(trace[k], trace[k + 1], i)
    ensures Owns(trace[k], i, trace[k].sessions[i].pid) && trace[k].sessions[i].pid in trace[k].registry
  {
    ValidAt(trace, k);
    assert IsListed(trace[k], trace[k].sessions[i].pid);
  }

  /** A session that has ended is not registered: what is registered under its PID is another session. */
  lemma EndedIsUnlisted(trace: seq<State>, i: nat)
    requires Run(trace) && i < |trace[|trace| - 1].sessions|
    requires var s := trace[|trace| - 1].sessions[i]; s.Ended? || s.Abandoned?
    ensures var st := trace[|trace| - 1]; var pid := st.sessions[i].pid;
      pid in st.registry ==>
        st.sessions[i].Ended? && exists j :: 0 <= j < |st.sessions| && j != i && Listed(st.sessions[j]) && st.sessions[j].pid == pid
  {
    RunsAreValid(trace);
    var st := trace[|trace| - 1];
    if st.sessions[i].pid in st.registry {
      assert IsListed(st, st.sessions[i].pid);
    }
  }

  // ---------- the watcher ----------

  /** A kill of the watcher is safe for a group that is still registered. */
  lemma WatcherIsSafeWhileRegistered(trace: seq<State>)
    requires Run(trace) && trace[|trace| - 1].watch != []
    requires var st := trace[|trace| - 1]; st.watch[0] in st.registry
    ensures var st := trace[|trace| - 1]; exists i :: Owns(st, i, st.watch[0])
  {
    RunsAreValid(trace);
    var st := trace[|trace| - 1];
    assert IsListed(st, st.watch[0]);
    var i :| 0 <= i < |st.sessions| && Listed(st.sessions[i]) && st.sessions[i].pid == st.watch[0];
    assert Owns(st, i, st.watch[0]);
  }

  /** At `j` the watcher still holds `pid`, which it copied at `k` as the entry of session `i`. */
  ghost predicate CopiedFrom(trace: seq<State>, k: int, j: int, i: int, pid: Pid) {
    && 0 <= k < j < |trace| && Copies(trace[k], trace[k + 1])
    && 0 <= i < |trace[k].sessions| && Listed(trace[k].sessions[i]) && trace[k].sessions[i].pid == pid
    && pid in trace[j].watch
  }

  lemma StepKeepsWatch(st: State, st': State, pid: Pid)
    requires Next(st, st') && pid in st'.watch
    ensures pid in st.watch || (Copies(st, st') && pid in st.registry)
  {
  }

  /** Whatever the watcher holds it has copied, in some earlier state, from a registered session. */
  lemma {:induction false} WatchIsCopied(trace: seq<State>, j: nat, pid: Pid) returns (k: int, i: int)
    requires Run(trace) && j < |trace| && pid in trace[j].watch
    ensures CopiedFrom(trace, k, j, i, pid)
  {
    assert j > 0 && StepsAt(trace, j - 1);
    StepKeepsWatch(trace[j - 1], trace[j], pid);
    if pid in trace[j - 1].watch {
      k, i := WatchIsCopied(trace, j - 1, pid);
    } else {
      k := j - 1;
      i := RegisteredSession(trace, k, pid);
    }
  }

  lemma RegisteredSession(trace: seq<State>, k: nat, pid: Pid) returns (i: int)
    requires Run(trace) && k < |trace| && pid in trace[k].registry
    ensures 0 <= i < |trace[k].sessions| && Listed(trace[k].sessions[i]) && trace[k].sessions[i].pid == pid
  {
    ValidAt(trace, k);
    assert IsListed(trace[k], pid);
    i :| 0 <= i < |trace[k].sessions| && Listed(trace[k].sessions[i]) && trace[k].sessions[i].pid == pid;
  }

  /** A session keeps its PID, whatever happens. */
  lemma StepKeepsPid(st: State, st': State, i: nat)
    requires Next(st, st') && i < |st.sessions|
    ensures i < |st'.sessions| && st'.sessions[i].pid == st.sessions[i].pid
  {
  }

  lemma {:induction false} RunKeepsPid(trace: seq<State>, k: nat, j: nat, i: nat)
    requires Run(trace) && k <= j < |trace| && i < |trace[k].sessions|
    ensures i < |trace[j].sessions| && trace[j].sessions[i].pid == trace[k].sessions[i].pid
  {
    if k < j {
      RunKeepsPid(trace, k, j - 1, i);
      assert StepsAt(trace, j - 1);
      StepKeepsPid(trace[j - 1], trace[j], i);
    }
  }

  /** A kill of `pid` reaches a process that is not the child of session `i`. */
  ghost predicate HitsOther(st: State, i: int, pid: Pid) {
    pid in st.foreign || exists j :: 0 <= j < |st.sessions| && j != i && Unreaped(st.sessions[j]) && st.sessions[j].pid == pid
  }

  /** Until it has been reaped, and in every state of a run, the copied PID is the session's own child. */
  lemma CopyHitsUntilReaped(trace: seq<State>, k: int, j: int, i: int, pid: Pid)
    requires Run(trace) && CopiedFrom(trace, k, j, i, pid)
    ensures i < |trace[j].sessions| && trace[j].sessions[i].pid == pid
    ensures !trace[j].sessions[i].Ended? ==> Owns(trace[j], i, pid)
    ensures HitsOther(trace[j], i, pid) ==> trace[j].sessions[i].Ended?
  {
    RunKeepsPid(trace, k, j, i);
    ValidAt(trace, j);
  }

  /** With no further step of a session, a kill from the watcher's copy reaches another process. */
  ghost predicate Misses(trace: seq<State>, longer: seq<State>, i: int, pid: Pid)
    requires trace != []
  {
    && Run(longer)
    && (longer == trace
        || (|longer| == |trace| + 1 && trace <= longer && SystemSteps(trace[|trace| - 1], longer[|trace|], pid)))
    && pid in longer[|longer| - 1].watch
    && HitsOther(longer[|longer| - 1], i, pid)
  }

  /**
   Over every run: the watcher's kill of a PID it copied from session `i` can miss
   that session's child, now or once the system has given the PID away, if and only
   if the session has been reaped since.
   */
  lemma CopyIsStaleExactlyWhenReaped(trace: seq<State>, k: int, i: int, pid: Pid)
    requires Run(trace) && CopiedFrom(trace, k, |trace| - 1, i, pid)
    ensures i < |trace[|trace| - 1].sessions|
    ensures (exists longer :: Misses(trace, longer, i, pid)) <==> trace[|trace| - 1].sessions[i].Ended?
  {
    var st := trace[|trace| - 1];
    CopyHitsUntilReaped(trace, k, |trace| - 1, i, pid);
    if longer :| Misses(trace, longer, i, pid) {
      MissMeansReaped(trace, longer, k, i, pid);
    }
    if st.sessions[i].Ended? {
      var longer := ReapedCanMiss(trace, i, pid);
    }
  }

  lemma SystemLeavesSessions(st: State, st': State, pid: Pid, i: nat)
    requires SystemSteps(st, st', pid) && i < |st.sessions|
    ensures i < |st'.sessions| && st'.sessions[i] == st.sessions[i]
  {
  }

  lemma LongerIsCopied(trace: seq<State>, longer: seq<State>, k: int, i: int, pid: Pid)
    requires Run(trace) && CopiedFrom(trace, k, |trace| - 1, i, pid)
    requires trace <= longer && pid in longer[|longer| - 1].watch
    ensures CopiedFrom(longer, k, |longer| - 1, i, pid)
  {
  }

  lemma MissMeansReaped(trace: seq<State>, longer: seq<State>, k: int, i: int, pid: Pid)
    requires Run(trace) && CopiedFrom(trace, k, |trace| - 1, i, pid) && Misses(trace, longer, i, pid)
    ensures i < |trace[|trace| - 1].sessions| && trace[|trace| - 1].sessions[i].Ended?
  {
    LongerIsCopied(trace, longer, k, i, pid);
    CopyHitsUntilReaped(trace, k, |trace| - 1, i, pid);
    CopyHitsUntilReaped(longer, k, |longer| - 1, i, pid);
    if longer != trace {
      SystemLeavesSessions(trace[|trace| - 1], longer[|trace|], pid, i);
    }
  }

  lemma ReapedCanMiss(trace: seq<State>, i: int, pid: Pid) returns (longer: seq<State>)
    requires Run(trace) && pid in trace[|trace| - 1].watch
    requires var st := trace[|trace| - 1]; 0 <= i < |st.sessions| && st.sessions[i].Ended? && st.sessions[i].pid == pid
    ensures Misses(trace, longer, i, pid)
  {
    var st := trace[|trace| - 1];
    longer := trace;
    if !HitsOther(st, i, pid) {
      var st' := st.(foreign := st.foreign + {pid});
      assert ForeignStarts(st, st', pid);
      assert SystemSteps(st, st', pid);
      Extend(trace, st');
      longer := trace + [st'];
    }
  }

  lemma Extend(trace: seq<State>, st': State)
    requires Run(trace) && Next(trace[|trace| - 1], st')
    ensures Run(trace + [st'])
  {
    var longer := trace + [st'];
    forall i | 0 <= i < |longer| - 1
      ensures StepsAt(longer, i)
    {
      assert i < |trace| - 1 ==> StepsAt(trace, i);
    }
  }

  /** The moments of a run in which the one session ends after the watcher's copy. */
  function Moment(pid: Pid, k: nat): State {
    match k
    case 0 => Init({})
    case 1 => State([Spawned(pid)], [], {}, [])
    case 2 => State([Active(pid)], [pid], {}, [])
    case 3 => State([Active(pid)], [pid], {}, [pid])
    case 4 => State([Terminated(pid)], [pid], {}, [pid])
    case 5 => State([Detached(pid)], [], {}, [pid])
    case 6 => State([Ended(pid)], [], {}, [pid])
    case _ => State([Ended(pid)], [], {pid}, [pid])
  }

  lemma SystemMoments(pid: Pid)
    ensures SystemSteps(Moment(pid, 0), Moment(pid, 1), pid)
    ensures Copies(Moment(pid, 2), Moment(pid, 3))
    ensures SystemSteps(Moment(pid, 6), Moment(pid, 7), pid)
  {
  }

  lemma SessionMoments(pid: Pid)
    ensures SessionSteps(Moment(pid, 1), Moment(pid, 2), 0)
    ensures SessionSteps(Moment(pid, 3), Moment(pid, 4), 0)
    ensures SessionSteps(Moment(pid, 4), Moment(pid, 5), 0)
    ensures SessionSteps(Moment(pid, 5), Moment(pid, 6), 0)
  {
    assert Registers(Moment(pid, 1), Moment(pid, 2), 0);
    assert Kills(Moment(pid, 3), Moment(pid, 4), 0);
    assert Without([pid], pid) == [] by {
      WithoutLast([], pid);
      assert [] + [pid] == [pid];
    }
    assert Unregisters(Moment(pid, 4), Moment(pid, 5), 0);
    assert Reaps(Moment(pid, 5), Moment(pid, 6), 0);
  }

  lemma MomentsFollow(pid: Pid, k: nat)
    requires k < 7
    ensures Next(Moment(pid, k), Moment(pid, k + 1))
  {
    SystemMoments(pid);
    SessionMoments(pid);
  }

  /**
   The copy can indeed go stale: a run after which the next kill of the watcher
   addresses a process that no session owns.
   */
  lemma WatcherCanMissItsGroup(pid: Pid) returns (trace: seq<State>)
    ensures Run(trace)
    ensures var st := trace[|trace| - 1]; st.watch == [pid] && pid in st.foreign && pid !in st.registry
  {
    trace := seq(8, k requires 0 <= k < 8 => Moment(pid, k));
    forall k | 0 <= k < 7
      ensures StepsAt(trace, k)
    {
      MomentsFollow(pid, k);
    }
  }
}
