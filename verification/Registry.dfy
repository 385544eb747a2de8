/** The registry of collector process groups, as the transport changes it in place. */
module Registry {
  import opened Basics

  newtype Pid = n: int | 0 <= n < 0x1_0000_0000

  const LAST_SIGNED: Pid := 0x7FFF_FFFF

  /** `retain(|active| *active != pid)` */
  function Without(s: seq<Pid>, pid: Pid): seq<Pid> {
    if s == [] then []
    else Without(s[..|s| - 1], pid) + if s[|s| - 1] != pid then [s[|s| - 1]] else []
  }

  lemma {:induction false} WithoutMembers(s: seq<Pid>, pid: Pid)
    ensures forall p :: p in Without(s, pid) <==> p in s && p != pid
  {
    if s != [] {
      WithoutMembers(s[..|s| - 1], pid);
      assert s == s[..|s| - 1] + [s[|s| - 1]];
    }
  }

  predicate Distinct(s: seq<Pid>) {
    forall i, j :: 0 <= i < j < |s| ==> s[i] != s[j]
  }

  lemma {:induction false} WithoutDistinct(s: seq<Pid>, pid: Pid)
    requires Distinct(s)
    ensures Distinct(Without(s, pid))
  {
    if s != [] {
      var init := s[..|s| - 1];
      WithoutDistinct(init, pid);
      WithoutMembers(init, pid);
      var kept := Without(init, pid);
      forall i | 0 <= i < |kept|
        ensures kept[i] != s[|s| - 1]
      {
        assert kept[i] in init;
      }
    }
  }

  lemma {:induction false} WithoutAbsent(s: seq<Pid>, pid: Pid)
    requires pid !in s
    ensures Without(s, pid) == s
  {
    if s != [] {
      WithoutAbsent(s[..|s| - 1], pid);
      assert s == s[..|s| - 1] + [s[|s| - 1]];
    }
  }

  /** What happens to the groups, in order. */
  datatype Action = Added(pid: Pid) | Killed(pid: Pid) | Removed(pid: Pid) | Reaped(pid: Pid)

  /** A group kill goes only to a PID that a signed number can address. */
  function Kill(pid: Pid): seq<Action> {
    if pid <= LAST_SIGNED then [Killed(pid)] else []
  }

  function KillAll(pids: seq<Pid>): seq<Action> {
    if pids == [] then [] else KillAll(pids[..|pids| - 1]) + Kill(pids[|pids| - 1])
  }

  /** The process-wide list, with a log of what was done. */
  class Groups {
    var active: seq<Pid>
    var log: seq<Action>

    constructor ()
      ensures active == [] && log == []
    {
      active, log := [], [];
    }

    method Push(pid: Pid)
      modifies this
      ensures active == old(active) + [pid] && log == old(log) + [Added(pid)]
    {
      active, log := active + [pid], log + [Added(pid)];
    }

    method Terminate(pid: Pid)
      modifies this`log
      ensures log == old(log) + Kill(pid)
    {
      if pid <= LAST_SIGNED {
        log := log + [Killed(pid)];
      }
    }

    method Retain(pid: Pid)
      modifies this
      ensures active == Without(old(active), pid) && log == old(log) + [Removed(pid)]
    {
      var kept: seq<Pid> := [];
      for i := 0 to |active|
        invariant active == old(active) && log == old(log)
        invariant kept == Without(active[..i], pid)
      {
        assert active[..i + 1][..i] == active[..i];
        if active[i] != pid {
          kept := kept + [active[i]];
        }
      }
      assert active[..|active|] == active;
      active, log := kept, log + [Removed(pid)];
    }

    /** The watcher kills the groups of a copy of the list. */
    method TerminateAll()
      modifies this`log
      ensures log == old(log) + KillAll(active)
    {
      var groups := active;
      for i := 0 to |groups|
        invariant log == old(log) + KillAll(groups[..i])
      {
        assert groups[..i + 1][..i] == groups[..i];
        Terminate(groups[i]);
      }
      assert groups[..|groups|] == groups;
    }
  }

  /** The guard of one session: registered until its PID is taken out. */
  class ActiveGroup {
    const groups: Groups
    var pid: Option<Pid>

    constructor Register(groups: Groups, pid: Pid)
      modifies groups
      ensures this.groups == groups && this.pid == Some(pid)
      ensures groups.active == old(groups.active) + [pid]
      ensures groups.log == old(groups.log) + [Added(pid)]
    {
      this.groups := groups;
      this.pid := Some(pid);
      new;
      groups.Push(pid);
    }

    method Unregister()
      modifies this`pid, groups
      ensures pid == None
      ensures old(pid).Some? ==> groups.active == Without(old(groups.active), old(pid).value)
                                 && groups.log == old(groups.log) + [Removed(old(pid).value)]
      ensures old(pid).None? ==> groups.active == old(groups.active) && groups.log == old(groups.log)
    {
      if pid.Some? {
        groups.Retain(pid.value);
        pid := None;
      }
    }

    /** Leaving scope: kill and take out what is still registered. */
    method Drop()
      modifies groups
      ensures pid.Some? ==> groups.active == Without(old(groups.active), pid.value)
                            && groups.log == old(groups.log) + Kill(pid.value) + [Removed(pid.value)]
      ensures pid.None? ==> groups.active == old(groups.active) && groups.log == old(groups.log)
    {
      if pid.Some? {
        groups.Terminate(pid.value);
        groups.Retain(pid.value);
      }
    }
  }

  /** How waiting for the collector ends. */
  datatype Waited = ExitedInTime | TimedOut | WaitFailed | Panicked

  /** `execute` after the registration: whatever ends the wait, kill, take out, then reap. */
  method Leave(group: ActiveGroup, pid: Pid, waited: Waited)
    requires group.pid == Some(pid)
    modifies group, group.groups
    ensures group.groups.active == Without(old(group.groups.active), pid)
    ensures group.groups.log
         == old(group.groups.log) + Kill(pid) + [Removed(pid)] + if waited.Panicked? then [] else [Reaped(pid)]
  {
    if waited.Panicked? {
      group.Drop();
      return;
    }
    group.groups.Terminate(pid);
    group.Unregister();
    group.groups.log := group.groups.log + [Reaped(pid)];
    group.Drop();
  }

  /**
   `execute` from the registration to the reaping. A panic while the group is
   registered unwinds: the guard is dropped and the child is never reaped. Either
   way nothing stays registered under the PID, and a kill comes before the reaping.
   */
  method Execute(groups: Groups, pid: Pid, waited: Waited)
    modifies groups
    ensures groups.active == Without(old(groups.active), pid)
    ensures groups.log == old(groups.log) + [Added(pid)] + Kill(pid) + [Removed(pid)]
      + if waited.Panicked? then [] else [Reaped(pid)]
  {
    var group := new ActiveGroup.Register(groups, pid);
    WithoutLast(old(groups.active), pid);
    Leave(group, pid, waited);
  }

  lemma WithoutLast(s: seq<Pid>, pid: Pid)
    ensures Without(s + [pid], pid) == Without(s, pid)
  {
    assert (s + [pid])[..|s|] == s;
  }
}
