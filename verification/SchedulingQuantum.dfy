/** For how many sentences a process keeps its CPU under round robin. */
module SchedulingQuantum {
  import opened Scheduling
  import opened SchedulingCensus
  import opened SchedulingCpus

  /**
   A CPU in use has a counter that exceeds the sentences reported, and has not gone past the quantum by more than
   its start.
   */
  ghost predicate InQuantum(cpu: Cpu, quantum: int) {
    cpu.reported < cpu.quantum && (cpu.reported == 0 || cpu.quantum <= quantum)
  }

  ghost predicate Timed(s: State) {
    s.algorithm.RoundRobin? ==>
      && (forall x :: 0 < On(s.busy, x) ==> InQuantum(CpuOf(s.cpus, x), s.quantum))
      && (forall x :: 0 <= CpuOf(s.cpus, x).quantum)
  }

  /** One CPU changes, and is in its quantum afterwards if it is busy. */
  lemma ChangedTimed(s: State, socket: int, cpu: Cpu)
    requires Timed(s) && 0 <= cpu.quantum && (0 < On(s.busy, socket) ==> InQuantum(cpu, s.quantum))
    ensures Timed(s.(cpus := s.cpus[socket := cpu]))
  {
    var t := s.(cpus := s.cpus[socket := cpu]);
    forall x
      ensures CpuOf(t.cpus, x) == if x == socket then cpu else CpuOf(s.cpus, x)
    {
    }
    if s.algorithm.RoundRobin? {
      forall x | 0 < On(t.busy, x)
        ensures InQuantum(CpuOf(t.cpus, x), t.quantum)
      {
        assert 0 < On(s.busy, x);
      }
      assert forall x :: 0 <= CpuOf(t.cpus, x).quantum by {
        assert forall x :: 0 <= CpuOf(s.cpus, x).quantum;
      }
    }
  }

  /** The next process of an idle CPU starts with a counter of at least one, whatever it was before. */
  lemma PlannedTimed(s: State)
    requires Timed(s) && s.ready != []
    ensures Timed(Planned(s))
  {
    if s.idle != [] && s.algorithm.RoundRobin? {
      var x0, t := s.idle[0], Planned(s);
      assert 0 <= CpuOf(s.cpus, x0).quantum;
      var u := s.(cpus := s.cpus[x0 := CpuOf(t.cpus, x0)]);
      ChangedTimed(s, x0, CpuOf(t.cpus, x0));
      assert t.cpus == u.cpus;
      forall x | 0 < On(t.busy, x)
        ensures InQuantum(CpuOf(t.cpus, x), t.quantum)
      {
        OnSnoc(s.busy, x0, x);
        assert x != x0 ==> 0 < On(u.busy, x);
      }
      assert forall x :: 0 <= CpuOf(u.cpus, x).quantum;
    }
  }

  lemma PromotedTimed(s: State, admitted: bool)
    requires Timed(s)
    ensures Timed(Promoted(s, admitted))
  {
    if s.news != [] && admitted {
      var u := NewToReady(s.(news := s.news[1..]), s.news[0].pid);
      TimedStays(s, u);
      PlannedTimed(u);
    } else {
      TimedStays(s, Promoted(s, admitted));
    }
  }

  lemma TimedStays(s: State, t: State)
    requires Timed(s) && t.cpus == s.cpus && t.quantum == s.quantum && t.algorithm == s.algorithm
    requires forall x :: On(t.busy, x) <= On(s.busy, x)
    ensures Timed(t)
  {
  }

  lemma FreedTimed(s: State, socket: int)
    requires Timed(s)
    ensures Timed(CpuFreed(s, socket))
  {
    forall x
      ensures On(CpuFreed(s, socket).busy, x) <= On(s.busy, x)
    {
      OnDrop(s.busy, socket, x);
    }
  }

  /** A CPU that is in one list only is not busy any more once it has been freed, so its counter may be reset. */
  lemma FreedAndResetTimed(s: State, socket: int)
    requires Timed(s) && CpusConsistent(s)
    ensures Timed(CpuFreed(CpuReset(s, socket), socket))
  {
    var u := CpuFreed(s, socket);
    FreedTimed(s, socket);
    OnDrop(s.busy, socket, socket);
    assert On(s.idle, socket) + On(s.busy, socket) <= 1;
    ChangedTimed(u, socket, CpuOf(s.cpus, socket).(pid := 0, quantum := 0));
  }

  lemma DispatchedTimed(s: State, socket: int)
    requires Timed(s)
    ensures Timed(Dispatched(s, socket))
  {
    if s.ready != [] && s.algorithm.RoundRobin? {
      var t := Dispatched(s, socket);
      assert 0 <= CpuOf(s.cpus, socket).quantum;
      if 0 < On(s.busy, socket) { assert InQuantum(CpuOf(s.cpus, socket), s.quantum); }
      ChangedTimed(s, socket, CpuOf(t.cpus, socket));
      TimedStays(s.(cpus := t.cpus), t);
    }
  }

  lemma SentenceTimed(s: State, socket: int, pid: int, admitted: bool)
    requires Timed(s) && Genuine(s, socket, pid) && In(s.running, pid)
    ensures Timed(SentenceDone(s, socket, pid, admitted))
  {
    ScannedFound(s.busy, socket);
    if CpuOf(s.cpus, socket).pid in s.doomed {
      KilledOnCpuTimed(s, socket, pid, admitted);
    } else if s.algorithm.RoundRobin? {
      var cpu := CpuOf(s.cpus, socket);
      assert InQuantum(cpu, s.quantum);
      if cpu.quantum >= s.quantum {
        SwitchedTimed(s, socket, pid);
      } else {
        ChangedTimed(s, socket, cpu.(quantum := cpu.quantum + 1, reported := cpu.reported + 1));
      }
    }
  }

  lemma KilledOnCpuTimed(s: State, socket: int, pid: int, admitted: bool)
    requires Timed(s)
    ensures Timed(KilledOnCpu(s, socket, pid, admitted))
  {
    var t := RunningToFinished(s.(doomed := Drop(s.doomed, CpuOf(s.cpus, socket).pid)), pid);
    TimedStays(s, t);
    PromotedTimed(t, admitted);
    FreedTimed(Promoted(t, admitted), socket);
    DispatchedTimed(CpuFreed(Promoted(t, admitted), socket), socket);
  }

  lemma SwitchedTimed(s: State, socket: int, pid: int)
    requires Timed(s) && s.algorithm.RoundRobin? && In(s.running, pid)
    ensures Timed(Dispatched(RunningToReady(HandedOver(s, socket, socket), pid), socket))
  {
    var u := Dispatched(RunningToReady(HandedOver(s, socket, socket), pid), socket);
    var last := CpuOf(u.cpus, socket);
    ChangedTimed(s, socket, last);
    assert u.cpus == s.cpus[socket := last];
    TimedStays(s.(cpus := u.cpus), u);
  }

  lemma WaitTimed(s: State, socket: int, pid: int, name: string, admitted: bool)
    requires Timed(s)
    ensures Timed(Waited(s, socket, pid, name, admitted))
  {
    var k := FindSemaphore(s.semaphores, name);
    if MustWait(s, name) {
      var t := Changed(s, k, -1);
      TimedStays(s, t);
      if pid in s.doomed {
        KilledWaitingTimed(t, k, socket, pid, admitted);
      } else {
        MadeToWaitTimed(t, k, socket, pid);
      }
    } else {
      TimedStays(s, Waited(s, socket, pid, name, admitted));
    }
  }

  lemma KilledWaitingTimed(s: State, k: nat, socket: int, pid: int, admitted: bool)
    requires Timed(s) && k < |s.semaphores|
    ensures Timed(PlannedIfReady(KilledWaiting(s, k, socket, pid, admitted)))
  {
    var t := RunningToFinished(s.(doomed := Drop(s.doomed, pid)), pid);
    TimedStays(s, t);
    PromotedTimed(t, admitted);
    var u, v := CpuFreed(Promoted(t, admitted), socket), KilledWaiting(s, k, socket, pid, admitted);
    FreedTimed(Promoted(t, admitted), socket);
    TimedStays(u, v);
    if v.ready != [] { PlannedTimed(v); }
  }

  lemma MadeToWaitTimed(s: State, k: nat, socket: int, pid: int)
    requires Timed(s) && k < |s.semaphores|
    ensures Timed(PlannedIfReady(MadeToWait(s, k, socket, pid)))
  {
    var t := MadeToWait(s, k, socket, pid);
    FreedTimed(s, socket);
    TimedStays(CpuFreed(s, socket), t);
    if t.ready != [] { PlannedTimed(t); }
  }

  lemma ExitTimed(s: State, socket: int, pid: int, admitted: bool)
    requires Timed(s) && CpusConsistent(s)
    ensures Timed(Exited(s, socket, pid, admitted)) && Timed(Aborted(s, socket, pid, admitted))
  {
    var t := RunningToFinished(s, pid);
    TimedStays(s, t);
    RunningEndsConsistent(s, pid);
    FreedAndResetTimed(t, socket);
    var u := CpuFreed(CpuReset(t, socket), socket);
    PromotedTimed(u, admitted);
    if Promoted(u, admitted).ready != [] { PlannedTimed(Promoted(u, admitted)); }
  }

  lemma {:induction false} AdmittedTimed(s: State, answers: seq<bool>)
    requires Timed(s)
    ensures Timed(Admitted(s, answers))
    decreases |answers|
  {
    if answers == [] || s.degree <= s.count {
    } else {
      PromotedTimed(s, answers[0]);
      AdmittedTimed(Promoted(s, answers[0]), answers[1..]);
    }
  }

  lemma ArrivedTimed(s: State, admitted: bool)
    requires Timed(s)
    ensures Timed(Arrived(s, admitted))
  {
    TimedStays(s, Arrived(s, admitted));
  }

  lemma StartedTimed(s: State, admitted: bool)
    requires Timed(s)
    ensures Timed(Started(s, admitted))
  {
    ArrivedTimed(s, admitted);
    if Arrived(s, admitted).ready != [] { PlannedTimed(Arrived(s, admitted)); }
  }

  lemma SignalTimed(s: State, name: string)
    requires Timed(s)
    ensures Timed(Signalled(s, name))
  {
    var k := FindSemaphore(s.semaphores, name);
    if k < |s.semaphores| {
      var t := Changed(s, k, 1);
      var i := FindWaiter(t.blocked, t.waits, t.semaphores[k].name);
      if i < |t.blocked| {
        var u := BlockedToReady(t, t.blocked[i].pid).(waits := t.waits[t.blocked[i].pid := ""]);
        TimedStays(s, u);
        AtIsIn(t.blocked, i);
        PlannedTimed(u);
      }
    }
  }

  lemma CpuStepTimed(s: State, e: Event)
    requires FromCpu(e) && Timed(s) && CpusConsistent(s) && Possible(s, e) && GenuineEvent(s, e)
    ensures Timed(Step(s, e))
  {
    match e
    case Sentence(socket, pid, admitted) => SentenceTimed(s, socket, pid, admitted);
    case Wait(socket, pid, name, admitted) => WaitTimed(s, socket, pid, name, admitted);
    case Exit(socket, pid, admitted) => ExitTimed(s, socket, pid, admitted);
    case Abort(socket, pid, admitted) => ExitTimed(s, socket, pid, admitted);
    case _ =>
  }

  lemma StepTimed(s: State, e: Event)
    requires Timed(s) && CpusConsistent(s) && Possible(s, e) && GenuineEvent(s, e)
    ensures Timed(Step(s, e))
  {
    if FromCpu(e) {
      CpuStepTimed(s, e);
    } else {
      match e
      case Start(admitted) => StartedTimed(s, admitted);
      case Connect(socket, unset) => ConnectedTimed(s, socket, unset);
      case Handshake => if s.ready != [] { PlannedTimed(s); }
      case Signal(name) => SignalTimed(s, name);
      case SetDegree(degree, answers) =>
        TimedStays(s, s.(degree := degree));
        AdmittedTimed(s.(degree := degree), answers);
      case _ => EndingTimed(s, e);
    }
  }

  lemma EndingTimed(s: State, e: Event)
    requires (e.Oversized? || e.ConsoleAbort? || e.Kill?) && Timed(s) && Possible(s, e)
    ensures Timed(Step(s, e))
  {
    match e
    case Oversized(socket) => RunningEndsKeepsCpus(s, CpuOf(s.cpus, socket).pid);
    case ConsoleAbort(pid) => AbortedKeepsCpus(s, pid);
    case Kill(pid) => KilledKeepsCpus(s, pid);
    case _ =>
  }

  /** Nothing changes about the CPUs. */
  ghost predicate SameCpus(s: State, t: State) {
    && t.cpus == s.cpus && t.busy == s.busy && t.quantum == s.quantum && t.algorithm == s.algorithm
    && t.executing == s.executing && t.faulted == s.faulted
  }

  lemma RunningEndsKeepsCpus(s: State, pid: int)
    ensures SameCpus(s, RunningToFinished(s, pid))
  {
  }

  lemma AbortedKeepsCpus(s: State, pid: int)
    ensures SameCpus(s, AbortedByConsole(s, pid))
  {
    ToFinishedKeepsCpus(s, pid, StatusOf(s, pid));
  }

  lemma ToFinishedKeepsCpus(s: State, pid: int, status: Status)
    ensures SameCpus(s, ToFinished(s, pid, status))
  {
    match status {
      case New => case Ready => case Running => case Blocked => case Finished =>
    }
  }

  lemma KilledKeepsCpus(s: State, pid: int)
    ensures SameCpus(s, Killed(s, pid))
  {
    KilledFromKeepsCpus(s, pid, StatusOf(s, pid));
  }

  lemma KilledFromKeepsCpus(s: State, pid: int, status: Status)
    ensures SameCpus(s, KilledFrom(s, pid, status))
  {
    match status {
      case New => case Ready => case Running => case Blocked => case Finished =>
    }
  }

  lemma ConnectedTimed(s: State, socket: int, unset: int)
    requires Timed(s) && CpusConsistent(s) && socket !in s.cpus
    ensures Timed(Step(s, Connect(socket, unset)))
  {
    assert On(s.idle, socket) + On(s.busy, socket) == 0;
    ChangedTimed(s, socket, Cpu(unset, 0, 0));
    TimedStays(s.(cpus := s.cpus[socket := Cpu(unset, 0, 0)]), Step(s, Connect(socket, unset)));
  }

  /**
   Under round robin a process has reported fewer sentences than the quantum when its next one arrives, and
   is switched at the latest with the report that makes them as many.
   */
  lemma RoundRobinBound(s: State, socket: int, pid: int, admitted: bool)
    requires Timed(s) && s.algorithm.RoundRobin? && 1 <= s.quantum && Genuine(s, socket, pid)
    requires s.busy != [] && pid !in s.doomed
    ensures var cpu := CpuOf(s.cpus, socket); var t := SentenceDone(s, socket, pid, admitted);
            cpu.reported + 1 <= s.quantum &&
            (cpu.reported + 1 == s.quantum ==>
               t == Dispatched(RunningToReady(HandedOver(s, socket, socket), pid), socket)) &&
            (cpu.quantum < s.quantum ==> CpuOf(t.cpus, socket).reported == cpu.reported + 1 && t.running == s.running)
  {
    ScannedFound(s.busy, socket);
  }
}
