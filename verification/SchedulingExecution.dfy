/** What the CPUs really run, which only they know, and what the kernel's lists say about it. */
module SchedulingExecution {
  import opened Scheduling
  import opened SchedulingCensus
  import opened SchedulingSemaphores
  import opened SchedulingCpus
  import opened SchedulingQuantum

  /** A CPU reports about the process that it was sent last and has not handed back. */
  predicate Truthful(s: State, e: Event) {
    FromCpu(e) ==> e.socket in s.executing && s.executing[e.socket] == e.pid
  }

  /** The busy CPUs are exactly those that run something, and run what their records say. */
  ghost predicate Listed(busy: seq<int>, cpus: map<int, Cpu>, executing: map<int, int>) {
    forall x :: (x in executing <==> 0 < On(busy, x)) && (x in executing ==> CpuOf(cpus, x).pid == executing[x])
  }

  ghost predicate Executes(s: State) {
    Listed(s.busy, s.cpus, s.executing)
  }

  /** A truthful report is one from the list of the busy CPUs, about the process on record. */
  lemma TruthfulGenuine(s: State, e: Event)
    requires Executes(s) && Truthful(s, e)
    ensures GenuineEvent(s, e)
  {
    if FromCpu(e) { assert 0 < On(s.busy, e.socket); }
  }

  // ---------------------------------------------------------------- the lists

  /** A CPU that is in no list is sent a process. */
  lemma ListedSent(busy: seq<int>, cpus: map<int, Cpu>, executing: map<int, int>, x: int, cpu: Cpu)
    requires Listed(busy, cpus, executing)
    ensures Listed(busy + [x], cpus[x := cpu], executing[x := cpu.pid])
  {
    forall y
      ensures On(busy + [x], y) == On(busy, y) + if y == x then 1 else 0
    {
      OnSnoc(busy, x, y);
    }
    forall y
      ensures CpuOf(cpus[x := cpu], y) == if y == x then cpu else CpuOf(cpus, y)
    {
    }
  }

  /** A CPU hands its process back and leaves the list. */
  lemma ListedFreed(busy: seq<int>, cpus: map<int, Cpu>, executing: map<int, int>, x: int)
    requires Listed(busy, cpus, executing) && On(busy, x) <= 1
    ensures Listed(Drop(busy, x), cpus, executing - {x})
  {
    forall y
      ensures On(Drop(busy, x), y) == On(busy, y) - if y == x && 0 < On(busy, x) then 1 else 0
    {
      OnDrop(busy, x, y);
    }
  }

  /** A busy CPU is sent another process. */
  lemma ListedSwitched(busy: seq<int>, cpus: map<int, Cpu>, executing: map<int, int>, x: int, cpu: Cpu)
    requires Listed(busy, cpus, executing) && 0 < On(busy, x)
    ensures Listed(busy, cpus[x := cpu], executing[x := cpu.pid])
  {
    forall y
      ensures CpuOf(cpus[x := cpu], y) == if y == x then cpu else CpuOf(cpus, y)
    {
    }
  }

  /** The record of a CPU changes, but for the process it runs. */
  lemma ListedRecord(busy: seq<int>, cpus: map<int, Cpu>, executing: map<int, int>, x: int, cpu: Cpu)
    requires Listed(busy, cpus, executing) && (x in executing ==> cpu.pid == executing[x])
    ensures Listed(busy, cpus[x := cpu], executing)
  {
    forall y
      ensures CpuOf(cpus[x := cpu], y) == if y == x then cpu else CpuOf(cpus, y)
    {
    }
  }

  // ---------------------------------------------------------------- the transitions

  lemma PlannedExecutes(s: State)
    requires Executes(s) && s.ready != []
    ensures Executes(Planned(s))
  {
    if s.idle != [] {
      var x, t := s.idle[0], Planned(s);
      ListedSent(s.busy, s.cpus, s.executing, x, CpuOf(t.cpus, x));
      assert t.cpus == s.cpus[x := CpuOf(t.cpus, x)];
    }
  }

  lemma PromotedExecutes(s: State, admitted: bool)
    requires Executes(s)
    ensures Executes(Promoted(s, admitted))
  {
    if s.news != [] && admitted {
      PlannedExecutes(NewToReady(s.(news := s.news[1..]), s.news[0].pid));
    }
  }

  lemma {:induction false} AdmittedExecutes(s: State, answers: seq<bool>)
    requires Executes(s)
    ensures Executes(Admitted(s, answers))
    decreases |answers|
  {
    if answers == [] || s.degree <= s.count {
    } else {
      PromotedExecutes(s, answers[0]);
      AdmittedExecutes(Promoted(s, answers[0]), answers[1..]);
    }
  }

  lemma FreedExecutes(s: State, socket: int)
    requires Executes(s) && CpusConsistent(s)
    ensures Executes(CpuFreed(s, socket))
  {
    assert On(s.idle, socket) + On(s.busy, socket) <= 1;
    ListedFreed(s.busy, s.cpus, s.executing, socket);
  }

  lemma ExitExecutes(s: State, socket: int, pid: int, admitted: bool)
    requires Executes(s) && CpusConsistent(s)
    ensures Executes(Exited(s, socket, pid, admitted)) && Executes(Aborted(s, socket, pid, admitted))
  {
    var t := RunningToFinished(s, pid);
    RunningEndsKeepsCpus(s, pid);
    RunningEndsConsistent(s, pid);
    var u := CpuFreed(t, socket);
    FreedExecutes(t, socket);
    var v := CpuFreed(CpuReset(t, socket), socket);
    ListedRecord(u.busy, u.cpus, u.executing, socket, CpuOf(t.cpus, socket).(pid := 0, quantum := 0));
    assert Executes(v);
    PromotedExecutes(v, admitted);
    if Promoted(v, admitted).ready != [] { PlannedExecutes(Promoted(v, admitted)); }
  }

  /** What the kill branches do before they look for the next process. */
  lemma AfterKillExecutes(s: State, doomed: seq<int>, socket: int, pid: int, admitted: bool)
    requires Executes(s) && CpusConsistent(s) && Placed(s)
    ensures Executes(CpuFreed(Promoted(RunningToFinished(s.(doomed := doomed), pid), admitted), socket))
  {
    var t0 := s.(doomed := doomed);
    var t := RunningToFinished(t0, pid);
    RunningEndsKeepsCpus(t0, pid);
    NothingMoved(s, t0);
    MovedPlaced(s, t0);
    ConsistentStays(s, t0);
    RunningEndsConsistent(t0, pid);
    RunningToFinishedMoves(t0, pid);
    MovedPlaced(t0, t);
    PromotedExecutes(t, admitted);
    PromotedConsistent(t, admitted);
    FreedExecutes(Promoted(t, admitted), socket);
  }

  /** The kill branch sends a process to a CPU that it has just listed as idle, if there is one. */
  lemma KilledOnCpuExecutes(s: State, socket: int, pid: int, admitted: bool)
    requires Executes(s) && CpusConsistent(s) && Placed(s) && In(s.running, pid) && Genuine(s, socket, pid)
    ensures Executes(KilledOnCpu(s, socket, pid, admitted)) <==> NoneReady(s, admitted)
  {
    var t := AfterKill(s, socket, pid, admitted);
    AfterKillExecutes(s, Drop(s.doomed, CpuOf(s.cpus, socket).pid), socket, pid, admitted);
    AfterKillConsistent(s, socket, pid, admitted);
    AfterKillReady(s, socket, pid, admitted);
    if t.ready != [] {
      var u := Dispatched(t, socket);
      assert u == KilledOnCpu(s, socket, pid, admitted);
      assert socket in u.executing && On(u.busy, socket) == 0;
    }
  }

  lemma SentenceExecutes(s: State, socket: int, pid: int, admitted: bool)
    requires Executes(s) && CpusConsistent(s) && Placed(s) && In(s.running, pid) && Genuine(s, socket, pid)
    ensures Executes(SentenceDone(s, socket, pid, admitted)) <==> !Misplaces(s, Sentence(socket, pid, admitted))
  {
    var cpu := CpuOf(s.cpus, socket);
    if cpu.pid in s.doomed {
      KilledOnCpuExecutes(s, socket, pid, admitted);
    } else if s.algorithm.RoundRobin? {
      ScannedFound(s.busy, socket);
      QuantumExecutes(s, socket, pid);
    } else {
      ListedRecord(s.busy, s.cpus, s.executing, socket, cpu.(reported := cpu.reported + 1));
    }
  }

  lemma QuantumExecutes(s: State, socket: int, pid: int)
    requires Executes(s) && In(s.running, pid) && Genuine(s, socket, pid) && Scanned(s.busy, socket) == socket
    ensures Executes(QuantumChecked(s, socket, pid))
  {
    var cpu := CpuOf(s.cpus, socket);
    if cpu.quantum >= s.quantum {
      SwitchedExecutes(s, socket, pid);
    } else {
      ListedRecord(s.busy, s.cpus, s.executing, socket,
                   cpu.(quantum := cpu.quantum + 1, reported := cpu.reported + 1));
    }
  }

  lemma SwitchedExecutes(s: State, socket: int, pid: int)
    requires Executes(s) && In(s.running, pid) && 0 < On(s.busy, socket)
    ensures Executes(Dispatched(RunningToReady(HandedOver(s, socket, socket), pid), socket))
  {
    var r := RunningToReady(HandedOver(s, socket, socket), pid);
    RunningToReadyMoves(HandedOver(s, socket, socket), pid);
    var t := Dispatched(r, socket);
    ListedSwitched(s.busy, s.cpus, s.executing, socket, CpuOf(t.cpus, socket));
    assert t.cpus == s.cpus[socket := CpuOf(t.cpus, socket)];
    assert t.executing == s.executing[socket := CpuOf(t.cpus, socket).pid];
  }

  lemma WaitExecutes(s: State, socket: int, pid: int, name: string, admitted: bool)
    requires Executes(s) && CpusConsistent(s) && Placed(s)
    ensures Executes(Waited(s, socket, pid, name, admitted))
  {
    var k := FindSemaphore(s.semaphores, name);
    if MustWait(s, name) {
      var t := Changed(s, k, -1);
      ConsistentStays(s, t);
      if pid in s.doomed {
        NothingMoved(s, t);
        MovedPlaced(s, t);
        KilledWaitingExecutes(t, k, socket, pid, admitted);
      } else {
        MadeToWaitExecutes(t, k, socket, pid);
      }
    }
  }

  lemma KilledWaitingExecutes(s: State, k: nat, socket: int, pid: int, admitted: bool)
    requires Executes(s) && CpusConsistent(s) && Placed(s) && k < |s.semaphores|
    ensures Executes(PlannedIfReady(KilledWaiting(s, k, socket, pid, admitted)))
  {
    AfterKillExecutes(s, Drop(s.doomed, pid), socket, pid, admitted);
    var u := KilledWaiting(s, k, socket, pid, admitted);
    if u.ready != [] { PlannedExecutes(u); }
  }

  lemma MadeToWaitExecutes(s: State, k: nat, socket: int, pid: int)
    requires Executes(s) && CpusConsistent(s) && k < |s.semaphores|
    ensures Executes(PlannedIfReady(MadeToWait(s, k, socket, pid)))
  {
    FreedExecutes(s, socket);
    var t := MadeToWait(s, k, socket, pid);
    if t.ready != [] { PlannedExecutes(t); }
  }

  lemma SignalExecutes(s: State, name: string)
    requires Executes(s)
    ensures Executes(Signalled(s, name))
  {
    var k := FindSemaphore(s.semaphores, name);
    if k < |s.semaphores| {
      var t := Changed(s, k, 1);
      var i := FindWaiter(t.blocked, t.waits, t.semaphores[k].name);
      if i < |t.blocked| {
        var u := BlockedToReady(t, t.blocked[i].pid).(waits := t.waits[t.blocked[i].pid := ""]);
        AtIsIn(t.blocked, i);
        PlannedExecutes(u);
      }
    }
  }

  lemma StartedExecutes(s: State, admitted: bool)
    requires Executes(s)
    ensures Executes(Started(s, admitted))
  {
    assert Executes(Arrived(s, admitted));
    if Arrived(s, admitted).ready != [] { PlannedExecutes(Arrived(s, admitted)); }
  }

  lemma ConnectedExecutes(s: State, socket: int, unset: int)
    requires Executes(s) && CpusConsistent(s) && socket !in s.cpus
    ensures Executes(Step(s, Connect(socket, unset)))
  {
    assert On(s.idle, socket) + On(s.busy, socket) == 0;
    ListedRecord(s.busy, s.cpus, s.executing, socket, Cpu(unset, 0, 0));
  }

  lemma CpuStepExecutes(s: State, e: Event)
    requires FromCpu(e) && Executes(s) && CpusConsistent(s) && Placed(s) && Possible(s, e) && GenuineEvent(s, e)
    ensures Executes(Step(s, e)) <==> !Misplaces(s, e)
  {
    match e
    case Sentence(socket, pid, admitted) => SentenceExecutes(s, socket, pid, admitted);
    case Wait(socket, pid, name, admitted) => WaitExecutes(s, socket, pid, name, admitted);
    case Exit(socket, pid, admitted) => ExitExecutes(s, socket, pid, admitted);
    case Abort(socket, pid, admitted) => ExitExecutes(s, socket, pid, admitted);
    case _ =>
  }

  lemma EndingExecutes(s: State, e: Event)
    requires (e.Oversized? || e.ConsoleAbort? || e.Kill?) && Executes(s) && Possible(s, e)
    ensures Executes(Step(s, e))
  {
    match e
    case Oversized(socket) => RunningEndsKeepsCpus(s, CpuOf(s.cpus, socket).pid);
    case ConsoleAbort(pid) => AbortedKeepsCpus(s, pid);
    case Kill(pid) => KilledKeepsCpus(s, pid);
    case _ =>
  }

  /** Every truthful step but one leaves exactly the working CPUs listed as busy; that one never does. */
  lemma StepExecutes(s: State, e: Event)
    requires Executes(s) && CpusConsistent(s) && Placed(s) && Possible(s, e) && Truthful(s, e)
    ensures Executes(Step(s, e)) <==> !Misplaces(s, e)
  {
    TruthfulGenuine(s, e);
    if FromCpu(e) {
      CpuStepExecutes(s, e);
    } else {
      match e
      case Start(admitted) => StartedExecutes(s, admitted);
      case Connect(socket, unset) => ConnectedExecutes(s, socket, unset);
      case Handshake => if s.ready != [] { PlannedExecutes(s); }
      case Signal(name) => SignalExecutes(s, name);
      case SetDegree(degree, answers) => AdmittedExecutes(s.(degree := degree), answers);
      case _ => EndingExecutes(s, e);
    }
  }
}
