/** How long a process keeps its CPU under round robin: where its counter starts, and when it is switched. */
module SchedulingSlices {
  import opened Scheduling
  import opened SchedulingCensus
  import opened SchedulingCpus
  import opened SchedulingQuantum
  import opened SchedulingExecution
  import opened SchedulingRuns
  import opened SchedulingService

  // ---------------------------------------------------------------- where the counter starts

  /** The report that ends a quantum: the CPU goes on with the head of the ready queue, and a counter of one. */
  lemma SwitchStarts(s: State, socket: int, pid: int, admitted: bool)
    requires Genuine(s, socket, pid) && In(s.running, pid) && pid !in s.doomed && QuantumOver(s, socket)
    ensures var next := if s.ready == [] then pid else s.ready[0].pid;
            SentenceDone(s, socket, pid, admitted).cpus == s.cpus[socket := Cpu(next, 1, 0)]
  {
    ScannedFound(s.busy, socket);
  }

  /** Any other report under round robin counts one sentence more. */
  lemma GoesOnCounts(s: State, socket: int, pid: int, admitted: bool)
    requires Genuine(s, socket, pid) && pid !in s.doomed && s.algorithm.RoundRobin? && !QuantumOver(s, socket)
    ensures var cpu := CpuOf(s.cpus, socket);
            SentenceDone(s, socket, pid, admitted)
            == s.(cpus := s.cpus[socket := Cpu(pid, cpu.quantum + 1, cpu.reported + 1)])
  {
    ScannedFound(s.busy, socket);
  }

  /** What a report does to the record of its CPU, and to the ready queue, when no kill is due. */
  ghost predicate CountedRightly(s: State, socket: int, pid: int, t: State) {
    Genuine(s, socket, pid) && In(s.running, pid) && pid !in s.doomed && s.algorithm.RoundRobin? ==>
      var cpu, next := CpuOf(s.cpus, socket), if s.ready == [] then pid else s.ready[0].pid;
      if cpu.quantum < s.quantum then t == s.(cpus := s.cpus[socket := Cpu(pid, cpu.quantum + 1, cpu.reported + 1)])
      else
        t.cpus == s.cpus[socket := Cpu(next, 1, 0)] && t.ready == (s.ready + [Pcb(pid, Ready)])[1..] &&
        In(t.running, next)
  }

  lemma ReportCounts(s: State, socket: int, pid: int, admitted: bool)
    ensures CountedRightly(s, socket, pid, SentenceDone(s, socket, pid, admitted))
  {
    if Genuine(s, socket, pid) && In(s.running, pid) && pid !in s.doomed && s.algorithm.RoundRobin? {
      ScannedFound(s.busy, socket);
      if QuantumOver(s, socket) {
        SwitchStarts(s, socket, pid, admitted);
        SwitchFate(s, socket, pid);
      } else {
        GoesOnCounts(s, socket, pid, admitted);
      }
    }
  }

  /** The first idle CPU goes on counting where it stopped. */
  lemma PlannedStarts(s: State)
    requires s.ready != [] && s.idle != [] && s.algorithm.RoundRobin?
    ensures CpuOf(Planned(s).cpus, s.idle[0]) == Cpu(s.ready[0].pid, CpuOf(s.cpus, s.idle[0]).quantum + 1, 0)
  {
  }

  /** The successor of a process that exits starts with a counter of one. */
  lemma ExitStarts(s: State, socket: int, pid: int, admitted: bool)
    requires s.ready != [] && s.idle == [] && s.algorithm.RoundRobin?
    ensures CpuOf(Exited(s, socket, pid, admitted).cpus, socket) == Cpu(s.ready[0].pid, 1, 0)
  {
    var t := EndedOnCpu(s, socket, pid);
    RunningEndsSides(s, pid);
    RunningEndsKeepsCpus(s, pid);
    assert t.idle == [socket] && CpuOf(t.cpus, socket).quantum == 0 && t.ready == s.ready;
    if t.news != [] && admitted {
      PlannedStarts(NewToReady(t.(news := t.news[1..]), t.news[0].pid));
      PromotedSides(t, admitted);
    } else {
      PromotedSides(t, admitted);
      PromotedSame(t, admitted);
      PlannedStarts(Promoted(t, admitted));
    }
  }

  lemma PromotedSame(s: State, admitted: bool)
    requires s.news == [] || !admitted
    ensures Promoted(s, admitted).cpus == s.cpus && Promoted(s, admitted).algorithm == s.algorithm
  {
  }

  /** That of one that has to wait starts one above the counter of its predecessor, and so may have no quantum left. */
  lemma WaitStarts(s: State, socket: int, pid: int, name: string, admitted: bool)
    requires s.ready != [] && s.idle == [] && s.algorithm.RoundRobin? && MustWait(s, name) && pid !in s.doomed
    ensures CpuOf(Waited(s, socket, pid, name, admitted).cpus, socket)
            == Cpu(s.ready[0].pid, CpuOf(s.cpus, socket).quantum + 1, 0)
  {
    var k := FindSemaphore(s.semaphores, name);
    var t := MadeToWait(Changed(s, k, -1), k, socket, pid);
    assert t.idle == [socket] && t.ready == s.ready && t.cpus == s.cpus;
    PlannedStarts(t);
  }

  // ---------------------------------------------------------------- a CPU that others leave alone

  ghost predicate Working(s: State, x: int) {
    0 < On(s.busy, x) && On(s.idle, x) == 0
  }

  /** The CPU works on, and its record is as it was. */
  ghost predicate Undisturbed(s: State, t: State, x: int) {
    Working(t, x) && CpuOf(t.cpus, x) == CpuOf(s.cpus, x)
  }

  lemma PlannedUndisturbed(s: State, x: int)
    requires Working(s, x)
    ensures Undisturbed(s, Planned(s), x) && Undisturbed(s, PlannedIfReady(s), x)
  {
    if s.idle != [] { OnSnoc(s.busy, s.idle[0], x); }
  }

  lemma PromotedUndisturbed(s: State, admitted: bool, x: int)
    requires Working(s, x)
    ensures Undisturbed(s, Promoted(s, admitted), x)
  {
    if s.news != [] && admitted { PlannedUndisturbed(NewToReady(s.(news := s.news[1..]), s.news[0].pid), x); }
  }

  lemma FreedUndisturbed(s: State, socket: int, x: int)
    requires Working(s, x) && socket != x
    ensures Undisturbed(s, CpuFreed(s, socket), x)
  {
    OnDrop(s.busy, socket, x);
    OnSnoc(s.idle, socket, x);
  }

  lemma RunningEndsUndisturbed(s: State, pid: int, x: int)
    requires Working(s, x)
    ensures Undisturbed(s, RunningToFinished(s, pid), x)
  {
    RunningEndsKeepsCpus(s, pid);
    RunningEndsSides(s, pid);
  }

  lemma {:induction false} AdmittedUndisturbed(s: State, answers: seq<bool>, x: int)
    requires Working(s, x)
    ensures Undisturbed(s, Admitted(s, answers), x)
    decreases |answers|
  {
    if answers == [] || s.degree <= s.count {
    } else {
      PromotedUndisturbed(s, answers[0], x);
      AdmittedUndisturbed(Promoted(s, answers[0]), answers[1..], x);
    }
  }

  /** What the two kill branches do before they look for the next process. */
  lemma EndedUndisturbed(s: State, socket: int, pid: int, admitted: bool, x: int)
    requires Working(s, x) && socket != x
    ensures Undisturbed(s, CpuFreed(Promoted(RunningToFinished(s, pid), admitted), socket), x)
  {
    var t := RunningToFinished(s, pid);
    RunningEndsUndisturbed(s, pid, x);
    PromotedUndisturbed(t, admitted, x);
    FreedUndisturbed(Promoted(t, admitted), socket, x);
  }

  lemma SentenceUndisturbed(s: State, socket: int, pid: int, admitted: bool, x: int)
    requires Working(s, x) && socket != x && Genuine(s, socket, pid)
    ensures Undisturbed(s, SentenceDone(s, socket, pid, admitted), x)
  {
    if pid in s.doomed {
      KilledUndisturbed(s, socket, pid, admitted, x);
    } else if s.algorithm.RoundRobin? {
      ScannedFound(s.busy, socket);
      QuantumUndisturbed(s, socket, pid, x);
    }
  }

  lemma KilledUndisturbed(s: State, socket: int, pid: int, admitted: bool, x: int)
    requires Working(s, x) && socket != x && CpuOf(s.cpus, socket).pid == pid
    ensures Undisturbed(s, KilledOnCpu(s, socket, pid, admitted), x)
  {
    EndedUndisturbed(s.(doomed := Drop(s.doomed, pid)), socket, pid, admitted, x);
  }

  lemma QuantumUndisturbed(s: State, socket: int, pid: int, x: int)
    requires Working(s, x) && socket != x && Scanned(s.busy, socket) == socket
    ensures Undisturbed(s, QuantumChecked(s, socket, pid), x)
  {
  }

  lemma WaitUndisturbed(s: State, socket: int, pid: int, name: string, admitted: bool, x: int)
    requires Working(s, x) && (socket != x || !MustWait(s, name))
    ensures Undisturbed(s, Waited(s, socket, pid, name, admitted), x)
  {
    var k := FindSemaphore(s.semaphores, name);
    if MustWait(s, name) {
      var t := Changed(s, k, -1);
      if pid in s.doomed {
        KilledWaitingUndisturbed(t, k, socket, pid, admitted, x);
      } else {
        FreedUndisturbed(t, socket, x);
        PlannedUndisturbed(MadeToWait(t, k, socket, pid), x);
      }
    }
  }

  lemma KilledWaitingUndisturbed(s: State, k: nat, socket: int, pid: int, admitted: bool, x: int)
    requires Working(s, x) && socket != x && k < |s.semaphores|
    ensures Undisturbed(s, PlannedIfReady(KilledWaiting(s, k, socket, pid, admitted)), x)
  {
    EndedUndisturbed(s.(doomed := Drop(s.doomed, pid)), socket, pid, admitted, x);
    PlannedUndisturbed(KilledWaiting(s, k, socket, pid, admitted), x);
  }

  lemma SignalUndisturbed(s: State, name: string, x: int)
    requires Working(s, x)
    ensures Undisturbed(s, Signalled(s, name), x)
  {
    var k := FindSemaphore(s.semaphores, name);
    if k < |s.semaphores| {
      var t := Changed(s, k, 1);
      var i := FindWaiter(t.blocked, t.waits, t.semaphores[k].name);
      if i < |t.blocked| {
        PlannedUndisturbed(BlockedToReady(t, t.blocked[i].pid).(waits := t.waits[t.blocked[i].pid := ""]), x);
      }
    }
  }

  lemma ExitUndisturbed(s: State, socket: int, pid: int, admitted: bool, x: int)
    requires Working(s, x) && socket != x
    ensures Undisturbed(s, Exited(s, socket, pid, admitted), x) && Undisturbed(s, Aborted(s, socket, pid, admitted), x)
  {
    var t := EndedOnCpu(s, socket, pid);
    RunningEndsUndisturbed(s, pid, x);
    FreedUndisturbed(CpuReset(RunningToFinished(s, pid), socket), socket, x);
    PromotedUndisturbed(t, admitted, x);
    PlannedUndisturbed(Promoted(t, admitted), x);
  }

  lemma StartUndisturbed(s: State, admitted: bool, x: int)
    requires Working(s, x)
    ensures Undisturbed(s, Started(s, admitted), x)
  {
    PlannedUndisturbed(Arrived(s, admitted), x);
  }

  lemma EndingUndisturbed(s: State, e: Event, x: int)
    requires (e.Oversized? || e.ConsoleAbort? || e.Kill?) && Working(s, x) && Possible(s, e)
    ensures Undisturbed(s, Step(s, e), x)
  {
    EndingServes(s, e);
    match e
    case Oversized(socket) => RunningEndsKeepsCpus(s, CpuOf(s.cpus, socket).pid);
    case ConsoleAbort(pid) => AbortedKeepsCpus(s, pid);
    case Kill(pid) => KilledKeepsCpus(s, pid);
    case _ =>
  }

  /** The event is a report of CPU `x`, and not a wait that has its unit. */
  ghost predicate Concerns(s: State, e: Event, x: int) {
    FromCpu(e) && e.socket == x && (e.Wait? ==> MustWait(s, e.name))
  }

  /** No event disturbs a working CPU but its own reports. */
  lemma StepUndisturbed(s: State, e: Event, x: int)
    requires Working(s, x) && CpusConsistent(s) && Possible(s, e) && GenuineEvent(s, e) && !Concerns(s, e, x)
    ensures Undisturbed(s, Step(s, e), x)
  {
    match e
    case Start(admitted) => StartUndisturbed(s, admitted, x);
    case Connect(socket, _) =>
      assert On(s.idle, x) + On(s.busy, x) == if x in s.cpus then 1 else 0;
      OnSnoc(s.idle, socket, x);
    case Handshake => PlannedUndisturbed(s, x);
    case Sentence(socket, pid, admitted) => SentenceUndisturbed(s, socket, pid, admitted, x);
    case Wait(socket, pid, name, admitted) => WaitUndisturbed(s, socket, pid, name, admitted, x);
    case Signal(name) => SignalUndisturbed(s, name, x);
    case Exit(socket, pid, admitted) => ExitUndisturbed(s, socket, pid, admitted, x);
    case Abort(socket, pid, admitted) => ExitUndisturbed(s, socket, pid, admitted, x);
    case SetDegree(degree, answers) => AdmittedUndisturbed(s.(degree := degree), answers, x);
    case _ => EndingUndisturbed(s, e, x);
  }

  // ---------------------------------------------------------------- runs

  /** How many of the events from `i` to `j` are sentences reported by CPU `x`. */
  ghost function Reports(events: seq<Event>, i: nat, j: nat, x: int): (n: nat)
    requires i <= j <= |events|
    decreases j
  {
    if i == j then 0
    else Reports(events, i, j - 1, x) + if events[j - 1].Sentence? && events[j - 1].socket == x then 1 else 0
  }

  /** CPU `x` reports sentences, none of which is to end its process, and waits that have their unit. */
  ghost predicate Works(s: State, e: Event, x: int) {
    Concerns(s, e, x) ==> e.Sentence? && e.pid !in s.doomed
  }

  /** Events up to `j` are truthful and misplace no CPU, and from `i` on CPU `x` keeps its process. */
  ghost predicate WorksThrough(states: seq<State>, events: seq<Event>, i: nat, j: nat, x: int)
    requires |states| == |events| + 1 && i <= j <= |events|
  {
    && (forall k :: 0 <= k < j ==> Truthful(states[k], events[k]) && !Misplaces(states[k], events[k]))
    && (forall k :: i <= k < j ==> Works(states[k], events[k], x))
  }

  /**
   A process was sent to CPU `x` in state `i`, which then counts `c`. As long as its reports have not used up the
   quantum, the process is still there and all its reports have been counted.
   */
  lemma {:induction false} SliceGoesOn(states: seq<State>, events: seq<Event>, i: nat, j: nat, x: int, pid: int, c: int)
    requires IsRun(states, events) && i <= j <= |events| && WorksThrough(states, events, i, j, x)
    requires states[0].algorithm.RoundRobin?
    requires CpuOf(states[i].cpus, x) == Cpu(pid, c, 0) && 0 < On(states[i].busy, x)
    requires var n := Reports(events, i, j, x); n == 0 || c + n <= states[0].quantum
    ensures var n := Reports(events, i, j, x);
            CpuOf(states[j].cpus, x) == Cpu(pid, c + n, n) && 0 < On(states[j].busy, x)
    decreases j
  {
    if i == j {
    } else {
      SliceGoesOn(states, events, i, j - 1, x, pid, c);
      SliceStep(states, events, i, j - 1, x, pid, c);
    }
  }

  lemma {:induction false} RunSetting(states: seq<State>, events: seq<Event>, i: nat)
    requires IsRun(states, events) && i <= |events|
    ensures SameSetting(states[0], states[i])
  {
    if i == 0 {
    } else {
      RunSetting(states, events, i - 1);
      RunStepSetting(states, events, i - 1);
    }
  }

  lemma RunStepSetting(states: seq<State>, events: seq<Event>, i: nat)
    requires IsRun(states, events) && i < |events|
    ensures SameSetting(states[i], states[i + 1])
  {
    RunStep(states, events, i);
    StepSetting(states[i], events[i]);
  }

  /** The algorithm and its quantum are settled at the start. */
  ghost predicate SameSetting(s: State, t: State) {
    t.quantum == s.quantum && t.algorithm == s.algorithm
  }

  lemma PlannedSetting(s: State)
    ensures SameSetting(s, Planned(s)) && SameSetting(s, PlannedIfReady(s))
  {
  }

  lemma PromotedSetting(s: State, admitted: bool)
    ensures SameSetting(s, Promoted(s, admitted))
  {
    if s.news != [] && admitted { PlannedSetting(NewToReady(s.(news := s.news[1..]), s.news[0].pid)); }
  }

  lemma EndedSetting(s: State, socket: int, pid: int, admitted: bool)
    ensures SameSetting(s, CpuFreed(Promoted(RunningToFinished(s, pid), admitted), socket))
  {
    RunningEndsKeepsCpus(s, pid);
    PromotedSetting(RunningToFinished(s, pid), admitted);
  }

  lemma {:induction false} AdmittedSetting(s: State, answers: seq<bool>)
    ensures SameSetting(s, Admitted(s, answers))
    decreases |answers|
  {
    if answers == [] || s.degree <= s.count {
    } else {
      PromotedSetting(s, answers[0]);
      AdmittedSetting(Promoted(s, answers[0]), answers[1..]);
    }
  }

  lemma SentenceSetting(s: State, socket: int, pid: int, admitted: bool)
    ensures SameSetting(s, SentenceDone(s, socket, pid, admitted))
  {
    if CpuOf(s.cpus, socket).pid in s.doomed {
      EndedSetting(s.(doomed := Drop(s.doomed, CpuOf(s.cpus, socket).pid)), socket, pid, admitted);
    } else {
      GoesOnSetting(s, socket, pid);
    }
  }

  lemma GoesOnSetting(s: State, socket: int, pid: int)
    ensures SameSetting(s, GoesOn(s, socket, pid))
  {
  }

  lemma WaitSetting(s: State, socket: int, pid: int, name: string, admitted: bool)
    ensures SameSetting(s, Waited(s, socket, pid, name, admitted))
  {
    var k := FindSemaphore(s.semaphores, name);
    if MustWait(s, name) {
      var t := Changed(s, k, -1);
      if pid in s.doomed {
        EndedSetting(t.(doomed := Drop(t.doomed, pid)), socket, pid, admitted);
        PlannedSetting(KilledWaiting(t, k, socket, pid, admitted));
      } else {
        PlannedSetting(MadeToWait(t, k, socket, pid));
      }
    }
  }

  lemma SignalSetting(s: State, name: string)
    ensures SameSetting(s, Signalled(s, name))
  {
    var k := FindSemaphore(s.semaphores, name);
    if k < |s.semaphores| {
      var t := Changed(s, k, 1);
      var i := FindWaiter(t.blocked, t.waits, t.semaphores[k].name);
      if i < |t.blocked| {
        PlannedSetting(BlockedToReady(t, t.blocked[i].pid).(waits := t.waits[t.blocked[i].pid := ""]));
      }
    }
  }

  lemma ExitSetting(s: State, socket: int, pid: int, admitted: bool)
    ensures SameSetting(s, Exited(s, socket, pid, admitted)) && SameSetting(s, Aborted(s, socket, pid, admitted))
  {
    var t := EndedOnCpu(s, socket, pid);
    RunningEndsKeepsCpus(s, pid);
    PromotedSetting(t, admitted);
    PlannedSetting(Promoted(t, admitted));
  }

  lemma StepSetting(s: State, e: Event)
    requires Possible(s, e)
    ensures SameSetting(s, Step(s, e))
  {
    match e
    case Start(admitted) => PlannedSetting(Arrived(s, admitted));
    case Connect(_, _) =>
    case Handshake => PlannedSetting(s);
    case Sentence(socket, pid, admitted) => SentenceSetting(s, socket, pid, admitted);
    case Wait(socket, pid, name, admitted) => WaitSetting(s, socket, pid, name, admitted);
    case Signal(name) => SignalSetting(s, name);
    case Exit(socket, pid, admitted) => ExitSetting(s, socket, pid, admitted);
    case Abort(socket, pid, admitted) => ExitSetting(s, socket, pid, admitted);
    case Oversized(socket) => RunningEndsKeepsCpus(s, CpuOf(s.cpus, socket).pid);
    case ConsoleAbort(pid) => AbortedKeepsCpus(s, pid);
    case Kill(pid) => KilledKeepsCpus(s, pid);
    case SetDegree(degree, answers) => AdmittedSetting(s.(degree := degree), answers);
  }

  lemma SliceStep(states: seq<State>, events: seq<Event>, i: nat, j: nat, x: int, pid: int, c: int)
    requires IsRun(states, events) && i <= j < |events| && WorksThrough(states, events, i, j + 1, x)
    requires states[0].algorithm.RoundRobin?
    requires var n := Reports(events, i, j, x);
             CpuOf(states[j].cpus, x) == Cpu(pid, c + n, n) && 0 < On(states[j].busy, x)
    requires var n := Reports(events, i, j + 1, x); n == 0 || c + n <= states[0].quantum
    ensures var n := Reports(events, i, j + 1, x);
            CpuOf(states[j + 1].cpus, x) == Cpu(pid, c + n, n) && 0 < On(states[j + 1].busy, x)
  {
    RunKeepsCpus(states, events, j);
    RunIsGenuine(states, events, j);
    RunStep(states, events, j);
    RunSetting(states, events, j);
    CountsOn(states[j], events[j], x);
  }

  /** One event: a report of the CPU counts, unless it ends the quantum; any other leaves the CPU alone. */
  lemma CountsOn(s: State, e: Event, x: int)
    requires InOrder(s) && Possible(s, e) && GenuineEvent(s, e) && Works(s, e, x) && 0 < On(s.busy, x)
    requires s.algorithm.RoundRobin?
    ensures var cpu, t := CpuOf(s.cpus, x), Step(s, e);
            if !Concerns(s, e, x) then CpuOf(t.cpus, x) == cpu && 0 < On(t.busy, x)
            else if cpu.quantum < s.quantum then
              CpuOf(t.cpus, x) == Cpu(cpu.pid, cpu.quantum + 1, cpu.reported + 1) && t.busy == s.busy
            else QuantumOver(s, x)
  {
    assert On(s.idle, x) + On(s.busy, x) <= 1;
    if Concerns(s, e, x) {
      ScannedFound(s.busy, x);
      if CpuOf(s.cpus, x).quantum < s.quantum { GoesOnCounts(s, x, e.pid, e.admitted); }
    } else {
      StepUndisturbed(s, e, x);
    }
  }

  /**
   A process that starts with a counter of one, and does not wait, exit, abort and is not killed, is switched with the
   report that makes as many as the quantum, and not before. In general it is the report that makes, with the counter
   it started from, one more than the quantum.
   */
  lemma SwitchedInTurn(states: seq<State>, events: seq<Event>, i: nat, j: nat, x: int, pid: int, c: int)
    requires IsRun(states, events) && i <= j < |events| && WorksThrough(states, events, i, j, x)
    requires states[0].algorithm.RoundRobin? && Truthful(states[j], events[j])
    requires CpuOf(states[i].cpus, x) == Cpu(pid, c, 0) && 0 < On(states[i].busy, x)
    requires var n := Reports(events, i, j, x); n == 0 || c + n <= states[0].quantum
    requires events[j].Sentence? && events[j].socket == x && pid !in states[j].doomed
    ensures events[j].pid == pid
    ensures QuantumOver(states[j], x) <==> states[0].quantum <= c + Reports(events, i, j, x)
    ensures QuantumOver(states[j], x) ==>
              var next := if states[j].ready == [] then pid else states[j].ready[0].pid;
              states[j + 1].cpus == states[j].cpus[x := Cpu(next, 1, 0)]
  {
    SliceGoesOn(states, events, i, j, x, pid, c);
    RunIsGenuine(states, events, j);
    RunSetting(states, events, j);
    RunStep(states, events, j);
    ScannedFound(states[j].busy, x);
    if QuantumOver(states[j], x) { SwitchStarts(states[j], x, pid, events[j].admitted); }
  }

  /** So one that starts with a counter of one has the whole quantum. */
  lemma WholeQuantum(states: seq<State>, events: seq<Event>, i: nat, j: nat, x: int, pid: int)
    requires IsRun(states, events) && i <= j < |events| && WorksThrough(states, events, i, j, x)
    requires states[0].algorithm.RoundRobin? && Truthful(states[j], events[j])
    requires CpuOf(states[i].cpus, x) == Cpu(pid, 1, 0) && 0 < On(states[i].busy, x)
    requires Reports(events, i, j, x) < states[0].quantum
    requires events[j].Sentence? && events[j].socket == x && pid !in states[j].doomed
    ensures QuantumOver(states[j], x) <==> Reports(events, i, j + 1, x) == states[0].quantum
  {
    SwitchedInTurn(states, events, i, j, x, pid, 1);
  }
}
