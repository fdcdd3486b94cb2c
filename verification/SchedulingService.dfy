/** Who is served: no CPU is idle beside a ready process, no place in the system empty beside a new one. */
module SchedulingService {
  import opened Scheduling
  import opened SchedulingCensus
  import opened SchedulingCpus
  import opened SchedulingRuns

  // ---------------------------------------------------------------- CPUs

  /** No process is ready while a CPU is idle. */
  predicate Serving(s: State) {
    s.ready == [] || s.idle == []
  }

  /**
   The event leaves a process ready and a CPU idle: a CPU connects, and nobody plans for it; a process is aborted, which
   plans only for a process that is admitted; or a process is killed at the end of a sentence with others ready, and its
   CPU is listed as idle in any case.
   */
  predicate Strands(s: State, e: Event) {
    match e
    case Connect(_, _) => s.ready != []
    case Abort(_, _, admitted) => s.ready != [] && (s.news == [] || !admitted)
    case Sentence(socket, _, admitted) =>
      CpuOf(s.cpus, socket).pid in s.doomed && s.ready != [] && (1 < |s.ready| || (s.news != [] && admitted))
    case _ => false
  }

  lemma PlannedSides(s: State)
    ensures Planned(s).idle == if s.idle == [] then [] else s.idle[1..]
    ensures Planned(s).ready == if s.idle == [] || s.ready == [] then s.ready else s.ready[1..]
    ensures Planned(s).news == s.news && Planned(s).degree == s.degree && Planned(s).count == s.count
    ensures s.idle != [] && s.ready != [] ==>
              Planned(s).sent == s.sent + [s.ready[0].pid] && In(Planned(s).running, s.ready[0].pid)
  {
    if s.idle != [] && s.ready != [] {
      InSnoc(s.running, Pcb(s.ready[0].pid, Running), s.ready[0].pid);
    }
  }

  /** What a promotion does to the queues it concerns, with no CPU idle and with one. */
  lemma PromotedSides(s: State, admitted: bool)
    ensures var t := Promoted(s, admitted);
            if s.news == [] then t == s
            else if !admitted then t.ready == s.ready && t.idle == s.idle && t.sent == s.sent && t.running == s.running
            else if s.idle == [] then
              t.idle == [] && t.ready == s.ready + [Pcb(s.news[0].pid, Ready)] && t.sent == s.sent &&
              t.running == s.running
            else
              t.idle == s.idle[1..] && t.ready == (s.ready + [Pcb(s.news[0].pid, Ready)])[1..] &&
              var p := if s.ready == [] then s.news[0].pid else s.ready[0].pid;
              t.sent == s.sent + [p] && In(t.running, p)
  {
    if s.news != [] && admitted {
      PlannedSides(NewToReady(s.(news := s.news[1..]), s.news[0].pid));
    }
  }

  lemma RunningEndsSides(s: State, pid: int)
    ensures var t := RunningToFinished(s, pid);
            t.ready == s.ready && t.idle == s.idle && t.news == s.news && t.degree == s.degree && t.sent == s.sent
    ensures RunningToFinished(s, pid).count == s.count - if In(s.running, pid) then 1 else 0
  {
  }

  lemma StartServes(s: State, admitted: bool)
    requires Serving(s)
    ensures Serving(Started(s, admitted))
    ensures s.count < s.degree && admitted && s.idle != [] ==> In(Started(s, admitted).running, s.maxPid + 1)
  {
    var t := Arrived(s, admitted);
    if s.count < s.degree {
      InSnoc(s.ready, Pcb(s.maxPid + 1, Ready), s.maxPid + 1);
      if !admitted { LeaveLast(s.ready, s.maxPid + 1); }
    }
    PlannedSides(t);
  }

  /**
   A new process is ready or runs if the level leaves room and memory takes it, has ended if memory does not, and is new
   if the level is reached.
   */
  ghost predicate NewcomerGoes(s: State, admitted: bool, t: State) {
    var pid := s.maxPid + 1;
    t.maxPid == pid &&
    if s.count < s.degree then
      if admitted then In(t.ready, pid) || In(t.running, pid) else In(t.finished, pid) && t.news == s.news
    else t.news == s.news + [Pcb(pid, New)] && t.count == s.count
  }

  lemma StartGoes(s: State, admitted: bool)
    ensures NewcomerGoes(s, admitted, Started(s, admitted))
  {
    var pid := s.maxPid + 1;
    if s.count < s.degree {
      InSnoc(s.ready, Pcb(pid, Ready), pid);
      InSnoc(s.finished, Pcb(pid, Finished), pid);
    }
    PlannedKeepsIn(Arrived(s, admitted), pid);
  }

  /** Whoever is ready is ready or runs afterwards; the other queues stay. */
  lemma PlannedKeepsIn(s: State, pid: int)
    ensures In(s.ready, pid) ==> In(Planned(s).ready, pid) || In(Planned(s).running, pid)
    ensures Planned(s).finished == s.finished && Planned(s).news == s.news && Planned(s).count == s.count
    ensures Planned(s).maxPid == s.maxPid
  {
    if s.idle != [] && s.ready != [] {
      InSnoc(s.running, Pcb(s.ready[0].pid, Running), pid);
    }
  }

  /** What was put last is there to be taken out again. */
  lemma LeaveLast(q: seq<Pcb>, pid: int)
    ensures |Leave(q + [Pcb(pid, Ready)], pid)| == |q|
  {
    InSnoc(q, Pcb(pid, Ready), pid);
    LeaveSize(q + [Pcb(pid, Ready)], pid);
  }

  lemma SentenceServes(s: State, socket: int, pid: int, admitted: bool)
    requires Serving(s) && In(s.running, pid)
    ensures Serving(SentenceDone(s, socket, pid, admitted)) <==> !Strands(s, Sentence(socket, pid, admitted))
  {
    if CpuOf(s.cpus, socket).pid in s.doomed {
      var t0 := s.(doomed := Drop(s.doomed, CpuOf(s.cpus, socket).pid));
      RunningEndsSides(t0, pid);
      PromotedSides(RunningToFinished(t0, pid), admitted);
    } else if s.algorithm.RoundRobin? && s.busy != [] {
      SwitchServes(s, socket, pid);
    }
  }

  lemma SwitchServes(s: State, socket: int, pid: int)
    requires Serving(s) && In(s.running, pid) && s.busy != []
    ensures Serving(QuantumChecked(s, socket, pid))
  {
  }

  lemma WaitServes(s: State, socket: int, pid: int, name: string, admitted: bool)
    requires Serving(s)
    ensures Serving(Waited(s, socket, pid, name, admitted))
    ensures MustWait(s, name) && s.ready != [] ==>
              In(Waited(s, socket, pid, name, admitted).running, s.ready[0].pid)
  {
    var k := FindSemaphore(s.semaphores, name);
    if MustWait(s, name) {
      var t := Changed(s, k, -1);
      if pid in s.doomed {
        KilledWaitingServes(t, k, socket, pid, admitted);
      } else {
        PlannedSides(MadeToWait(t, k, socket, pid));
      }
    }
  }

  lemma KilledWaitingServes(s: State, k: nat, socket: int, pid: int, admitted: bool)
    requires Serving(s) && k < |s.semaphores|
    ensures var t := PlannedIfReady(KilledWaiting(s, k, socket, pid, admitted));
            Serving(t) && (s.ready != [] ==> In(t.running, s.ready[0].pid))
  {
    var t0 := s.(doomed := Drop(s.doomed, pid));
    RunningEndsSides(t0, pid);
    PromotedSides(RunningToFinished(t0, pid), admitted);
    PlannedSides(KilledWaiting(s, k, socket, pid, admitted));
  }

  lemma SignalServes(s: State, name: string)
    requires Serving(s)
    ensures Serving(Signalled(s, name))
  {
    var k := FindSemaphore(s.semaphores, name);
    if k < |s.semaphores| {
      var t := Changed(s, k, 1);
      var i := FindWaiter(t.blocked, t.waits, t.semaphores[k].name);
      if i < |t.blocked| {
        PlannedSides(BlockedToReady(t, t.blocked[i].pid).(waits := t.waits[t.blocked[i].pid := ""]));
      }
    }
  }

  lemma ExitServes(s: State, socket: int, pid: int, admitted: bool)
    requires Serving(s)
    ensures Serving(Exited(s, socket, pid, admitted))
    ensures s.ready != [] ==> In(Exited(s, socket, pid, admitted).running, s.ready[0].pid)
    ensures Serving(Aborted(s, socket, pid, admitted)) <==> !Strands(s, Abort(socket, pid, admitted))
  {
    var t := EndedOnCpu(s, socket, pid);
    RunningEndsSides(s, pid);
    PromotedSides(t, admitted);
    PlannedSides(Promoted(t, admitted));
  }

  lemma {:induction false} AdmittedServes(s: State, answers: seq<bool>)
    requires Serving(s)
    ensures Serving(Admitted(s, answers))
    decreases |answers|
  {
    if answers == [] || s.degree <= s.count {
    } else {
      PromotedSides(s, answers[0]);
      AdmittedServes(Promoted(s, answers[0]), answers[1..]);
    }
  }

  /** The queues that matter here lose at most some processes. */
  ghost predicate OnlyEnds(s: State, t: State) {
    t.idle == s.idle && t.degree == s.degree && (s.ready == [] ==> t.ready == []) && (s.news == [] ==> t.news == [])
  }

  lemma EndingServes(s: State, e: Event)
    requires (e.Oversized? || e.ConsoleAbort? || e.Kill?) && Possible(s, e)
    ensures OnlyEnds(s, Step(s, e))
  {
    match e
    case Oversized(socket) => RunningEndsSides(s, s.cpus[socket].pid);
    case ConsoleAbort(pid) => ToFinishedOnlyEnds(s, pid, StatusOf(s, pid));
    case Kill(pid) => KilledFromOnlyEnds(s, pid, StatusOf(s, pid));
    case _ =>
  }

  lemma ToFinishedOnlyEnds(s: State, pid: int, status: Status)
    ensures OnlyEnds(s, ToFinished(s, pid, status))
  {
    match status {
      case New => case Ready => case Running => case Blocked => case Finished =>
    }
  }

  lemma KilledFromOnlyEnds(s: State, pid: int, status: Status)
    ensures OnlyEnds(s, KilledFrom(s, pid, status))
  {
    match status {
      case New => case Ready => case Running => case Blocked => case Finished =>
    }
  }

  /** Which events keep the CPUs busy as long as a process is ready. */
  lemma StepServes(s: State, e: Event)
    requires Serving(s) && Possible(s, e)
    ensures Serving(Step(s, e)) <==> !Strands(s, e)
  {
    match e
    case Start(admitted) => StartServes(s, admitted);
    case Handshake => PlannedSides(s);
    case Sentence(socket, pid, admitted) => SentenceServes(s, socket, pid, admitted);
    case Wait(socket, pid, name, admitted) => WaitServes(s, socket, pid, name, admitted);
    case Signal(name) => SignalServes(s, name);
    case Exit(socket, pid, admitted) => ExitServes(s, socket, pid, admitted);
    case Abort(socket, pid, admitted) => ExitServes(s, socket, pid, admitted);
    case SetDegree(degree, answers) => AdmittedServes(s.(degree := degree), answers);
    case Connect(_, _) =>
    case _ => EndingServes(s, e);
  }

  /** The handshake makes up for the CPU that has just connected. */
  lemma HandshakeServes(s: State, socket: int, unset: int)
    requires Serving(s) && socket !in s.cpus
    ensures var t := Step(Step(s, Connect(socket, unset)), Handshake);
            Serving(t) && (s.ready != [] ==> In(t.running, s.ready[0].pid))
  {
    PlannedSides(Step(s, Connect(socket, unset)));
  }

  /** In a run without such events every state serves all that can be served. */
  lemma {:induction false} RunServes(states: seq<State>, events: seq<Event>, i: nat)
    requires IsRun(states, events) && i <= |events|
    requires forall j :: 0 <= j < i ==> !Strands(states[j], events[j])
    ensures Serving(states[i])
  {
    if i == 0 {
    } else {
      RunServes(states, events, i - 1);
      RunStepServes(states, events, i - 1);
    }
  }

  lemma RunStepServes(states: seq<State>, events: seq<Event>, i: nat)
    requires IsRun(states, events) && i < |events| && Serving(states[i]) && !Strands(states[i], events[i])
    ensures Serving(states[i + 1])
  {
    RunStep(states, events, i);
    StepServes(states[i], events[i]);
  }

  // ---------------------------------------------------------------- places in the system

  /** No process is new while the level leaves room. */
  predicate Filled(s: State) {
    s.news == [] || s.degree <= s.count
  }

  /** A new process is left, and the one that took the place of an ended one, if there is room for one, was refused. */
  predicate LeftOut(s: State, pid: int, admitted: bool) {
    1 < |s.news| && !admitted && s.count - (if In(s.running, pid) then 1 else 0) < s.degree
  }

  /** The event makes room that no new process is asked to take. */
  ghost predicate Vacates(s: State, e: Event) {
    match e
    case Sentence(socket, pid, admitted) => CpuOf(s.cpus, socket).pid in s.doomed && LeftOut(s, pid, admitted)
    case Wait(_, pid, name, admitted) => MustWait(s, name) && pid in s.doomed && LeftOut(s, pid, admitted)
    case Exit(_, pid, admitted) => LeftOut(s, pid, admitted)
    case Abort(_, pid, admitted) => LeftOut(s, pid, admitted)
    case Oversized(_) => s.news != [] && s.count == s.degree
    case ConsoleAbort(pid) => s.news != [] && s.count == s.degree && (In(s.ready, pid) || In(s.blocked, pid))
    case Kill(pid) =>
      s.news != [] && s.count == s.degree && !OnBusyCpu(s.busy, s.cpus, pid) &&
      (In(s.ready, pid) || In(s.blocked, pid))
    case _ => false
  }

  /** The new processes, and how many there are in the system, and may be. */
  ghost predicate Numbers(s: State, news: seq<Pcb>, count: int, degree: int) {
    s.news == news && s.count == count && s.degree == degree
  }

  /** A promotion takes the first new process away, and counts it if memory has room for it. */
  lemma PromotedTakes(s: State, admitted: bool)
    requires Placed(s)
    ensures Numbers(Promoted(s, admitted), if s.news == [] then [] else s.news[1..],
                    s.count + (if s.news != [] && admitted then 1 else 0), s.degree)
  {
    if s.news != [] {
      if admitted {
        PlannedSides(NewToReady(s.(news := s.news[1..]), s.news[0].pid));
      } else {
        PromotedLoses(s, admitted);
      }
    }
  }

  /** A process ends on a CPU and the first new one is promoted. */
  lemma ReplacedTakes(s: State, pid: int, admitted: bool)
    requires Placed(s)
    ensures Numbers(Promoted(RunningToFinished(s, pid), admitted), if s.news == [] then [] else s.news[1..],
                    s.count - (if In(s.running, pid) then 1 else 0) + (if s.news != [] && admitted then 1 else 0),
                    s.degree)
  {
    var t := RunningToFinished(s, pid);
    RunningToFinishedMoves(s, pid);
    MovedPlaced(s, t);
    RunningEndsSides(s, pid);
    PromotedTakes(t, admitted);
  }

  lemma ReplacedFills(s: State, pid: int, admitted: bool, t: State)
    requires Filled(s)
    requires Numbers(t, if s.news == [] then [] else s.news[1..],
                     s.count - (if In(s.running, pid) then 1 else 0) + (if s.news != [] && admitted then 1 else 0),
                     s.degree)
    ensures Filled(t) <==> !LeftOut(s, pid, admitted)
  {
  }

  lemma StartFills(s: State, admitted: bool)
    requires Filled(s)
    ensures Filled(Started(s, admitted))
    ensures Started(s, admitted).news
            == if s.count < s.degree then s.news else s.news + [Pcb(s.maxPid + 1, New)]
  {
    StartedCount(s, admitted);
    PlannedSides(Arrived(s, admitted));
  }

  lemma SentenceFills(s: State, socket: int, pid: int, admitted: bool)
    requires Filled(s) && Placed(s) && In(s.running, pid)
    ensures Filled(SentenceDone(s, socket, pid, admitted)) <==> !Vacates(s, Sentence(socket, pid, admitted))
  {
    if CpuOf(s.cpus, socket).pid in s.doomed {
      var t0 := s.(doomed := Drop(s.doomed, CpuOf(s.cpus, socket).pid));
      NothingMoved(s, t0);
      MovedPlaced(s, t0);
      ReplacedTakes(t0, pid, admitted);
      ReplacedFills(s, pid, admitted, KilledOnCpu(s, socket, pid, admitted));
    } else {
      GoesOnFills(s, socket, pid);
    }
  }

  lemma GoesOnFills(s: State, socket: int, pid: int)
    ensures Numbers(GoesOn(s, socket, pid), s.news, s.count, s.degree)
  {
  }

  lemma WaitFills(s: State, socket: int, pid: int, name: string, admitted: bool)
    requires Filled(s) && Placed(s)
    ensures Filled(Waited(s, socket, pid, name, admitted)) <==> !Vacates(s, Wait(socket, pid, name, admitted))
  {
    var k := FindSemaphore(s.semaphores, name);
    if MustWait(s, name) {
      var t := Changed(s, k, -1);
      if pid in s.doomed {
        NothingMoved(s, t);
        MovedPlaced(s, t);
        KilledWaitingFills(t, k, socket, pid, admitted);
      } else {
        PlannedSides(MadeToWait(t, k, socket, pid));
      }
    }
  }

  lemma KilledWaitingFills(s: State, k: nat, socket: int, pid: int, admitted: bool)
    requires Filled(s) && Placed(s) && k < |s.semaphores|
    ensures Filled(PlannedIfReady(KilledWaiting(s, k, socket, pid, admitted))) <==> !LeftOut(s, pid, admitted)
  {
    var t0, u := s.(doomed := Drop(s.doomed, pid)), KilledWaiting(s, k, socket, pid, admitted);
    NothingMoved(s, t0);
    MovedPlaced(s, t0);
    ReplacedTakes(t0, pid, admitted);
    PlannedSides(u);
    ReplacedFills(s, pid, admitted, PlannedIfReady(u));
  }

  lemma SignalFills(s: State, name: string)
    ensures Numbers(Signalled(s, name), s.news, s.count, s.degree)
  {
    var k := FindSemaphore(s.semaphores, name);
    if k < |s.semaphores| {
      var t := Changed(s, k, 1);
      var i := FindWaiter(t.blocked, t.waits, t.semaphores[k].name);
      if i < |t.blocked| {
        PlannedSides(BlockedToReady(t, t.blocked[i].pid).(waits := t.waits[t.blocked[i].pid := ""]));
      }
    }
  }

  lemma ExitFills(s: State, socket: int, pid: int, admitted: bool)
    requires Filled(s) && Placed(s)
    ensures Filled(Exited(s, socket, pid, admitted)) <==> !LeftOut(s, pid, admitted)
    ensures Filled(Aborted(s, socket, pid, admitted)) <==> !LeftOut(s, pid, admitted)
  {
    var t := EndedOnCpu(s, socket, pid);
    EndedOnCpuMoves(s, socket, pid);
    MovedPlaced(s, t);
    RunningEndsSides(s, pid);
    PromotedTakes(t, admitted);
    PlannedSides(Promoted(t, admitted));
    ReplacedFills(s, pid, admitted, Promoted(t, admitted));
  }

  /** The admission loop goes on until the level is reached or no new process is left. */
  lemma {:induction false} AdmittedFills(s: State, answers: seq<bool>)
    requires Placed(s) && |s.news| <= |answers|
    ensures Filled(Admitted(s, answers))
    decreases |answers|
  {
    if answers == [] || s.degree <= s.count {
    } else {
      PromotedTakes(s, answers[0]);
      PromotedPlaced(s, answers[0]);
      AdmittedFills(Promoted(s, answers[0]), answers[1..]);
    }
  }

  lemma EndingFills(s: State, e: Event)
    requires (e.Oversized? || e.ConsoleAbort? || e.Kill?) && Filled(s) && Placed(s) && Possible(s, e)
    ensures Filled(Step(s, e)) <==> !Vacates(s, e)
  {
    match e
    case Oversized(socket) => RunningEndsSides(s, s.cpus[socket].pid);
    case ConsoleAbort(pid) =>
      StatusTells(s, pid);
      OneQueue(s, pid);
      ToFinishedNumbers(s, pid, StatusOf(s, pid));
    case Kill(pid) =>
      StatusTells(s, pid);
      OneQueue(s, pid);
      KilledFromNumbers(s, pid, StatusOf(s, pid));
    case _ =>
  }

  lemma ToFinishedNumbers(s: State, pid: int, status: Status)
    ensures Numbers(ToFinished(s, pid, status), if status.New? then Leave(s.news, pid) else s.news,
                    s.count - (if (status.Ready? && In(s.ready, pid)) || (status.Running? && In(s.running, pid)) ||
                                  (status.Blocked? && In(s.blocked, pid)) then 1 else 0), s.degree)
  {
    match status {
      case New => case Ready => case Running => case Blocked => case Finished =>
    }
  }

  lemma KilledFromNumbers(s: State, pid: int, status: Status)
    ensures Numbers(KilledFrom(s, pid, status), if status.New? then Leave(s.news, pid) else s.news,
                    s.count - (if (status.Ready? && In(s.ready, pid)) || (status.Blocked? && In(s.blocked, pid))
                               then 1 else 0), s.degree)
  {
    match status {
      case New => case Ready => case Running => case Blocked => case Finished =>
    }
  }

  /** Which events leave no new process out as long as the level leaves room. */
  lemma StepFills(s: State, e: Event)
    requires Filled(s) && Placed(s) && Possible(s, e)
    ensures Filled(Step(s, e)) <==> !Vacates(s, e)
  {
    match e
    case Start(admitted) => StartFills(s, admitted);
    case Handshake => PlannedSides(s);
    case Sentence(socket, pid, admitted) => SentenceFills(s, socket, pid, admitted);
    case Wait(socket, pid, name, admitted) => WaitFills(s, socket, pid, name, admitted);
    case Signal(name) => SignalFills(s, name);
    case Exit(socket, pid, admitted) => ExitFills(s, socket, pid, admitted);
    case Abort(socket, pid, admitted) => ExitFills(s, socket, pid, admitted);
    case SetDegree(degree, answers) =>
      NothingMoved(s, s.(degree := degree));
      MovedPlaced(s, s.(degree := degree));
      AdmittedFills(s.(degree := degree), answers);
    case Connect(_, _) =>
    case _ => EndingFills(s, e);
  }

  /** In a run without such events no new process is left out. */
  lemma {:induction false} RunFills(states: seq<State>, events: seq<Event>, i: nat)
    requires IsRun(states, events) && i <= |events|
    requires forall j :: 0 <= j < i ==> !Vacates(states[j], events[j])
    ensures Filled(states[i])
  {
    if i == 0 {
    } else {
      RunFills(states, events, i - 1);
      RunIsSafe(states, events, i - 1);
      RunStepFills(states, events, i - 1);
    }
  }

  lemma RunStepFills(states: seq<State>, events: seq<Event>, i: nat)
    requires IsRun(states, events) && i < |events| && Filled(states[i]) && Placed(states[i])
    requires !Vacates(states[i], events[i])
    ensures Filled(states[i + 1])
  {
    RunStep(states, events, i);
    StepFills(states[i], events[i]);
  }

  // ---------------------------------------------------------------- the process a CPU reports about

  /** The CPU that the scan ends at has used up its quantum. */
  predicate QuantumOver(s: State, socket: int) {
    s.algorithm.RoundRobin? && s.busy != [] && s.quantum <= CpuOf(s.cpus, Scanned(s.busy, socket)).quantum
  }

  /**
   After a report: a process that was to be killed has ended at the end of its sentence, or when it had to wait, and its
   flag is gone; one
   whose quantum is over is ready behind all others; one that has to wait is blocked under the name of the semaphore;
   and one that exits or aborts has ended. Otherwise it goes on running.
   */
  ghost predicate Fate(s: State, e: Event, t: State) {
    match e
    case Sentence(socket, pid, _) =>
      if CpuOf(s.cpus, socket).pid in s.doomed then
        In(t.finished, pid) && t.doomed == Drop(s.doomed, CpuOf(s.cpus, socket).pid)
      else if QuantumOver(s, socket) then
        t.ready == (s.ready + [Pcb(pid, Ready)])[1..] &&
        In(t.running, if s.ready == [] then pid else s.ready[0].pid)
      else In(t.running, pid) && t.ready == s.ready
    case Wait(_, pid, name, _) =>
      var k := FindSemaphore(s.semaphores, name);
      if !MustWait(s, name) then In(t.running, pid) && t.ready == s.ready
      else if pid in s.doomed then In(t.finished, pid) && t.doomed == Drop(s.doomed, pid)
      else In(t.blocked, pid) && Waiting(t.waits, pid) == s.semaphores[k].name
    case Exit(_, pid, _) => In(t.finished, pid)
    case Abort(_, pid, _) => In(t.finished, pid)
    case _ => true
  }

  /** Who has finished stays so. */
  ghost predicate FinishedStay(s: State, t: State) {
    forall p :: In(s.finished, p) ==> In(t.finished, p)
  }

  lemma PromotedFinished(s: State, admitted: bool)
    ensures FinishedStay(s, Promoted(s, admitted))
  {
    if s.news != [] {
      var pid := s.news[0].pid;
      if admitted {
        assert Promoted(s, admitted).finished == s.finished;
      } else {
        forall p
          ensures In(s.finished, p) ==> In(Promoted(s, admitted).finished, p)
        {
          InSnoc(s.finished, Pcb(pid, Finished), p);
        }
      }
    }
  }

  /** The process ends, and what comes after does not bring it back. */
  lemma EndsThenPromoted(s: State, pid: int, admitted: bool)
    requires In(s.running, pid)
    ensures In(Promoted(RunningToFinished(s, pid), admitted).finished, pid)
    ensures Promoted(RunningToFinished(s, pid), admitted).doomed == s.doomed
  {
    var t := RunningToFinished(s, pid);
    InSnoc(s.finished, Pcb(pid, Finished), pid);
    PromotedFinished(t, admitted);
    assert t.doomed == s.doomed;
    PromotedFlags(t, admitted);
  }

  lemma PromotedFlags(s: State, admitted: bool)
    ensures Promoted(s, admitted).doomed == s.doomed
  {
  }

  lemma SentenceFate(s: State, socket: int, pid: int, admitted: bool)
    requires In(s.running, pid)
    ensures Fate(s, Sentence(socket, pid, admitted), SentenceDone(s, socket, pid, admitted))
  {
    if CpuOf(s.cpus, socket).pid in s.doomed {
      EndsThenPromoted(s.(doomed := Drop(s.doomed, CpuOf(s.cpus, socket).pid)), pid, admitted);
    } else if QuantumOver(s, socket) {
      SwitchFate(s, socket, pid);
    }
  }

  lemma SwitchFate(s: State, socket: int, pid: int)
    requires In(s.running, pid) && QuantumOver(s, socket)
    ensures QuantumChecked(s, socket, pid).ready == (s.ready + [Pcb(pid, Ready)])[1..]
    ensures In(QuantumChecked(s, socket, pid).running, if s.ready == [] then pid else s.ready[0].pid)
  {
    var head := if s.ready == [] then pid else s.ready[0].pid;
    InSnoc(Leave(s.running, pid), Pcb(head, Running), head);
  }

  lemma WaitFate(s: State, socket: int, pid: int, name: string, admitted: bool)
    requires In(s.running, pid)
    ensures Fate(s, Wait(socket, pid, name, admitted), Waited(s, socket, pid, name, admitted))
  {
    var k := FindSemaphore(s.semaphores, name);
    if MustWait(s, name) {
      var t := Changed(s, k, -1);
      if pid in s.doomed {
        KilledWaitingFate(t, k, socket, pid, admitted);
      } else {
        MadeToWaitFate(t, k, socket, pid);
      }
    }
  }

  lemma KilledWaitingFate(s: State, k: nat, socket: int, pid: int, admitted: bool)
    requires In(s.running, pid) && k < |s.semaphores|
    ensures var t := PlannedIfReady(KilledWaiting(s, k, socket, pid, admitted));
            In(t.finished, pid) && t.doomed == Drop(s.doomed, pid)
  {
    EndsThenPromoted(s.(doomed := Drop(s.doomed, pid)), pid, admitted);
    PlannedOthers(KilledWaiting(s, k, socket, pid, admitted));
  }

  lemma MadeToWaitFate(s: State, k: nat, socket: int, pid: int)
    requires In(s.running, pid) && k < |s.semaphores|
    ensures var t := PlannedIfReady(MadeToWait(s, k, socket, pid));
            In(t.blocked, pid) && Waiting(t.waits, pid) == s.semaphores[k].name
  {
    InSnoc(s.blocked, Pcb(pid, Blocked), pid);
    PlannedOthers(MadeToWait(s, k, socket, pid));
  }

  lemma PlannedOthers(s: State)
    ensures PlannedIfReady(s).finished == s.finished && PlannedIfReady(s).blocked == s.blocked
    ensures PlannedIfReady(s).waits == s.waits && PlannedIfReady(s).doomed == s.doomed
  {
  }

  lemma ExitFate(s: State, socket: int, pid: int, admitted: bool)
    requires In(s.running, pid)
    ensures In(Exited(s, socket, pid, admitted).finished, pid) && In(Aborted(s, socket, pid, admitted).finished, pid)
  {
    EndedOnCpuFate(s, socket, pid);
    PromotedFinished(EndedOnCpu(s, socket, pid), admitted);
    PlannedOthers(Promoted(EndedOnCpu(s, socket, pid), admitted));
  }

  lemma EndedOnCpuFate(s: State, socket: int, pid: int)
    requires In(s.running, pid)
    ensures In(EndedOnCpu(s, socket, pid).finished, pid)
  {
    InSnoc(s.finished, Pcb(pid, Finished), pid);
  }

  lemma StepFate(s: State, e: Event)
    requires FromCpu(e) && Possible(s, e) && In(s.running, e.pid)
    ensures Fate(s, e, Step(s, e))
  {
    match e
    case Sentence(socket, pid, admitted) => SentenceFate(s, socket, pid, admitted);
    case Wait(socket, pid, name, admitted) => WaitFate(s, socket, pid, name, admitted);
    case Exit(socket, pid, admitted) => ExitFate(s, socket, pid, admitted);
    case Abort(socket, pid, admitted) => ExitFate(s, socket, pid, admitted);
    case _ =>
  }
}
