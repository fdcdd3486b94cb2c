/** What holds after any sequence of messages and commands. */
module SchedulingRuns {
  import opened Scheduling
  import opened SchedulingCensus
  import opened SchedulingSemaphores
  import opened SchedulingCpus
  import opened SchedulingQuantum
  import opened SchedulingExecution
  import opened SchedulingOrder

  // ---------------------------------------------------------------- the level of multiprogramming

  lemma PromotedCount(s: State, admitted: bool)
    ensures Promoted(s, admitted).degree == s.degree
    ensures Promoted(s, admitted).count == s.count + if s.news != [] && admitted then 1 else 0
  {
  }

  lemma {:induction false} AdmittedCount(s: State, answers: seq<bool>)
    ensures Admitted(s, answers).degree == s.degree
    ensures s.count <= s.degree ==> Admitted(s, answers).count <= s.degree
    ensures s.count > s.degree ==> Admitted(s, answers).count == s.count
    decreases |answers|
  {
    if answers == [] || s.degree <= s.count {
    } else {
      PromotedCount(s, answers[0]);
      AdmittedCount(Promoted(s, answers[0]), answers[1..]);
    }
  }

  /**
   A process takes the place of one that had already been counted out, or the level is lowered below what is
   there.
   */
  predicate Overflows(s: State, e: Event) {
    match e
    case Abort(_, pid, admitted) => !In(s.running, pid) && s.news != [] && admitted && s.count == s.degree
    case SetDegree(degree, _) => degree < s.count
    case _ => false
  }

  lemma PlannedCount(s: State)
    ensures Planned(s).count == s.count && Planned(s).degree == s.degree
  {
  }

  lemma StartedCount(s: State, admitted: bool)
    ensures Started(s, admitted).degree == s.degree
    ensures Started(s, admitted).count == s.count + if s.count < s.degree && admitted then 1 else 0
  {
    PlannedCount(Arrived(s, admitted));
    ArrivedCount(s, admitted);
  }

  lemma ArrivedCount(s: State, admitted: bool)
    ensures Arrived(s, admitted).degree == s.degree
    ensures Arrived(s, admitted).count == s.count + if s.count < s.degree && admitted then 1 else 0
  {
    if s.count < s.degree { InSnoc(s.ready, Pcb(s.maxPid + 1, Ready), s.maxPid + 1); }
  }

  lemma RunningEndsCount(s: State, pid: int)
    ensures RunningToFinished(s, pid).count == s.count - if In(s.running, pid) then 1 else 0
    ensures RunningToFinished(s, pid).degree == s.degree && RunningToFinished(s, pid).news == s.news
  {
  }

  lemma WaitCount(s: State, socket: int, pid: int, name: string, admitted: bool)
    requires In(s.running, pid)
    ensures Waited(s, socket, pid, name, admitted).degree == s.degree
    ensures Waited(s, socket, pid, name, admitted).count <= s.count
  {
    var k := FindSemaphore(s.semaphores, name);
    if MustWait(s, name) {
      var t := Changed(s, k, -1);
      if pid in s.doomed {
        KilledWaitingCount(t, k, socket, pid, admitted);
      } else {
        PlannedCount(MadeToWait(t, k, socket, pid));
      }
    }
  }

  lemma KilledWaitingCount(s: State, k: nat, socket: int, pid: int, admitted: bool)
    requires In(s.running, pid) && k < |s.semaphores|
    ensures var t := PlannedIfReady(KilledWaiting(s, k, socket, pid, admitted));
            t.degree == s.degree && t.count <= s.count
  {
    var t0 := s.(doomed := Drop(s.doomed, pid));
    RunningEndsCount(t0, pid);
    PromotedCount(RunningToFinished(t0, pid), admitted);
    PlannedCount(KilledWaiting(s, k, socket, pid, admitted));
  }

  lemma SentenceCount(s: State, socket: int, pid: int, admitted: bool)
    requires In(s.running, pid)
    ensures SentenceDone(s, socket, pid, admitted).degree == s.degree
    ensures SentenceDone(s, socket, pid, admitted).count <= s.count
  {
    if CpuOf(s.cpus, socket).pid in s.doomed {
      KilledOnCpuCount(s, socket, pid, admitted);
    } else {
      GoesOnCount(s, socket, pid);
    }
  }

  lemma KilledOnCpuCount(s: State, socket: int, pid: int, admitted: bool)
    requires In(s.running, pid)
    ensures KilledOnCpu(s, socket, pid, admitted).degree == s.degree
    ensures KilledOnCpu(s, socket, pid, admitted).count <= s.count
  {
    var t0 := s.(doomed := Drop(s.doomed, CpuOf(s.cpus, socket).pid));
    RunningEndsCount(t0, pid);
    PromotedCount(RunningToFinished(t0, pid), admitted);
  }

  lemma GoesOnCount(s: State, socket: int, pid: int)
    ensures GoesOn(s, socket, pid).degree == s.degree && GoesOn(s, socket, pid).count == s.count
  {
  }

  lemma ExitCount(s: State, socket: int, pid: int, admitted: bool)
    ensures Exited(s, socket, pid, admitted).degree == s.degree && Aborted(s, socket, pid, admitted).degree == s.degree
    ensures var count := s.count - (if In(s.running, pid) then 1 else 0) + (if s.news != [] && admitted then 1 else 0);
            Exited(s, socket, pid, admitted).count == count && Aborted(s, socket, pid, admitted).count == count
  {
    var t := CpuFreed(CpuReset(RunningToFinished(s, pid), socket), socket);
    RunningEndsCount(s, pid);
    PromotedCount(t, admitted);
    PlannedCount(Promoted(t, admitted));
  }

  lemma KilledCount(s: State, pid: int)
    ensures Killed(s, pid).degree == s.degree && Killed(s, pid).count <= s.count
  {
    KilledFromCount(s, pid, StatusOf(s, pid));
  }

  lemma KilledFromCount(s: State, pid: int, status: Status)
    ensures KilledFrom(s, pid, status).degree == s.degree && KilledFrom(s, pid, status).count <= s.count
  {
  }

  lemma AbortedCount(s: State, pid: int)
    ensures AbortedByConsole(s, pid).degree == s.degree && AbortedByConsole(s, pid).count <= s.count
  {
    ToFinishedCount(s, pid, StatusOf(s, pid));
  }

  lemma ToFinishedCount(s: State, pid: int, status: Status)
    ensures ToFinished(s, pid, status).degree == s.degree && ToFinished(s, pid, status).count <= s.count
  {
    match status {
      case New => case Ready => case Running => case Blocked => case Finished =>
    }
  }

  lemma CpuStepBounded(s: State, e: Event)
    requires FromCpu(e) && Possible(s, e) && s.count <= s.degree
    ensures Step(s, e).count <= Step(s, e).degree <==> !Overflows(s, e)
  {
    match e
    case Sentence(socket, pid, admitted) => SentenceCount(s, socket, pid, admitted);
    case Wait(socket, pid, name, admitted) => WaitCount(s, socket, pid, name, admitted);
    case Exit(socket, pid, admitted) => ExitCount(s, socket, pid, admitted);
    case Abort(socket, pid, admitted) => ExitCount(s, socket, pid, admitted);
    case _ =>
  }

  /** A step keeps the number of processes within the level of multiprogramming unless it is one of those two. */
  lemma StepBounded(s: State, e: Event)
    requires Possible(s, e) && s.count <= s.degree
    ensures Step(s, e).count <= Step(s, e).degree <==> !Overflows(s, e)
  {
    if FromCpu(e) {
      CpuStepBounded(s, e);
    } else {
      match e
      case Start(admitted) => StartedCount(s, admitted);
      case Handshake => PlannedCount(s);
      case Oversized(socket) => RunningEndsCount(s, s.cpus[socket].pid);
      case ConsoleAbort(pid) => AbortedCount(s, pid);
      case Kill(pid) => KilledCount(s, pid);
      case SetDegree(degree, answers) => AdmittedCount(s.(degree := degree), answers);
      case _ =>
    }
  }

  // ---------------------------------------------------------------- the unset pointer

  /** Under round robin a sentence is reported while no CPU is listed as busy, and no kill is due. */
  predicate Faults(s: State, e: Event) {
    e.Sentence? && s.algorithm.RoundRobin? && s.busy == [] && CpuOf(s.cpus, e.socket).pid !in s.doomed
  }

  lemma PlannedFault(s: State)
    ensures Planned(s).faulted == s.faulted
  {
  }

  lemma PromotedFault(s: State, admitted: bool)
    ensures Promoted(s, admitted).faulted == s.faulted
  {
    if s.news != [] { PlannedFault(NewToReady(s.(news := s.news[1..]), s.news[0].pid)); }
  }

  lemma {:induction false} AdmittedFault(s: State, answers: seq<bool>)
    ensures Admitted(s, answers).faulted == s.faulted
    decreases |answers|
  {
    if answers == [] || s.degree <= s.count {
    } else {
      PromotedFault(s, answers[0]);
      AdmittedFault(Promoted(s, answers[0]), answers[1..]);
    }
  }

  lemma WaitFault(s: State, socket: int, pid: int, name: string, admitted: bool)
    ensures Waited(s, socket, pid, name, admitted).faulted == s.faulted
  {
    var k := FindSemaphore(s.semaphores, name);
    if MustWait(s, name) {
      var t := Changed(s, k, -1);
      if pid in s.doomed {
        KilledWaitingFault(t, k, socket, pid, admitted);
        PlannedFault(KilledWaiting(t, k, socket, pid, admitted));
      } else {
        PlannedFault(MadeToWait(t, k, socket, pid));
      }
    }
  }

  lemma KilledWaitingFault(s: State, k: nat, socket: int, pid: int, admitted: bool)
    requires k < |s.semaphores|
    ensures KilledWaiting(s, k, socket, pid, admitted).faulted == s.faulted
  {
    var t := s.(doomed := Drop(s.doomed, pid));
    RunningEndsKeepsCpus(t, pid);
    PromotedFault(RunningToFinished(t, pid), admitted);
  }

  lemma ExitFault(s: State, socket: int, pid: int, admitted: bool)
    ensures Exited(s, socket, pid, admitted).faulted == Aborted(s, socket, pid, admitted).faulted == s.faulted
  {
    var t := CpuFreed(CpuReset(RunningToFinished(s, pid), socket), socket);
    RunningEndsKeepsCpus(s, pid);
    PromotedFault(t, admitted);
    PlannedFault(Promoted(t, admitted));
  }

  lemma SentenceFault(s: State, socket: int, pid: int, admitted: bool)
    ensures SentenceDone(s, socket, pid, admitted).faulted
            == (s.faulted || Faults(s, Sentence(socket, pid, admitted)))
  {
    if CpuOf(s.cpus, socket).pid in s.doomed {
      KilledOnCpuFault(s, socket, pid, admitted);
    } else if s.algorithm.RoundRobin? && s.busy != [] {
      QuantumFault(s, socket, pid);
    }
  }

  lemma KilledOnCpuFault(s: State, socket: int, pid: int, admitted: bool)
    ensures KilledOnCpu(s, socket, pid, admitted).faulted == s.faulted
  {
    var t := s.(doomed := Drop(s.doomed, CpuOf(s.cpus, socket).pid));
    RunningEndsKeepsCpus(t, pid);
    PromotedFault(RunningToFinished(t, pid), admitted);
  }

  lemma QuantumFault(s: State, socket: int, pid: int)
    requires s.busy != []
    ensures QuantumChecked(s, socket, pid).faulted == s.faulted
  {
  }

  /** The pointer is used unset in exactly those steps. */
  lemma StepFaults(s: State, e: Event)
    requires Possible(s, e) && !s.faulted
    ensures Step(s, e).faulted <==> Faults(s, e)
  {
    match e
    case Start(admitted) => PlannedFault(Arrived(s, admitted));
    case Handshake => PlannedFault(s);
    case Sentence(socket, pid, admitted) => SentenceFault(s, socket, pid, admitted);
    case Oversized(socket) => RunningEndsKeepsCpus(s, CpuOf(s.cpus, socket).pid);
    case ConsoleAbort(pid) => AbortedKeepsCpus(s, pid);
    case Kill(pid) => KilledKeepsCpus(s, pid);
    case Wait(socket, pid, name, admitted) => WaitFault(s, socket, pid, name, admitted);
    case Exit(socket, pid, admitted) => ExitFault(s, socket, pid, admitted);
    case Abort(socket, pid, admitted) => ExitFault(s, socket, pid, admitted);
    case SetDegree(degree, answers) => AdmittedFault(s.(degree := degree), answers);
    case _ =>
  }

  // ---------------------------------------------------------------- runs

  ghost predicate Initial(s: State) {
    && s.news == s.ready == s.running == s.blocked == s.finished == []
    && s.idle == s.busy == [] && s.cpus == map[] && s.waits == map[] && s.doomed == [] && s.sent == []
    && s.executing == map[] && s.count == 0 && s.maxPid == 0 && 0 <= s.degree && !s.faulted
    && Named(s.semaphores) && forall k :: 0 <= k < |s.semaphores| ==> 0 <= s.semaphores[k].value
  }

  /** The kernel handles a message; after a fault it handles none. */
  ghost predicate Handles(s: State, e: Event, t: State) {
    !s.faulted && Possible(s, e) && t == Step(s, e)
  }

  ghost predicate HandlesAt(states: seq<State>, events: seq<Event>, i: nat)
    requires |states| == |events| + 1 && i < |events|
  {
    Handles(states[i], events[i], states[i + 1])
  }

  ghost predicate IsRun(states: seq<State>, events: seq<Event>) {
    && |states| == |events| + 1 && Initial(states[0])
    && forall i: nat {:trigger HandlesAt(states, events, i)} :: i < |events| ==> HandlesAt(states, events, i)
  }

  lemma RunStep(states: seq<State>, events: seq<Event>, i: nat)
    requires IsRun(states, events) && i < |events|
    ensures Handles(states[i], events[i], states[i + 1])
  {
    assert HandlesAt(states, events, i);
  }

  /** In every state of every run processes are in their places, counted, and the semaphore law holds. */
  lemma {:induction false} RunIsSafe(states: seq<State>, events: seq<Event>, i: nat)
    requires IsRun(states, events) && i <= |events|
    ensures Placed(states[i]) && SemaphoresLawful(states[i])
  {
    if i == 0 {
    } else {
      RunStep(states, events, i - 1);
      RunIsSafe(states, events, i - 1);
      StepPlaced(states[i - 1], events[i - 1]);
      StepLawful(states[i - 1], events[i - 1]);
    }
  }

  /** No process disappears as long as the memory server refuses none of those taken from the new ones. */
  lemma {:induction false} RunKeepsAll(states: seq<State>, events: seq<Event>, i: nat)
    requires IsRun(states, events) && i <= |events|
    requires forall j :: 0 <= j < i ==> !LosesProcess(states[j], events[j])
    ensures Present(states[i])
  {
    if i == 0 {
    } else {
      RunKeepsAll(states, events, i - 1);
      RunIsSafe(states, events, i - 1);
      RunStepKeepsAll(states, events, i - 1);
    }
  }

  lemma RunStepKeepsAll(states: seq<State>, events: seq<Event>, i: nat)
    requires IsRun(states, events) && i < |events| && Placed(states[i]) && Present(states[i])
    requires !LosesProcess(states[i], events[i])
    ensures Present(states[i + 1])
  {
    RunStep(states, events, i);
    StepPlaced(states[i], events[i]);
  }

  lemma {:induction false} RunIsBounded(states: seq<State>, events: seq<Event>, i: nat)
    requires IsRun(states, events) && i <= |events|
    requires forall j :: 0 <= j < i ==> !Overflows(states[j], events[j])
    ensures states[i].count <= states[i].degree
  {
    if i == 0 {
    } else {
      RunStep(states, events, i - 1);
      RunIsBounded(states, events, i - 1);
      StepBounded(states[i - 1], events[i - 1]);
    }
  }

  /** The lists of CPUs agree with the processes, with the quanta and with what the CPUs really run. */
  ghost predicate InOrder(s: State) {
    CpusConsistent(s) && Timed(s) && Executes(s)
  }

  lemma StepKeepsCpus(s: State, e: Event)
    requires InOrder(s) && Placed(s) && Possible(s, e) && Truthful(s, e) && !Misplaces(s, e)
    ensures InOrder(Step(s, e))
  {
    TruthfulGenuine(s, e);
    StepConsistent(s, e);
    StepTimed(s, e);
    StepExecutes(s, e);
  }

  lemma RunStepKeepsCpus(states: seq<State>, events: seq<Event>, i: nat)
    requires IsRun(states, events) && i < |events| && InOrder(states[i]) && Placed(states[i])
    requires Truthful(states[i], events[i]) && !Misplaces(states[i], events[i])
    ensures InOrder(states[i + 1])
  {
    RunStep(states, events, i);
    StepKeepsCpus(states[i], events[i]);
  }

  lemma InitialInOrder(s: State)
    requires Initial(s)
    ensures InOrder(s)
  {
  }

  /**
   CPUs report about what they run. While no process is killed at the end of a sentence with another one ready, CPUs
   and quanta are in order, and the working CPUs are those listed as busy.
   */
  lemma {:induction false} RunKeepsCpus(states: seq<State>, events: seq<Event>, i: nat)
    requires IsRun(states, events) && i <= |events|
    requires forall j :: 0 <= j < i ==> Truthful(states[j], events[j]) && !Misplaces(states[j], events[j])
    ensures InOrder(states[i])
  {
    if i == 0 {
      InitialInOrder(states[0]);
    } else {
      RunKeepsCpus(states, events, i - 1);
      RunIsSafe(states, events, i - 1);
      RunStepKeepsCpus(states, events, i - 1);
    }
  }

  /** In such a run every report comes from the list of the busy CPUs, about the process on record there. */
  lemma RunIsGenuine(states: seq<State>, events: seq<Event>, i: nat)
    requires IsRun(states, events) && i < |events| && Truthful(states[i], events[i])
    requires forall j :: 0 <= j < i ==> Truthful(states[j], events[j]) && !Misplaces(states[j], events[j])
    ensures GenuineEvent(states[i], events[i])
  {
    RunKeepsCpus(states, events, i);
    TruthfulGenuine(states[i], events[i]);
  }

  /** A fault comes only after a step that misplaces a CPU. */
  lemma {:induction false} RunFaultsLate(states: seq<State>, events: seq<Event>, i: nat)
    requires IsRun(states, events) && i <= |events| && states[i].faulted
    requires forall j :: 0 <= j < i ==> Truthful(states[j], events[j])
    ensures exists j :: 0 <= j < i - 1 && Misplaces(states[j], events[j])
  {
    if i != 0 {
      RunStep(states, events, i - 1);
      StepFaults(states[i - 1], events[i - 1]);
      if forall j :: 0 <= j < i - 1 ==> !Misplaces(states[j], events[j]) {
        RunIsGenuine(states, events, i - 1);
      }
    }
  }

  /** From any state of a run to any later one, a ready process has moved up, been sent in its turn, or been ended. */
  lemma {:induction false} RunServesInOrder(states: seq<State>, events: seq<Event>, i: nat, j: nat, pid: int)
    requires IsRun(states, events) && i <= j <= |events|
    ensures Advances(states[i], states[j], pid)
  {
    if j <= i {
    } else {
      RunServesInOrder(states, events, i, j - 1, pid);
      RunStepAdvances(states, events, j - 1, pid);
      AdvancesTwice(states[i], states[j - 1], states[j], pid);
    }
  }

  lemma RunStepAdvances(states: seq<State>, events: seq<Event>, i: nat, pid: int)
    requires IsRun(states, events) && i < |events|
    ensures Advances(states[i], states[i + 1], pid)
  {
    RunStep(states, events, i);
    StepAdvances(states[i], events[i], pid);
  }

  /** So after `k + 1` dispatches the process at position `k` has been sent or ended. */
  lemma ServedInTime(states: seq<State>, events: seq<Event>, i: nat, j: nat, pid: int)
    requires IsRun(states, events) && i <= j <= |events| && In(states[i].ready, pid)
    requires |states[i].sent| + Find(states[i].ready, pid) + 1 <= |states[j].sent|
    ensures In(states[j].finished, pid) ||
            SentWithin(states[j].sent, pid, |states[i].sent|, |states[i].sent| + Find(states[i].ready, pid))
  {
    RunServesInOrder(states, events, i, j, pid);
  }

  // ---------------------------------------------------------------- what goes wrong

  ghost predicate Reaches(s: State, events: seq<Event>, t: State) {
    exists states: seq<State> :: IsRun(states, events) && states[0] == s && states[|events|] == t
  }

  lemma ReachesNext(s: State, events: seq<Event>, t: State, e: Event, u: State)
    requires Reaches(s, events, t) && Handles(t, e, u)
    ensures Reaches(s, events + [e], u)
  {
    var states: seq<State> :| IsRun(states, events) && states[0] == s && states[|events|] == t;
    RunSnoc(states, events, e, u);
    var longer := states + [u];
    assert longer[0] == s && longer[|events + [e]|] == u;
  }

  lemma RunSnoc(states: seq<State>, events: seq<Event>, e: Event, t: State)
    requires IsRun(states, events) && Handles(states[|events|], e, t)
    ensures IsRun(states + [t], events + [e])
  {
    var longer, all := states + [t], events + [e];
    forall i: nat | i < |all|
      ensures HandlesAt(longer, all, i)
    {
      if i < |events| { StillHandles(states, events, e, t, i); }
    }
  }

  lemma StillHandles(states: seq<State>, events: seq<Event>, e: Event, t: State, i: nat)
    requires IsRun(states, events) && i < |events|
    ensures HandlesAt(states + [t], events + [e], i)
  {
    RunStep(states, events, i);
  }

  /** A first CPU connects. */
  lemma Connected(s: State, unset: int) returns (t: State)
    requires Initial(s)
    ensures t == s.(idle := [5], cpus := map[5 := Cpu(unset, 0, 0)]) && Reaches(s, [Connect(5, unset)], t)
  {
    t := s.(idle := [5], cpus := map[5 := Cpu(unset, 0, 0)]);
    assert s.idle + [5] == [5] && s.cpus[5 := Cpu(unset, 0, 0)] == map[5 := Cpu(unset, 0, 0)];
    assert Handles(s, Connect(5, unset), t);
    assert IsRun([s], []);
    assert Reaches(s, [], [s][0]);
    ReachesNext(s, [], s, Connect(5, unset), t);
    assert [] + [Connect(5, unset)] == [Connect(5, unset)];
  }

  /** The first process starts and runs. */
  lemma OneRuns(s0: State, events: seq<Event>, s: State, unset: int) returns (t: State)
    requires Reaches(s0, events, s)
    requires s.idle == [5] && s.busy == [] && s.news == s.ready == s.running == [] && !s.faulted
    requires s.count == 0 && s.maxPid == 0 && 1 <= s.degree && s.cpus == map[5 := Cpu(unset, 0, 0)]
    ensures Reaches(s0, events + [Start(true)], t)
    ensures t.running == [Pcb(1, Running)] && t.ready == t.news == [] && t.idle == [] && t.busy == [5] && !t.faulted
    ensures t.cpus == map[5 := Cpu(1, if s.algorithm.RoundRobin? then 1 else 0, 0)] && t.doomed == s.doomed
    ensures t.count == 1 && t.maxPid == 1 && t.degree == s.degree && t.algorithm == s.algorithm
  {
    t := Step(s, Start(true));
    var u := Arrived(s, true);
    assert u.ready == [Pcb(1, Ready)] && u.idle == [5] && u.count == 1;
    assert t == Planned(u);
    assert Leave(u.ready, 1) == [] && Join(u.running, u.ready, 1, Running) == [Pcb(1, Running)];
    ReachesNext(s0, events, s, Start(true), t);
  }

  // ---------------------------------------------------------------- more processes than the level allows

  lemma OneWaits(s0: State, events: seq<Event>, s: State) returns (t: State)
    requires Reaches(s0, events, s)
    requires s.running == [Pcb(1, Running)] && s.ready == s.news == [] && s.idle == [] && !s.faulted
    requires s.count == 1 && s.maxPid == 1 && s.degree == 1
    ensures Reaches(s0, events + [Start(true)], t) && !t.faulted
    ensures t.running == s.running && t.news == [Pcb(2, New)] && t.ready == [] && t.idle == [] && t.cpus == s.cpus
    ensures t.count == 1 && t.degree == 1
  {
    t := Step(s, Start(true));
    ReachesNext(s0, events, s, Start(true), t);
  }

  lemma OneEnds(s0: State, events: seq<Event>, s: State) returns (t: State)
    requires Reaches(s0, events, s)
    requires s.running == [Pcb(1, Running)] && s.news == [Pcb(2, New)] && s.ready == [] && s.idle == [] && !s.faulted
    requires s.count == 1 && s.degree == 1 && 5 in s.cpus && s.cpus[5].pid == 1
    ensures Reaches(s0, events + [Oversized(5)], t) && !t.faulted
    ensures t.running == [] && t.news == s.news && t.ready == [] && t.idle == [] && t.cpus == s.cpus
    ensures t.count == 0 && t.degree == 1
  {
    t := Step(s, Oversized(5));
    RunningEndsCount(s, 1);
    RunningEndsKeepsCpus(s, 1);
    ReachesNext(s0, events, s, Oversized(5), t);
  }

  lemma AnotherIsReady(s0: State, events: seq<Event>, s: State) returns (t: State)
    requires Reaches(s0, events, s)
    requires s.running == [] && s.news == [Pcb(2, New)] && s.ready == [] && s.idle == [] && !s.faulted
    requires s.count == 0 && s.degree == 1
    ensures Reaches(s0, events + [Start(true)], t) && !t.faulted
    ensures t.running == [] && t.news == s.news && t.cpus == s.cpus && t.count == 1 && t.degree == 1
  {
    t := Step(s, Start(true));
    ReachesNext(s0, events, s, Start(true), t);
  }

  lemma OneMoreIsReady(s0: State, events: seq<Event>, s: State) returns (t: State)
    requires Reaches(s0, events, s)
    requires s.running == [] && s.news == [Pcb(2, New)] && !s.faulted && s.count == 1 && s.degree == 1 && 5 in s.cpus
    ensures Reaches(s0, events + [Abort(5, 1, true)], t) && t.count == 2 && t.degree == 1
  {
    t := Step(s, Abort(5, 1, true));
    ExitCount(s, 5, 1, true);
    ReachesNext(s0, events, s, Abort(5, 1, true), t);
  }

  /** A run of six messages with room for one process that ends with two. */
  lemma LevelExceeded(s: State, unset: int) returns (t: State)
    requires Initial(s) && s.degree == 1
    ensures Reaches(s, [Connect(5, unset), Start(true), Start(true), Oversized(5), Start(true), Abort(5, 1, true)], t)
    ensures t.count == 2 && t.degree == 1
  {
    var s1 := Connected(s, unset);
    var s2 := OneRuns(s, [Connect(5, unset)], s1, unset);
    var s3 := OneWaits(s, [Connect(5, unset)] + [Start(true)], s2);
    var s4 := OneEnds(s, [Connect(5, unset)] + [Start(true)] + [Start(true)], s3);
    var s5 := AnotherIsReady(s, [Connect(5, unset)] + [Start(true)] + [Start(true)] + [Oversized(5)], s4);
    t := OneMoreIsReady(s, [Connect(5, unset)] + [Start(true)] + [Start(true)] + [Oversized(5)] + [Start(true)], s5);
    assert [Connect(5, unset)] + [Start(true)] + [Start(true)] + [Oversized(5)] + [Start(true)] + [Abort(5, 1, true)]
        == [Connect(5, unset), Start(true), Start(true), Oversized(5), Start(true), Abort(5, 1, true)];
  }

  // ---------------------------------------------------------------- a CPU that works and is listed as idle

  lemma OneMoreReady(s0: State, events: seq<Event>, s: State) returns (t: State)
    requires Reaches(s0, events, s)
    requires s.running == [Pcb(1, Running)] && s.ready == s.news == [] && s.idle == [] && !s.faulted
    requires s.count == 1 && s.maxPid == 1 && s.degree == 2
    ensures Reaches(s0, events + [Start(true)], t) && !t.faulted
    ensures t.running == s.running && t.news == [] && t.ready == [Pcb(2, Ready)] && t.idle == [] && t.busy == s.busy
    ensures t.cpus == s.cpus && t.doomed == s.doomed && t.algorithm == s.algorithm
  {
    t := Step(s, Start(true));
    ReachesNext(s0, events, s, Start(true), t);
  }

  lemma OneFlagged(s0: State, events: seq<Event>, s: State) returns (t: State)
    requires Reaches(s0, events, s)
    requires s.running == [Pcb(1, Running)] && s.ready == [Pcb(2, Ready)] && s.doomed == [] && !s.faulted
    ensures Reaches(s0, events + [ConsoleAbort(1)], t) && t == s.(doomed := [1])
  {
    t := s.(doomed := [1]);
    assert StatusOf(s, 1) == Running by { assert s.ready[1..] == []; }
    assert s.doomed + [1] == [1];
    ReachesNext(s0, events, s, ConsoleAbort(1), t);
  }

  lemma OneKilled(s0: State, events: seq<Event>, s: State) returns (t: State)
    requires Reaches(s0, events, s)
    requires s.running == [Pcb(1, Running)] && s.ready == [Pcb(2, Ready)] && s.news == [] && s.idle == [] &&
             s.busy == [5]
    requires 5 in s.cpus && s.cpus[5].pid == 1 && s.doomed == [1] && !s.faulted
    ensures Reaches(s0, events + [Sentence(5, 1, true)], t) && !t.faulted && t.algorithm == s.algorithm
    ensures t.running == [Pcb(2, Running)] && t.ready == [] && t.idle == [5] && t.busy == [] && t.doomed == []
    ensures 5 in t.cpus && t.cpus[5].pid == 2 && !CpusConsistent(t) && 5 in t.executing && t.executing[5] == 2
  {
    t := Step(s, Sentence(5, 1, true));
    var calm := s.(doomed := []);
    var u := RunningToFinished(calm, 1);
    assert Drop([1], 1) == [] && Leave(s.running, 1) == [];
    assert u.running == [] && u.ready == s.ready && u.busy == [5] && u.idle == [] && u.cpus == s.cpus;
    RunningEndsKeepsCpus(calm, 1);
    assert Leave(u.ready, 2) == [] && Join(u.running, u.ready, 2, Running) == [Pcb(2, Running)];
    assert t == Dispatched(CpuFreed(u, 5), 5);
    assert In(t.running, 2) && Runs(t.busy, t.cpus, 2) == 0;
    assert In(s.running, 1);
    ReachesNext(s0, events, s, Sentence(5, 1, true), t);
  }

  lemma NoneListed(s0: State, events: seq<Event>, s: State) returns (t: State)
    requires Reaches(s0, events, s)
    requires s.running == [Pcb(2, Running)] && s.busy == [] && 5 in s.cpus && s.cpus[5].pid == 2 && s.doomed == []
    requires s.algorithm == RoundRobin && !s.faulted
    ensures Reaches(s0, events + [Sentence(5, 2, true)], t) && t.faulted
  {
    t := Step(s, Sentence(5, 2, true));
    StepFaults(s, Sentence(5, 2, true));
    ReachesNext(s0, events, s, Sentence(5, 2, true), t);
  }

  /**
   Two processes and one CPU, under round robin. The first is killed at the end of a sentence; the CPU runs the second
   and is listed as idle, and its next report makes the kernel use a pointer that was never set.
   */
  lemma UnsetPointerUsed(s: State, unset: int) returns (t: State, u: State)
    requires Initial(s) && s.degree == 2 && s.algorithm == RoundRobin
    ensures Reaches(s, [Connect(5, unset), Start(true), Start(true), ConsoleAbort(1), Sentence(5, 1, true)], t)
    ensures t.running == [Pcb(2, Running)] && t.busy == [] && t.idle == [5] && !CpusConsistent(t)
    ensures Truthful(t, Sentence(5, 2, true))
    ensures Reaches(s,
                    [Connect(5, unset), Start(true), Start(true), ConsoleAbort(1), Sentence(5, 1, true),
                     Sentence(5, 2, true)], u)
    ensures u.faulted
  {
    var s1 := Connected(s, unset);
    var s2 := OneRuns(s, [Connect(5, unset)], s1, unset);
    var s3 := OneMoreReady(s, [Connect(5, unset)] + [Start(true)], s2);
    var s4 := OneFlagged(s, [Connect(5, unset)] + [Start(true)] + [Start(true)], s3);
    t := OneKilled(s, [Connect(5, unset)] + [Start(true)] + [Start(true)] + [ConsoleAbort(1)], s4);
    assert [Connect(5, unset)] + [Start(true)] + [Start(true)] + [ConsoleAbort(1)] + [Sentence(5, 1, true)]
        == [Connect(5, unset), Start(true), Start(true), ConsoleAbort(1), Sentence(5, 1, true)];
    u := NoneListed(s, [Connect(5, unset), Start(true), Start(true), ConsoleAbort(1), Sentence(5, 1, true)], t);
    assert [Connect(5, unset), Start(true), Start(true), ConsoleAbort(1), Sentence(5, 1, true)] + [Sentence(5, 2, true)]
        == [Connect(5, unset), Start(true), Start(true), ConsoleAbort(1), Sentence(5, 1, true), Sentence(5, 2, true)];
  }
}
