/** What one message or command does to the laws of the scheduler, and to the process that it is meant to end. */
module SchedulingLaws {
  import opened Scheduling
  import opened SchedulingCensus
  import opened SchedulingSemaphores
  import opened SchedulingCpus
  import opened SchedulingQuantum
  import opened SchedulingExecution
  import opened SchedulingRuns
  import opened SchedulingService
  import opened SchedulingSlices

  /** From state `s` the event leads to `t`: what it keeps, and exactly when it does not. */
  ghost predicate Keeps(s: State, e: Event, t: State) {
    KeepsProcesses(s, e, t) && KeepsCpus(s, e, t)
  }

  ghost predicate KeepsProcesses(s: State, e: Event, t: State) {
    && Placed(t) && SemaphoresLawful(t)
    && (Present(s) ==> (Present(t) <==> !LosesProcess(s, e)))
    && (s.count <= s.degree ==> (t.count <= t.degree <==> !Overflows(s, e)))
    && (Filled(s) ==> (Filled(t) <==> !Vacates(s, e)))
    && (FromCpu(e) && In(s.running, e.pid) ==> Fate(s, e, t))
  }

  ghost predicate KeepsCpus(s: State, e: Event, t: State) {
    && (!s.faulted ==> (t.faulted <==> Faults(s, e)))
    && (Serving(s) ==> (Serving(t) <==> !Strands(s, e)))
    && (InOrder(s) && Truthful(s, e) ==> Timed(t) && (CpusConsistent(t) && Executes(t) <==> !Misplaces(s, e)))
  }

  lemma StepKeeps(s: State, e: Event)
    requires Placed(s) && SemaphoresLawful(s) && Possible(s, e)
    ensures Keeps(s, e, Step(s, e))
  {
    StepKeepsProcesses(s, e);
    StepKeepsCpus(s, e);
  }

  lemma StepKeepsProcesses(s: State, e: Event)
    requires Placed(s) && SemaphoresLawful(s) && Possible(s, e)
    ensures KeepsProcesses(s, e, Step(s, e))
  {
    StepPlaced(s, e);
    StepLawful(s, e);
    if s.count <= s.degree { StepBounded(s, e); }
    if Filled(s) { StepFills(s, e); }
    if FromCpu(e) && In(s.running, e.pid) { StepFate(s, e); }
  }

  lemma StepKeepsCpus(s: State, e: Event)
    requires Placed(s) && Possible(s, e)
    ensures KeepsCpus(s, e, Step(s, e))
  {
    if !s.faulted { StepFaults(s, e); }
    if Serving(s) { StepServes(s, e); }
    if InOrder(s) && Truthful(s, e) {
      TruthfulGenuine(s, e);
      StepConsistent(s, e);
      StepExecutes(s, e);
      StepTimed(s, e);
    }
  }

  // ---------------------------------------------------------------- a process that is to end

  /** A process that was in the system is finished, and nowhere else. */
  predicate Ended(s: State, pid: int, t: State) {
    Gone(t, pid) && (!Gone(s, pid) ==> In(t.finished, pid))
  }

  /** The process is flagged for the end of its next sentence or wait, or has ended. */
  predicate FlaggedOrEnded(s: State, pid: int, flagged: bool, t: State) {
    if flagged then t == s.(doomed := s.doomed + [pid]) else Ended(s, pid, t)
  }

  lemma QueuedEnds(s: State, pid: int)
    requires Placed(s)
    ensures In(s.news, pid) ==> Ended(s, pid, NewToFinished(s, pid))
    ensures In(s.ready, pid) ==> Ended(s, pid, ReadyToFinished(s, pid))
    ensures In(s.blocked, pid) ==> Ended(s, pid, BlockedToFinished(s, pid))
  {
    OneQueue(s, pid);
    InLeave(s.news, pid, pid);
    InLeave(s.ready, pid, pid);
    InLeave(s.blocked, pid, pid);
    InSnoc(s.finished, Pcb(pid, Finished), pid);
  }

  /** The console's abort flags a process exactly if it runs. */
  lemma AbortEnds(s: State, pid: int)
    requires Placed(s)
    ensures FlaggedOrEnded(s, pid, In(s.running, pid), AbortedByConsole(s, pid))
  {
    StatusTells(s, pid);
    OneQueue(s, pid);
    QueuedEnds(s, pid);
  }

  predicate KilledRightly(s: State, pid: int, t: State) {
    var onCpu := OnBusyCpu(s.busy, s.cpus, pid);
    if In(s.running, pid) && !onCpu then t == s else FlaggedOrEnded(s, pid, onCpu, t)
  }

  /** A kill flags a process exactly if a busy CPU has it; a running one that no such CPU has is left alone. */
  lemma KillEnds(s: State, pid: int)
    requires Placed(s)
    ensures KilledRightly(s, pid, Killed(s, pid))
  {
    StatusTells(s, pid);
    QueuedEnds(s, pid);
  }
}
