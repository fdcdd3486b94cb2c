/** How long a ready process waits: the queue is served in order. */
module SchedulingOrder {
  import opened Scheduling
  import opened SchedulingCensus

  // ---------------------------------------------------------------- positions

  lemma {:induction false} FindSnoc(q: seq<Pcb>, x: Pcb, pid: int)
    requires In(q, pid)
    ensures In(q + [x], pid) && Find(q + [x], pid) == Find(q, pid)
  {
    assert (q + [x])[1..] == q[1..] + [x];
    if q[0].pid == pid {
    } else {
      FindSnoc(q[1..], x, pid);
    }
  }

  lemma {:induction false} FindLeave(q: seq<Pcb>, gone: int, pid: int)
    requires In(q, pid) && pid != gone
    ensures In(Leave(q, gone), pid) && Find(Leave(q, gone), pid) <= Find(q, pid)
  {
    if q[0].pid == gone {
    } else {
      assert Leave(q, gone)[1..] == Leave(q[1..], gone);
      if q[0].pid != pid { FindLeave(q[1..], gone, pid); }
    }
  }

  /** The process was sent to a CPU by one of the dispatches from `lo` to `hi`. */
  ghost predicate SentWithin(sent: seq<int>, pid: int, lo: int, hi: int) {
    exists i :: 0 <= lo <= i <= hi && i < |sent| && sent[i] == pid
  }

  /**
   From `s` to `t` a ready process has moved up by one place for each dispatch, unless it was itself
   sent to a CPU in its turn or has been ended.
   */
  ghost predicate Advances(s: State, t: State, pid: int) {
    && s.sent <= t.sent && (In(s.finished, pid) ==> In(t.finished, pid))
    && (In(s.ready, pid) ==>
          || In(t.finished, pid)
          || (In(t.ready, pid) && Find(t.ready, pid) + |t.sent| <= Find(s.ready, pid) + |s.sent|)
          || SentWithin(t.sent, pid, |s.sent|, |s.sent| + Find(s.ready, pid)))
  }

  lemma AdvancesTwice(s: State, t: State, u: State, pid: int)
    requires Advances(s, t, pid) && Advances(t, u, pid)
    ensures Advances(s, u, pid)
  {
    if In(s.ready, pid) && !In(u.finished, pid) {
      if In(t.ready, pid) && Find(t.ready, pid) + |t.sent| <= Find(s.ready, pid) + |s.sent| {
        if SentWithin(u.sent, pid, |t.sent|, |t.sent| + Find(t.ready, pid)) {
          var i :| 0 <= |t.sent| <= i <= |t.sent| + Find(t.ready, pid) && i < |u.sent| && u.sent[i] == pid;
          assert |s.sent| <= i <= |s.sent| + Find(s.ready, pid);
        }
      } else {
        var i :| 0 <= |s.sent| <= i <= |s.sent| + Find(s.ready, pid) && i < |t.sent| && t.sent[i] == pid;
        assert u.sent[i] == pid;
      }
    }
  }

  // ---------------------------------------------------------------- parts of a step

  /** Neither the ready queue nor the dispatches change. */
  lemma StillAdvances(s: State, t: State, pid: int)
    requires t.ready == s.ready && t.sent == s.sent && (In(s.finished, pid) ==> In(t.finished, pid))
    ensures Advances(s, t, pid)
  {
  }

  lemma AppendAdvances(s: State, t: State, x: Pcb, pid: int)
    requires t.ready == s.ready + [x] && t.sent == s.sent && t.finished == s.finished
    ensures Advances(s, t, pid)
  {
    if In(s.ready, pid) { FindSnoc(s.ready, x, pid); }
  }

  lemma JoinAdvances(s: State, t: State, q: seq<Pcb>, x: int, pid: int)
    requires t.ready == Join(s.ready, q, x, Ready) && t.sent == s.sent && t.finished == s.finished
    ensures Advances(s, t, pid)
  {
    if In(s.ready, pid) { FindSnoc(s.ready, Pcb(x, Ready), pid); }
  }

  lemma FinishAdvances(s: State, t: State, q: seq<Pcb>, x: int, pid: int)
    requires t.ready == s.ready && t.sent == s.sent && t.finished == Join(s.finished, q, x, Finished)
    ensures Advances(s, t, pid)
  {
    InSnoc(s.finished, Pcb(x, Finished), pid);
  }

  lemma ReadyEndsAdvances(s: State, t: State, x: int, pid: int)
    requires t.ready == Leave(s.ready, x) && t.sent == s.sent && t.finished == Join(s.finished, s.ready, x, Finished)
    ensures Advances(s, t, pid)
  {
    InSnoc(s.finished, Pcb(x, Finished), pid);
    if In(s.ready, pid) && pid != x { FindLeave(s.ready, x, pid); }
  }

  /** The head of the queue is sent; everyone else moves up by one. */
  lemma DispatchedAdvances(s: State, socket: int, pid: int)
    ensures Advances(s, Dispatched(s, socket), pid)
  {
    if s.ready != [] {
      var t := Dispatched(s, socket);
      assert t.sent[|s.sent|] == s.ready[0].pid;
    }
  }

  lemma PlannedAdvances(s: State, pid: int)
    ensures Advances(s, Planned(s), pid) && Advances(s, PlannedIfReady(s), pid)
  {
    if s.idle != [] {
      var t0 := s.(idle := s.idle[1..], busy := s.busy + [s.idle[0]]);
      var t := if s.algorithm.RoundRobin? then Ticked(t0, s.idle[0]) else t0;
      StillAdvances(s, t, pid);
      DispatchedAdvances(t, s.idle[0], pid);
      AdvancesTwice(s, t, Dispatched(t, s.idle[0]), pid);
    }
  }

  lemma PromotedAdvances(s: State, admitted: bool, pid: int)
    ensures Advances(s, Promoted(s, admitted), pid)
  {
    if s.news != [] {
      var t, p := s.(news := s.news[1..]), s.news[0].pid;
      if admitted {
        var u := NewToReady(t, p);
        AppendAdvances(s, u, Pcb(p, Ready), pid);
        PlannedAdvances(u, pid);
        AdvancesTwice(s, u, Planned(u), pid);
      } else {
        FinishAdvances(s, NewToFinished(t, p), t.news, p, pid);
      }
    }
  }

  lemma {:induction false} AdmittedAdvances(s: State, answers: seq<bool>, pid: int)
    ensures Advances(s, Admitted(s, answers), pid)
    decreases |answers|
  {
    if answers == [] || s.degree <= s.count {
    } else {
      PromotedAdvances(s, answers[0], pid);
      AdmittedAdvances(Promoted(s, answers[0]), answers[1..], pid);
      AdvancesTwice(s, Promoted(s, answers[0]), Admitted(s, answers), pid);
    }
  }

  lemma RunningEndsAdvances(s: State, x: int, pid: int)
    ensures Advances(s, RunningToFinished(s, x), pid)
  {
    FinishAdvances(s, RunningToFinished(s, x), s.running, x, pid);
  }

  // ---------------------------------------------------------------- whole steps

  lemma StartedAdvances(s: State, admitted: bool, pid: int)
    ensures Advances(s, Started(s, admitted), pid)
  {
    var t := Arrived(s, admitted);
    ArrivedAdvances(s, admitted, pid);
    PlannedAdvances(t, pid);
    AdvancesTwice(s, t, Planned(t), pid);
  }

  lemma ArrivedAdvances(s: State, admitted: bool, pid: int)
    ensures Advances(s, Arrived(s, admitted), pid)
  {
    var x := s.maxPid + 1;
    if s.count < s.degree {
      var t := NewToReady(s.(maxPid := x, waits := s.waits[x := ""]), x);
      AppendAdvances(s, t, Pcb(x, Ready), pid);
      if !admitted {
        ReadyEndsAdvances(t, ReadyToFinished(t, x), x, pid);
        AdvancesTwice(s, t, ReadyToFinished(t, x), pid);
      }
    } else {
      StillAdvances(s, Arrived(s, admitted), pid);
    }
  }

  lemma SentenceAdvances(s: State, socket: int, x: int, admitted: bool, pid: int)
    ensures Advances(s, SentenceDone(s, socket, x, admitted), pid)
  {
    if CpuOf(s.cpus, socket).pid in s.doomed {
      KilledOnCpuAdvances(s, socket, x, admitted, pid);
    } else {
      GoesOnAdvances(s, socket, x, pid);
    }
  }

  lemma KilledOnCpuAdvances(s: State, socket: int, x: int, admitted: bool, pid: int)
    ensures Advances(s, KilledOnCpu(s, socket, x, admitted), pid)
  {
    var t0 := s.(doomed := Drop(s.doomed, CpuOf(s.cpus, socket).pid));
    var t := RunningToFinished(t0, x);
    FinishAdvances(s, t, s.running, x, pid);
    PromotedAdvances(t, admitted, pid);
    AdvancesTwice(s, t, Promoted(t, admitted), pid);
    var u := CpuFreed(Promoted(t, admitted), socket);
    StillAdvances(Promoted(t, admitted), u, pid);
    AdvancesTwice(s, Promoted(t, admitted), u, pid);
    DispatchedAdvances(u, socket, pid);
    AdvancesTwice(s, u, Dispatched(u, socket), pid);
  }

  lemma GoesOnAdvances(s: State, socket: int, x: int, pid: int)
    ensures Advances(s, GoesOn(s, socket, x), pid)
  {
    if s.algorithm.RoundRobin? && s.busy != [] {
      var found := Scanned(s.busy, socket);
      var cpu := CpuOf(s.cpus, found);
      if cpu.quantum >= s.quantum {
        var t := RunningToReady(HandedOver(s, socket, found), x);
        JoinAdvances(s, t, s.running, x, pid);
        DispatchedAdvances(t, found, pid);
        AdvancesTwice(s, t, Dispatched(t, found), pid);
      } else {
        StillAdvances(s, QuantumChecked(s, socket, x), pid);
      }
    } else {
      StillAdvances(s, GoesOn(s, socket, x), pid);
    }
  }

  lemma KilledWaitingAdvances(s: State, k: nat, socket: int, x: int, admitted: bool, pid: int)
    requires k < |s.semaphores|
    ensures Advances(s, KilledWaiting(s, k, socket, x, admitted), pid)
  {
    var t := RunningToFinished(s.(doomed := Drop(s.doomed, x)), x);
    FinishAdvances(s, t, s.running, x, pid);
    PromotedAdvances(t, admitted, pid);
    AdvancesTwice(s, t, Promoted(t, admitted), pid);
    StillAdvances(Promoted(t, admitted), KilledWaiting(s, k, socket, x, admitted), pid);
    AdvancesTwice(s, Promoted(t, admitted), KilledWaiting(s, k, socket, x, admitted), pid);
  }

  lemma WaitAdvances(s: State, socket: int, x: int, name: string, admitted: bool, pid: int)
    ensures Advances(s, Waited(s, socket, x, name, admitted), pid)
  {
    var k := FindSemaphore(s.semaphores, name);
    if MustWait(s, name) {
      var t := Changed(s, k, -1);
      StillAdvances(s, t, pid);
      var u := if x in s.doomed then KilledWaiting(t, k, socket, x, admitted) else MadeToWait(t, k, socket, x);
      if x in s.doomed {
        KilledWaitingAdvances(t, k, socket, x, admitted, pid);
      } else {
        StillAdvances(t, u, pid);
      }
      AdvancesTwice(s, t, u, pid);
      PlannedAdvances(u, pid);
      AdvancesTwice(s, u, PlannedIfReady(u), pid);
    } else {
      StillAdvances(s, Waited(s, socket, x, name, admitted), pid);
    }
  }

  lemma SignalAdvances(s: State, name: string, pid: int)
    ensures Advances(s, Signalled(s, name), pid)
  {
    var k := FindSemaphore(s.semaphores, name);
    if k < |s.semaphores| {
      var t := Changed(s, k, 1);
      var i := FindWaiter(t.blocked, t.waits, t.semaphores[k].name);
      StillAdvances(s, t, pid);
      if i < |t.blocked| {
        var x := t.blocked[i].pid;
        var u := BlockedToReady(t, x).(waits := t.waits[x := ""]);
        JoinAdvances(s, u, t.blocked, x, pid);
        PlannedAdvances(u, pid);
        AdvancesTwice(s, u, Planned(u), pid);
      }
    }
  }

  lemma ExitAdvances(s: State, socket: int, x: int, admitted: bool, pid: int)
    ensures Advances(s, Exited(s, socket, x, admitted), pid) && Advances(s, Aborted(s, socket, x, admitted), pid)
  {
    var t := CpuFreed(CpuReset(RunningToFinished(s, x), socket), socket);
    RunningEndsAdvances(s, x, pid);
    StillAdvances(RunningToFinished(s, x), t, pid);
    AdvancesTwice(s, RunningToFinished(s, x), t, pid);
    PromotedAdvances(t, admitted, pid);
    AdvancesTwice(s, t, Promoted(t, admitted), pid);
    PlannedAdvances(Promoted(t, admitted), pid);
    AdvancesTwice(s, Promoted(t, admitted), PlannedIfReady(Promoted(t, admitted)), pid);
  }

  lemma KilledAdvances(s: State, x: int, pid: int)
    ensures Advances(s, Killed(s, x), pid)
  {
    StillAdvances(s, s.(doomed := s.doomed + [x]), pid);
    KilledFromAdvances(s, x, StatusOf(s, x), pid);
  }

  lemma KilledFromAdvances(s: State, x: int, status: Status, pid: int)
    ensures Advances(s, KilledFrom(s, x, status), pid)
  {
    match status
    case New => FinishAdvances(s, NewToFinished(s, x), s.news, x, pid);
    case Ready => ReadyEndsAdvances(s, ReadyToFinished(s, x), x, pid);
    case Blocked => FinishAdvances(s, BlockedToFinished(s, x), s.blocked, x, pid);
    case _ => StillAdvances(s, s, pid);
  }

  lemma AbortedAdvances(s: State, x: int, pid: int)
    ensures Advances(s, AbortedByConsole(s, x), pid)
  {
    StillAdvances(s, s.(doomed := s.doomed + [x]), pid);
    ToFinishedAdvances(s, x, StatusOf(s, x), pid);
  }

  lemma ToFinishedAdvances(s: State, x: int, status: Status, pid: int)
    ensures Advances(s, ToFinished(s, x, status), pid)
  {
    match status
    case New => FinishAdvances(s, NewToFinished(s, x), s.news, x, pid);
    case Ready =>
      if In(s.ready, x) {
        ReadyEndsAdvances(s, Cleaned(ReadyToFinished(s, x), x), x, pid);
      } else {
        StillAdvances(s, s, pid);
      }
    case Running => FinishAdvances(s, RunningToFinished(s, x), s.running, x, pid);
    case Blocked => FinishAdvances(s, BlockedToFinished(s, x), s.blocked, x, pid);
    case Finished => StillAdvances(s, s, pid);
  }

  lemma StepAdvances(s: State, e: Event, pid: int)
    requires Possible(s, e)
    ensures Advances(s, Step(s, e), pid)
  {
    match e
    case Start(admitted) => StartedAdvances(s, admitted, pid);
    case Connect(_, _) => StillAdvances(s, Step(s, e), pid);
    case Handshake => PlannedAdvances(s, pid);
    case Sentence(socket, x, admitted) => SentenceAdvances(s, socket, x, admitted, pid);
    case Wait(socket, x, name, admitted) => WaitAdvances(s, socket, x, name, admitted, pid);
    case Signal(name) => SignalAdvances(s, name, pid);
    case Exit(socket, x, admitted) => ExitAdvances(s, socket, x, admitted, pid);
    case Abort(socket, x, admitted) => ExitAdvances(s, socket, x, admitted, pid);
    case Oversized(socket) => RunningEndsAdvances(s, s.cpus[socket].pid, pid);
    case ConsoleAbort(x) => AbortedAdvances(s, x, pid);
    case Kill(x) => KilledAdvances(s, x, pid);
    case SetDegree(degree, answers) =>
      var t := s.(degree := degree);
      StillAdvances(s, t, pid);
      AdmittedAdvances(t, answers, pid);
      AdvancesTwice(s, t, Admitted(t, answers), pid);
  }
}
