/** Where processes are: each in one queue, in the one its status names, and counted once. */
module SchedulingCensus {
  import opened Scheduling

  // ---------------------------------------------------------------- the processes of a queue

  /** How often a process is in a queue. */
  ghost function Times(q: seq<Pcb>, p: int): nat {
    if q == [] then 0 else (if q[0].pid == p then 1 else 0) + Times(q[1..], p)
  }

  lemma {:induction false} TimesSnoc(q: seq<Pcb>, x: Pcb, p: int)
    ensures Times(q + [x], p) == Times(q, p) + if x.pid == p then 1 else 0
  {
    if q == [] {
    } else {
      TimesSnoc(q[1..], x, p);
      assert (q + [x])[1..] == q[1..] + [x];
    }
  }

  lemma {:induction false} TimesIn(q: seq<Pcb>, p: int)
    ensures In(q, p) <==> 0 < Times(q, p)
  {
    if q == [] {
    } else {
      TimesIn(q[1..], p);
    }
  }

  /** A process that leaves a queue is in it once less, and every other one as often as before. */
  lemma {:induction false} TimesLeave(q: seq<Pcb>, pid: int, p: int)
    ensures Times(Leave(q, pid), p) == Times(q, p) - if p == pid && In(q, pid) then 1 else 0
  {
    if q == [] || q[0].pid == pid {
    } else {
      TimesLeave(q[1..], pid, p);
      assert Leave(q, pid)[1..] == Leave(q[1..], pid);
    }
  }

  lemma {:induction false} LeaveSize(q: seq<Pcb>, pid: int)
    ensures |Leave(q, pid)| == |q| - if In(q, pid) then 1 else 0
  {
    if q == [] || q[0].pid == pid {
    } else {
      LeaveSize(q[1..], pid);
    }
  }

  lemma {:induction false} AtIsIn(q: seq<Pcb>, i: nat)
    requires i < |q|
    ensures In(q, q[i].pid)
  {
    if i == 0 {
    } else {
      AtIsIn(q[1..], i - 1);
    }
  }

  lemma {:induction false} InSnoc(q: seq<Pcb>, x: Pcb, p: int)
    ensures In(q + [x], p) <==> In(q, p) || x.pid == p
  {
    if q == [] {
    } else {
      InSnoc(q[1..], x, p);
      assert (q + [x])[1..] == q[1..] + [x];
    }
  }

  ghost predicate AllAre(q: seq<Pcb>, status: Status) {
    q == [] || (q[0].status == status && AllAre(q[1..], status))
  }

  lemma {:induction false} AllSnoc(q: seq<Pcb>, x: Pcb, status: Status)
    requires AllAre(q, status) && x.status == status
    ensures AllAre(q + [x], status)
  {
    if q == [] {
    } else {
      AllSnoc(q[1..], x, status);
      assert (q + [x])[1..] == q[1..] + [x];
    }
  }

  lemma {:induction false} AllLeave(q: seq<Pcb>, pid: int, status: Status)
    requires AllAre(q, status)
    ensures AllAre(Leave(q, pid), status)
  {
    if q == [] || q[0].pid == pid {
    } else {
      AllLeave(q[1..], pid, status);
      assert Leave(q, pid)[1..] == Leave(q[1..], pid);
    }
  }

  // ---------------------------------------------------------------- the census

  /** How often a process is in some queue. */
  ghost function Census(s: State, p: int): nat {
    Times(s.news, p) + Times(s.ready, p) + Times(s.running, p) + Times(s.blocked, p) + Times(s.finished, p)
  }

  /** No process is in two places, and only process numbers that were given out are in use. */
  ghost predicate Unique(s: State) {
    forall p :: Census(s, p) <= if 1 <= p <= s.maxPid then 1 else 0
  }

  /** Every process that was ever created is in exactly one queue. */
  ghost predicate Present(s: State) {
    forall p :: Census(s, p) == if 1 <= p <= s.maxPid then 1 else 0
  }

  ghost predicate Sorted(s: State) {
    && AllAre(s.news, New) && AllAre(s.ready, Ready) && AllAre(s.running, Running)
    && AllAre(s.blocked, Blocked) && AllAre(s.finished, Finished)
  }

  ghost predicate Counted(s: State) {
    s.count == |s.ready| + |s.running| + |s.blocked|
  }

  ghost predicate Placed(s: State) {
    Unique(s) && Sorted(s) && Counted(s) && 0 <= s.maxPid
  }

  /** From `s` to `t` processes were moved between queues, and nothing else happened to them. */
  ghost predicate Moved(s: State, t: State) {
    && (forall p :: Census(t, p) == Census(s, p)) && t.maxPid == s.maxPid
    && (Sorted(s) ==> Sorted(t)) && (Counted(s) ==> Counted(t))
  }

  lemma MovedPlaced(s: State, t: State)
    requires Moved(s, t)
    ensures Placed(s) ==> Placed(t)
    ensures Present(s) <==> Present(t)
  {
    assert forall p :: Census(t, p) == Census(s, p);
  }

  lemma MovedTwice(s: State, t: State, u: State)
    requires Moved(s, t) && Moved(t, u)
    ensures Moved(s, u)
  {
    assert forall p :: Census(u, p) == Census(t, p);
  }

  ghost predicate SameQueues(s: State, t: State) {
    && t.news == s.news && t.ready == s.ready && t.running == s.running && t.blocked == s.blocked
    && t.finished == s.finished && t.count == s.count && t.maxPid == s.maxPid
  }

  lemma NothingMoved(s: State, t: State)
    requires SameQueues(s, t)
    ensures Moved(s, t)
  {
  }

  // ---------------------------------------------------------------- single moves

  /** One process taken from a queue and put in another. */
  lemma OneMove(q: seq<Pcb>, to: seq<Pcb>, pid: int, from: Status, status: Status)
    ensures forall p :: Times(Leave(q, pid), p) + Times(Join(to, q, pid, status), p) == Times(q, p) + Times(to, p)
    ensures |Leave(q, pid)| == |q| - if In(q, pid) then 1 else 0
    ensures |Join(to, q, pid, status)| == |to| + if In(q, pid) then 1 else 0
    ensures AllAre(q, from) ==> AllAre(Leave(q, pid), from)
    ensures AllAre(to, status) ==> AllAre(Join(to, q, pid, status), status)
  {
    forall p
      ensures Times(Leave(q, pid), p) + Times(Join(to, q, pid, status), p) == Times(q, p) + Times(to, p)
    {
      TimesLeave(q, pid, p);
      TimesSnoc(to, Pcb(pid, status), p);
    }
    LeaveSize(q, pid);
    if AllAre(q, from) { AllLeave(q, pid, from); }
    if AllAre(to, status) { AllSnoc(to, Pcb(pid, status), status); }
  }

  lemma NewToFinishedMoves(s: State, pid: int)
    ensures Moved(s, NewToFinished(s, pid))
  {
    OneMove(s.news, s.finished, pid, New, Finished);
  }

  lemma ReadyToRunningMoves(s: State, pid: int)
    ensures Moved(s, ReadyToRunning(s, pid))
  {
    OneMove(s.ready, s.running, pid, Ready, Running);
  }

  lemma RunningToReadyMoves(s: State, pid: int)
    ensures Moved(s, RunningToReady(s, pid))
  {
    OneMove(s.running, s.ready, pid, Running, Ready);
  }

  lemma RunningToBlockedMoves(s: State, pid: int)
    ensures Moved(s, RunningToBlocked(s, pid))
  {
    OneMove(s.running, s.blocked, pid, Running, Blocked);
  }

  lemma BlockedToReadyMoves(s: State, pid: int)
    ensures Moved(s, BlockedToReady(s, pid))
  {
    OneMove(s.blocked, s.ready, pid, Blocked, Ready);
  }

  lemma RunningToFinishedMoves(s: State, pid: int)
    ensures Moved(s, RunningToFinished(s, pid))
  {
    OneMove(s.running, s.finished, pid, Running, Finished);
  }

  lemma ReadyToFinishedMoves(s: State, pid: int)
    ensures Moved(s, ReadyToFinished(s, pid))
  {
    OneMove(s.ready, s.finished, pid, Ready, Finished);
  }

  lemma BlockedToFinishedMoves(s: State, pid: int)
    ensures Moved(s, BlockedToFinished(s, pid))
  {
    OneMove(s.blocked, s.finished, pid, Blocked, Finished);
  }

  lemma ToFinishedMoves(s: State, pid: int, status: Status)
    ensures Moved(s, ToFinished(s, pid, status))
  {
    match status
    case New => NewToFinishedMoves(s, pid);
    case Ready => ReadyToFinishedMoves(s, pid);
    case Running => RunningToFinishedMoves(s, pid);
    case Blocked => BlockedToFinishedMoves(s, pid);
    case Finished =>
  }

  // ---------------------------------------------------------------- dispatching and admitting

  lemma DispatchedMoves(s: State, socket: int)
    ensures Moved(s, Dispatched(s, socket))
  {
    if s.ready != [] { ReadyToRunningMoves(s, s.ready[0].pid); }
  }

  lemma PlannedMoves(s: State)
    ensures Moved(s, Planned(s)) && Moved(s, PlannedIfReady(s))
  {
    if s.idle != [] {
      var t := s.(idle := s.idle[1..], busy := s.busy + [s.idle[0]]);
      DispatchedMoves(if s.algorithm.RoundRobin? then Ticked(t, s.idle[0]) else t, s.idle[0]);
    }
  }

  /** The process a promotion loses: the first new one, if the memory server refuses it. */
  ghost predicate Loses(s: State, admitted: bool) {
    s.news != [] && !admitted
  }

  /** The first new process becomes ready. */
  lemma AdmissionMoves(s: State)
    requires s.news != []
    ensures Moved(s, NewToReady(s.(news := s.news[1..]), s.news[0].pid))
  {
    var p := s.news[0];
    var u := NewToReady(s.(news := s.news[1..]), p.pid);
    forall k
      ensures Census(u, k) == Census(s, k)
    {
      TimesSnoc(s.ready, Pcb(p.pid, Ready), k);
    }
    if Sorted(s) { AllSnoc(s.ready, Pcb(p.pid, Ready), Ready); }
  }

  lemma PromotedMoves(s: State, admitted: bool)
    requires Unique(s) && !Loses(s, admitted)
    ensures Moved(s, Promoted(s, admitted))
  {
    if s.news != [] {
      var u := NewToReady(s.(news := s.news[1..]), s.news[0].pid);
      AdmissionMoves(s);
      PlannedMoves(u);
      MovedTwice(s, u, Planned(u));
    }
  }

  /** A refused process is in no queue afterwards; nothing else changes. */
  lemma PromotedLoses(s: State, admitted: bool)
    requires Unique(s) && Loses(s, admitted)
    ensures var lost := s.news[0].pid; var t := Promoted(s, admitted);
            Census(s, lost) == 1 && Census(t, lost) == 0 && t == s.(news := s.news[1..]) &&
            (forall p :: p != lost ==> Census(t, p) == Census(s, p)) &&
            (Sorted(s) ==> Sorted(t)) && (Counted(s) ==> Counted(t))
  {
    var lost, rest := s.news[0].pid, s.news[1..];
    assert Census(s, lost) <= 1;
    TimesIn(rest, lost);
    NotThere(rest, lost);
    var t := Promoted(s, admitted);
    assert t == s.(news := rest);
  }

  lemma {:induction false} NotThere(q: seq<Pcb>, pid: int)
    requires !In(q, pid)
    ensures Leave(q, pid) == q
  {
    if q == [] {
    } else {
      NotThere(q[1..], pid);
    }
  }

  lemma PromotedPlaced(s: State, admitted: bool)
    requires Placed(s)
    ensures Placed(Promoted(s, admitted))
    ensures Present(s) ==> (Present(Promoted(s, admitted)) <==> !Loses(s, admitted))
  {
    var t := Promoted(s, admitted);
    if Loses(s, admitted) {
      PromotedLoses(s, admitted);
      var lost := s.news[0].pid;
      assert Census(s, lost) == 1 && Census(t, lost) == 0;
      assert forall p :: Census(t, p) <= Census(s, p);
    } else {
      PromotedMoves(s, admitted);
      MovedPlaced(s, t);
    }
  }

  lemma {:induction false} AdmittedPlaced(s: State, answers: seq<bool>)
    requires Placed(s)
    ensures Placed(Admitted(s, answers))
    ensures Present(s) ==> (Present(Admitted(s, answers)) <==> !LosesAny(s, answers))
    decreases |answers|
  {
    if answers == [] || s.degree <= s.count {
    } else {
      PromotedPlaced(s, answers[0]);
      AdmittedPlaced(Promoted(s, answers[0]), answers[1..]);
      if Loses(s, answers[0]) {
        var lost := s.news[0].pid;
        PromotedLoses(s, answers[0]);
        StaysLost(Promoted(s, answers[0]), answers[1..], lost);
        assert Census(s, lost) == 1 && !answers[0];
      } else {
        LosesNext(s, answers);
      }
    }
  }

  /** The admission loop brings no process back. */
  lemma {:induction false} StaysLost(s: State, answers: seq<bool>, lost: int)
    requires Placed(s) && Census(s, lost) == 0
    ensures Census(Admitted(s, answers), lost) == 0 && Admitted(s, answers).maxPid == s.maxPid
    decreases |answers|
  {
    if answers == [] || s.degree <= s.count {
    } else {
      PromotedPlaced(s, answers[0]);
      if Loses(s, answers[0]) { PromotedLoses(s, answers[0]); } else { PromotedMoves(s, answers[0]); }
      StaysLost(Promoted(s, answers[0]), answers[1..], lost);
    }
  }

  /** A refusal comes among the answers for as many new processes as the level leaves room for. */
  predicate LosesAny(s: State, answers: seq<bool>) {
    exists j :: 0 <= j < |answers| && j < |s.news| && j < s.degree - s.count && !answers[j]
  }

  lemma LosesNext(s: State, answers: seq<bool>)
    requires answers != [] && s.count < s.degree && !Loses(s, answers[0])
    ensures LosesAny(s, answers) <==> LosesAny(Promoted(s, answers[0]), answers[1..])
  {
    var t, rest := Promoted(s, answers[0]), answers[1..];
    PromotedOne(s, answers[0]);
    if LosesAny(s, answers) {
      var j :| 0 <= j < |answers| && j < |s.news| && j < s.degree - s.count && !answers[j];
      assert !rest[j - 1];
    }
    if LosesAny(t, rest) {
      var j :| 0 <= j < |rest| && j < |t.news| && j < t.degree - t.count && !rest[j];
      assert !answers[j + 1];
    }
  }

  lemma PromotedOne(s: State, admitted: bool)
    requires !Loses(s, admitted)
    ensures var t, n := Promoted(s, admitted), if s.news == [] then 0 else 1;
            t.degree == s.degree && t.count == s.count + n && |t.news| == |s.news| - n
  {
  }

  // ---------------------------------------------------------------- whole steps

  lemma StartedPlaced(s: State, admitted: bool)
    requires Placed(s)
    ensures Placed(Started(s, admitted))
    ensures Present(s) ==> Present(Started(s, admitted))
  {
    var t := Arrived(s, admitted);
    ArrivedPlaced(s, admitted);
    PlannedMoves(t);
    MovedPlaced(t, Planned(t));
  }

  lemma ArrivedPlaced(s: State, admitted: bool)
    requires Placed(s)
    ensures Placed(Arrived(s, admitted))
    ensures Present(s) ==> Present(Arrived(s, admitted))
  {
    var pid := s.maxPid + 1;
    if s.count < s.degree {
      var t := NewToReady(s.(maxPid := pid, waits := s.waits[pid := ""]), pid);
      ArrivesReady(s, t, pid);
      if !admitted {
        ReadyToFinishedMoves(t, pid);
        MovedPlaced(t, ReadyToFinished(t, pid));
      }
    } else {
      ArrivesNew(s, Arrived(s, admitted), pid);
    }
  }

  lemma ArrivesReady(s: State, t: State, pid: int)
    requires Placed(s) && pid == s.maxPid + 1
    requires SameQueues(s.(ready := s.ready + [Pcb(pid, Ready)], count := s.count + 1, maxPid := pid), t)
    ensures Placed(t) && (Present(s) ==> Present(t))
  {
    forall p
      ensures Census(t, p) == Census(s, p) + if p == pid then 1 else 0
    {
      TimesSnoc(s.ready, Pcb(pid, Ready), p);
    }
    AllSnoc(s.ready, Pcb(pid, Ready), Ready);
    assert Census(s, pid) == 0;
  }

  lemma ArrivesNew(s: State, t: State, pid: int)
    requires Placed(s) && pid == s.maxPid + 1
    requires SameQueues(s.(news := s.news + [Pcb(pid, New)], maxPid := pid), t)
    ensures Placed(t) && (Present(s) ==> Present(t))
  {
    forall p
      ensures Census(t, p) == Census(s, p) + if p == pid then 1 else 0
    {
      TimesSnoc(s.news, Pcb(pid, New), p);
    }
    AllSnoc(s.news, Pcb(pid, New), New);
    assert Census(s, pid) == 0;
  }

  lemma SentencePlaced(s: State, socket: int, pid: int, admitted: bool)
    requires Placed(s)
    ensures Placed(SentenceDone(s, socket, pid, admitted))
    ensures Present(s) ==> (Present(SentenceDone(s, socket, pid, admitted))
                            <==> !(CpuOf(s.cpus, socket).pid in s.doomed && Loses(s, admitted)))
  {
    if CpuOf(s.cpus, socket).pid in s.doomed {
      KilledOnCpuPlaced(s, socket, pid, admitted);
    } else {
      GoesOnMoves(s, socket, pid);
      MovedPlaced(s, GoesOn(s, socket, pid));
    }
  }

  lemma KilledOnCpuPlaced(s: State, socket: int, pid: int, admitted: bool)
    requires Placed(s)
    ensures var t := KilledOnCpu(s, socket, pid, admitted);
            Placed(t) && (Present(s) ==> (Present(t) <==> !Loses(s, admitted)))
  {
    var t := RunningToFinished(s.(doomed := Drop(s.doomed, CpuOf(s.cpus, socket).pid)), pid);
    EndedPlaced(s, Drop(s.doomed, CpuOf(s.cpus, socket).pid), pid, admitted);
    FreedAndDispatchedMoves(Promoted(t, admitted), socket);
    MovedPlaced(Promoted(t, admitted), Dispatched(CpuFreed(Promoted(t, admitted), socket), socket));
  }

  /** A process ends and the next one is promoted. */
  lemma EndedPlaced(s: State, doomed: seq<int>, pid: int, admitted: bool)
    requires Placed(s)
    ensures var t := Promoted(RunningToFinished(s.(doomed := doomed), pid), admitted);
            Placed(t) && (Present(s) ==> (Present(t) <==> !Loses(s, admitted)))
  {
    var t0 := s.(doomed := doomed);
    var t := RunningToFinished(t0, pid);
    NothingMoved(s, t0);
    RunningToFinishedMoves(t0, pid);
    MovedTwice(s, t0, t);
    MovedPlaced(s, t);
    PromotedPlaced(t, admitted);
  }

  lemma FreedAndDispatchedMoves(s: State, socket: int)
    ensures Moved(s, Dispatched(CpuFreed(s, socket), socket))
  {
    var t := CpuFreed(s, socket);
    NothingMoved(s, t);
    DispatchedMoves(t, socket);
    MovedTwice(s, t, Dispatched(t, socket));
  }

  lemma GoesOnMoves(s: State, socket: int, pid: int)
    ensures Moved(s, GoesOn(s, socket, pid))
  {
    if s.algorithm.RoundRobin? && s.busy != [] {
      var found := Scanned(s.busy, socket);
      var cpu := CpuOf(s.cpus, found);
      if cpu.quantum >= s.quantum {
        var t := HandedOver(s, socket, found);
        RunningToReadyMoves(t, pid);
        DispatchedMoves(RunningToReady(t, pid), found);
        MovedTwice(s, RunningToReady(t, pid), QuantumChecked(s, socket, pid));
      } else {
        NothingMoved(s, QuantumChecked(s, socket, pid));
      }
    } else {
      NothingMoved(s, GoesOn(s, socket, pid));
    }
  }

  lemma KilledWaitingPlaced(s: State, k: nat, socket: int, pid: int, admitted: bool)
    requires Placed(s) && k < |s.semaphores|
    ensures var t := PlannedIfReady(KilledWaiting(Changed(s, k, -1), k, socket, pid, admitted));
            Placed(t) && (Present(s) ==> (Present(t) <==> !Loses(s, admitted)))
  {
    var t := Changed(s, k, -1);
    NothingMoved(s, t);
    MovedPlaced(s, t);
    EndedPlaced(t, Drop(t.doomed, pid), pid, admitted);
    var u, v := Promoted(RunningToFinished(t.(doomed := Drop(t.doomed, pid)), pid), admitted),
                KilledWaiting(t, k, socket, pid, admitted);
    NothingMoved(u, v);
    PlannedMoves(v);
    MovedTwice(u, v, PlannedIfReady(v));
    MovedPlaced(u, PlannedIfReady(v));
  }

  lemma MadeToWaitPlaced(s: State, k: nat, socket: int, pid: int)
    requires Placed(s) && k < |s.semaphores|
    ensures var t := PlannedIfReady(MadeToWait(Changed(s, k, -1), k, socket, pid));
            Placed(t) && (Present(s) ==> Present(t))
  {
    var t := Changed(s, k, -1);
    var u := MadeToWait(t, k, socket, pid);
    var t0 := CpuFreed(t.(waits := t.waits[pid := t.semaphores[k].name]), socket);
    NothingMoved(s, t0);
    RunningToBlockedMoves(t0, pid);
    MovedTwice(s, t0, u);
    PlannedMoves(u);
    MovedTwice(s, u, PlannedIfReady(u));
    MovedPlaced(s, PlannedIfReady(u));
  }

  lemma WaitPlaced(s: State, socket: int, pid: int, name: string, admitted: bool)
    requires Placed(s)
    ensures Placed(Waited(s, socket, pid, name, admitted))
    ensures Present(s) ==> (Present(Waited(s, socket, pid, name, admitted))
                            <==> !(MustWait(s, name) && pid in s.doomed && Loses(s, admitted)))
  {
    var k := FindSemaphore(s.semaphores, name);
    if !MustWait(s, name) {
      NothingMoved(s, Waited(s, socket, pid, name, admitted));
      MovedPlaced(s, Waited(s, socket, pid, name, admitted));
    } else if pid in s.doomed {
      KilledWaitingPlaced(s, k, socket, pid, admitted);
    } else {
      MadeToWaitPlaced(s, k, socket, pid);
    }
  }

  /** The semaphore exists and has no unit left. */
  ghost predicate MustWait(s: State, name: string) {
    var k := FindSemaphore(s.semaphores, name);
    k < |s.semaphores| && s.semaphores[k].value <= 0
  }

  lemma SignalPlaced(s: State, name: string)
    requires Placed(s)
    ensures Placed(Signalled(s, name)) && (Present(s) ==> Present(Signalled(s, name)))
  {
    var k := FindSemaphore(s.semaphores, name);
    if k < |s.semaphores| {
      var t := Changed(s, k, 1);
      var i := FindWaiter(t.blocked, t.waits, t.semaphores[k].name);
      if i < |t.blocked| {
        var pid := t.blocked[i].pid;
        var u := BlockedToReady(t, pid).(waits := t.waits[pid := ""]);
        NothingMoved(s, t);
        BlockedToReadyMoves(t, pid);
        MovedTwice(s, t, BlockedToReady(t, pid));
        NothingMoved(BlockedToReady(t, pid), u);
        MovedTwice(s, BlockedToReady(t, pid), u);
        PlannedMoves(u);
        MovedTwice(s, u, Planned(u));
      } else {
        NothingMoved(s, t);
      }
      MovedPlaced(s, Signalled(s, name));
    }
  }

  lemma ExitPlaced(s: State, socket: int, pid: int, admitted: bool)
    requires Placed(s)
    ensures Placed(Exited(s, socket, pid, admitted)) && Placed(Aborted(s, socket, pid, admitted))
    ensures Present(s) ==> (Present(Exited(s, socket, pid, admitted)) <==> !Loses(s, admitted))
    ensures Present(s) ==> (Present(Aborted(s, socket, pid, admitted)) <==> !Loses(s, admitted))
  {
    var t := EndedOnCpu(s, socket, pid);
    EndedOnCpuMoves(s, socket, pid);
    MovedPlaced(s, t);
    PromotedPlaced(t, admitted);
    PlannedMoves(Promoted(t, admitted));
    MovedPlaced(Promoted(t, admitted), PlannedIfReady(Promoted(t, admitted)));
  }

  lemma EndedOnCpuMoves(s: State, socket: int, pid: int)
    ensures Moved(s, EndedOnCpu(s, socket, pid)) && EndedOnCpu(s, socket, pid).news == s.news
  {
    RunningToFinishedMoves(s, pid);
    NothingMoved(RunningToFinished(s, pid), EndedOnCpu(s, socket, pid));
    MovedTwice(s, RunningToFinished(s, pid), EndedOnCpu(s, socket, pid));
  }

  lemma KillPlaced(s: State, pid: int)
    requires Placed(s)
    ensures Placed(Killed(s, pid)) && (Present(s) ==> Present(Killed(s, pid)))
  {
    KilledFromMoves(s, pid, StatusOf(s, pid));
    NothingMoved(s, s.(doomed := s.doomed + [pid]));
    MovedPlaced(s, Killed(s, pid));
  }

  lemma KilledFromMoves(s: State, pid: int, status: Status)
    ensures Moved(s, KilledFrom(s, pid, status))
  {
    match status
    case New => NewToFinishedMoves(s, pid);
    case Ready => ReadyToFinishedMoves(s, pid);
    case Blocked => BlockedToFinishedMoves(s, pid);
    case _ =>
  }

  lemma AbortPlaced(s: State, pid: int)
    requires Placed(s)
    ensures Placed(AbortedByConsole(s, pid)) && (Present(s) ==> Present(AbortedByConsole(s, pid)))
  {
    ToFinishedMoves(s, pid, StatusOf(s, pid));
    NothingMoved(s, s.(doomed := s.doomed + [pid]));
    MovedPlaced(s, AbortedByConsole(s, pid));
  }

  /** The event takes a process from the new ones that the memory server then refuses. */
  ghost predicate LosesProcess(s: State, e: Event) {
    match e
    case Sentence(socket, _, admitted) => CpuOf(s.cpus, socket).pid in s.doomed && Loses(s, admitted)
    case Wait(_, pid, name, admitted) => MustWait(s, name) && pid in s.doomed && Loses(s, admitted)
    case Exit(_, _, admitted) => Loses(s, admitted)
    case Abort(_, _, admitted) => Loses(s, admitted)
    case SetDegree(degree, answers) => LosesAny(s.(degree := degree), answers)
    case _ => false
  }

  /**
   Every step keeps each process in at most one queue, the one of its status, and the count of processes in
   the system equal to those ready, running or blocked. It keeps every process in some queue unless the memory server
   refuses a process taken from the new ones, and then it never does.
   */
  lemma StepPlaced(s: State, e: Event)
    requires Placed(s) && Possible(s, e)
    ensures Placed(Step(s, e))
    ensures Present(s) ==> (Present(Step(s, e)) <==> !LosesProcess(s, e))
  {
    match e
    case Start(admitted) => StartedPlaced(s, admitted);
    case Connect(_, _) => MovedPlaced(s, Step(s, e));
    case Handshake =>
      PlannedMoves(s);
      MovedPlaced(s, Step(s, e));
    case Sentence(socket, pid, admitted) => SentencePlaced(s, socket, pid, admitted);
    case Wait(socket, pid, name, admitted) => WaitPlaced(s, socket, pid, name, admitted);
    case Signal(name) => SignalPlaced(s, name);
    case Exit(socket, pid, admitted) => ExitPlaced(s, socket, pid, admitted);
    case Abort(socket, pid, admitted) => ExitPlaced(s, socket, pid, admitted);
    case Oversized(socket) =>
      RunningToFinishedMoves(s, s.cpus[socket].pid);
      MovedPlaced(s, Step(s, e));
    case ConsoleAbort(pid) => AbortPlaced(s, pid);
    case Kill(pid) => KillPlaced(s, pid);
    case SetDegree(degree, answers) =>
      MovedPlaced(s, s.(degree := degree));
      AdmittedPlaced(s.(degree := degree), answers);
  }

  // ---------------------------------------------------------------- where a process is

  /** The process is in the system no more. */
  predicate Gone(s: State, pid: int) {
    !In(s.news, pid) && !In(s.ready, pid) && !In(s.running, pid) && !In(s.blocked, pid)
  }

  /** Among processes of one status, that status is found. */
  lemma {:induction false} StatusFound(q: seq<Pcb>, pid: int, status: Status)
    requires AllAre(q, status) && In(q, pid)
    ensures q[Find(q, pid)].status == status
  {
    if q[0].pid == pid {
    } else {
      StatusFound(q[1..], pid, status);
    }
  }

  /** A process is in one queue at most, and finished only if it is in none of the others. */
  lemma OneQueue(s: State, pid: int)
    requires Placed(s)
    ensures In(s.ready, pid) ==> !In(s.news, pid) && !In(s.running, pid) && !In(s.blocked, pid)
    ensures In(s.news, pid) ==> !In(s.running, pid) && !In(s.blocked, pid)
    ensures In(s.running, pid) ==> !In(s.blocked, pid)
    ensures Times(s.news, pid) <= 1 && Times(s.ready, pid) <= 1 && Times(s.blocked, pid) <= 1
  {
    TimesIn(s.news, pid);
    TimesIn(s.ready, pid);
    TimesIn(s.running, pid);
    TimesIn(s.blocked, pid);
    assert Census(s, pid) <= 1;
  }

  /** The status that the lookup finds says where the process is. */
  lemma StatusTells(s: State, pid: int)
    requires Placed(s)
    ensures match StatusOf(s, pid)
            case New => In(s.news, pid)
            case Ready => In(s.ready, pid)
            case Running => In(s.running, pid)
            case Blocked => In(s.blocked, pid)
            case Finished => Gone(s, pid)
  {
    if In(s.ready, pid) {
      StatusFound(s.ready, pid, Ready);
    } else if In(s.running, pid) {
      StatusFound(s.running, pid, Running);
    } else if In(s.blocked, pid) {
      StatusFound(s.blocked, pid, Blocked);
    } else if In(s.news, pid) {
      StatusFound(s.news, pid, New);
    }
  }
}
