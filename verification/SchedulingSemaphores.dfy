/** The semaphore law: as many processes wait on a semaphore as its value is below zero. */
module SchedulingSemaphores {
  import opened Scheduling
  import opened SchedulingCensus

  /** How many processes of a queue wait on a semaphore of that name. */
  ghost function Waiters(q: seq<Pcb>, waits: map<int, string>, name: string): nat {
    if q == [] then 0
    else (if SameName(Waiting(waits, q[0].pid), name) then 1 else 0) + Waiters(q[1..], waits, name)
  }

  lemma {:induction false} WaitersSnoc(q: seq<Pcb>, x: Pcb, waits: map<int, string>, name: string)
    ensures Waiters(q + [x], waits, name)
            == Waiters(q, waits, name) + if SameName(Waiting(waits, x.pid), name) then 1 else 0
  {
    if q == [] {
    } else {
      WaitersSnoc(q[1..], x, waits, name);
      assert (q + [x])[1..] == q[1..] + [x];
    }
  }

  lemma {:induction false} WaitersLeave(q: seq<Pcb>, pid: int, waits: map<int, string>, name: string)
    requires In(q, pid)
    ensures Waiters(Leave(q, pid), waits, name)
            == Waiters(q, waits, name) - if SameName(Waiting(waits, pid), name) then 1 else 0
  {
    if q[0].pid == pid {
    } else {
      WaitersLeave(q[1..], pid, waits, name);
      assert Leave(q, pid)[1..] == Leave(q[1..], pid);
    }
  }

  /** Only the entries of the processes in the queue matter. */
  lemma {:induction false} WaitersFrame(q: seq<Pcb>, waits: map<int, string>, pid: int, wait: string, name: string)
    requires !In(q, pid)
    ensures Waiters(q, waits[pid := wait], name) == Waiters(q, waits, name)
  {
    if q == [] {
    } else {
      WaitersFrame(q[1..], waits, pid, wait, name);
    }
  }

  lemma {:induction false} FindWaiterSome(q: seq<Pcb>, waits: map<int, string>, name: string)
    ensures FindWaiter(q, waits, name) < |q| <==> 0 < Waiters(q, waits, name)
  {
    if q == [] {
    } else {
      FindWaiterSome(q[1..], waits, name);
    }
  }

  // ---------------------------------------------------------------- the law

  /** Semaphores have names, and different ones whatever the case of the letters. */
  ghost predicate Named(sems: seq<Semaphore>) {
    && (forall k :: 0 <= k < |sems| ==> sems[k].name != "")
    && forall j, k :: 0 <= j < k < |sems| ==> !SameName(sems[j].name, sems[k].name)
  }

  function Debt(value: int): nat {
    if value < 0 then -value else 0
  }

  ghost predicate Balanced(sems: seq<Semaphore>, waits: map<int, string>, blocked: seq<Pcb>) {
    forall k :: 0 <= k < |sems| ==> Waiters(blocked, waits, sems[k].name) == Debt(sems[k].value)
  }

  /** The blocked processes are those that wait, and each waits on a semaphore. */
  ghost predicate OnlyBlockedWait(sems: seq<Semaphore>, waits: map<int, string>, blocked: seq<Pcb>) {
    && (forall p :: !In(blocked, p) ==> Waiting(waits, p) == "")
    && (forall p :: In(blocked, p) ==> FindSemaphore(sems, Waiting(waits, p)) < |sems|)
  }

  ghost predicate Lawful(sems: seq<Semaphore>, waits: map<int, string>, blocked: seq<Pcb>) {
    Named(sems) && Balanced(sems, waits, blocked) && OnlyBlockedWait(sems, waits, blocked)
  }

  ghost predicate SemaphoresLawful(s: State) {
    Lawful(s.semaphores, s.waits, s.blocked)
  }

  lemma {:induction false} FindByNames(sems: seq<Semaphore>, sems': seq<Semaphore>, name: string)
    requires |sems'| == |sems| && forall k :: 0 <= k < |sems| ==> sems'[k].name == sems[k].name
    ensures FindSemaphore(sems', name) == FindSemaphore(sems, name)
  {
    if sems == [] {
    } else {
      FindByNames(sems[1..], sems'[1..], name);
    }
  }

  lemma NoName(name: string)
    ensures SameName(name, "") <==> name == ""
  {
  }

  // ---------------------------------------------------------------- what each operation does to it

  /** A unit is taken from a semaphore that has one. */
  lemma UnitTaken(sems: seq<Semaphore>, waits: map<int, string>, blocked: seq<Pcb>, k: nat)
    requires Lawful(sems, waits, blocked) && k < |sems| && 0 < sems[k].value
    ensures Lawful(WithValue(sems, k, -1), waits, blocked)
  {
    forall p
      ensures FindSemaphore(WithValue(sems, k, -1), Waiting(waits, p)) == FindSemaphore(sems, Waiting(waits, p))
    {
      FindByNames(sems, WithValue(sems, k, -1), Waiting(waits, p));
    }
  }

  /** A unit is given back and nobody waits for it. */
  lemma UnitGiven(sems: seq<Semaphore>, waits: map<int, string>, blocked: seq<Pcb>, k: nat)
    requires Lawful(sems, waits, blocked) && k < |sems| && 0 <= sems[k].value
    ensures Lawful(WithValue(sems, k, 1), waits, blocked)
  {
    forall p
      ensures FindSemaphore(WithValue(sems, k, 1), Waiting(waits, p)) == FindSemaphore(sems, Waiting(waits, p))
    {
      FindByNames(sems, WithValue(sems, k, 1), Waiting(waits, p));
    }
  }

  /** A process blocks on a semaphore that has no unit. */
  lemma OneMoreWaits(sems: seq<Semaphore>, waits: map<int, string>, blocked: seq<Pcb>, k: nat, pid: int)
    requires Lawful(sems, waits, blocked) && k < |sems| && sems[k].value <= 0 && !In(blocked, pid)
    ensures Lawful(WithValue(sems, k, -1), waits[pid := sems[k].name], blocked + [Pcb(pid, Blocked)])
  {
    var sems', waits', blocked' := WithValue(sems, k, -1), waits[pid := sems[k].name], blocked + [Pcb(pid, Blocked)];
    forall j | 0 <= j < |sems'|
      ensures Waiters(blocked', waits', sems'[j].name) == Debt(sems'[j].value)
    {
      WaitersFrame(blocked, waits, pid, sems[k].name, sems[j].name);
      WaitersSnoc(blocked, Pcb(pid, Blocked), waits', sems[j].name);
      assert j != k ==> !SameName(sems[k].name, sems[j].name);
    }
    forall p
      ensures In(blocked', p) <==> In(blocked, p) || p == pid
      ensures In(blocked', p) ==> FindSemaphore(sems', Waiting(waits', p)) < |sems'|
    {
      InSnoc(blocked, Pcb(pid, Blocked), p);
      FindByNames(sems, sems', Waiting(waits', p));
      assert SameName(sems[k].name, sems[k].name);
    }
  }

  /** A waiting process leaves, woken or killed, and its semaphore gets the unit. */
  lemma OneLessWaits(sems: seq<Semaphore>, waits: map<int, string>, blocked: seq<Pcb>, k: nat, pid: int)
    requires Lawful(sems, waits, blocked) && In(blocked, pid) && Times(blocked, pid) == 1
    requires k < |sems| && SameName(Waiting(waits, pid), sems[k].name)
    ensures Lawful(WithValue(sems, k, 1), waits[pid := ""], Leave(blocked, pid))
  {
    var sems', waits', blocked' := WithValue(sems, k, 1), waits[pid := ""], Leave(blocked, pid);
    forall p
      ensures In(blocked', p) <==> In(blocked, p) && p != pid
      ensures In(blocked', p) ==> FindSemaphore(sems', Waiting(waits', p)) < |sems'|
    {
      TimesIn(blocked', p);
      TimesIn(blocked, p);
      TimesLeave(blocked, pid, p);
      FindByNames(sems, sems', Waiting(waits', p));
    }
    forall j | 0 <= j < |sems'|
      ensures Waiters(blocked', waits', sems'[j].name) == Debt(sems'[j].value)
    {
      WaitersLeave(blocked, pid, waits, sems[j].name);
      WaitersFrame(blocked', waits, pid, "", sems[j].name);
      assert j != k ==> !SameName(sems[k].name, sems[j].name);
    }
  }

  /** The clean-up loop gives one unit to the semaphore the process waited on, and to no other. */
  lemma {:induction false} ReleasedOne(sems: seq<Semaphore>, name: string)
    requires Named(sems) && name != "" && FindSemaphore(sems, name) < |sems|
    ensures Released(sems, name) == WithValue(sems, FindSemaphore(sems, name), 1)
  {
    if SameName(sems[0].name, name) {
      ReleasedNone(sems[1..]);
    } else {
      ReleasedOne(sems[1..], name);
    }
  }

  lemma {:induction false} ReleasedNone(sems: seq<Semaphore>)
    requires forall k :: 0 <= k < |sems| ==> sems[k].name != ""
    ensures Released(sems, "") == sems
  {
    if sems == [] {
    } else {
      NoName(sems[0].name);
      ReleasedNone(sems[1..]);
    }
  }

  // ---------------------------------------------------------------- parts of a step that leave it alone

  ghost predicate SameWaits(s: State, t: State) {
    t.semaphores == s.semaphores && t.waits == s.waits && t.blocked == s.blocked
  }

  lemma PlannedSameWaits(s: State)
    ensures SameWaits(s, Planned(s)) && SameWaits(s, PlannedIfReady(s))
  {
  }

  lemma PromotedSameWaits(s: State, admitted: bool)
    ensures SameWaits(s, Promoted(s, admitted))
  {
  }

  lemma {:induction false} AdmittedSameWaits(s: State, answers: seq<bool>)
    ensures SameWaits(s, Admitted(s, answers))
    decreases |answers|
  {
    if answers == [] || s.degree <= s.count {
    } else {
      PromotedSameWaits(s, answers[0]);
      AdmittedSameWaits(Promoted(s, answers[0]), answers[1..]);
    }
  }

  /** A process that is ready or running is not blocked. */
  lemma NotBlocked(s: State, pid: int)
    requires Unique(s) && (In(s.running, pid) || In(s.ready, pid))
    ensures !In(s.blocked, pid)
  {
    TimesIn(s.running, pid);
    TimesIn(s.ready, pid);
    TimesIn(s.blocked, pid);
    assert Census(s, pid) <= 1;
  }

  lemma RunningEndsSameWaits(s: State, pid: int)
    requires Unique(s) && SemaphoresLawful(s)
    ensures SameWaits(s, RunningToFinished(s, pid))
  {
    if In(s.running, pid) { NotBlocked(s, pid); }
  }

  // ---------------------------------------------------------------- whole steps

  lemma BlockedEndsLawful(s: State, pid: int)
    requires Unique(s) && SemaphoresLawful(s)
    ensures SemaphoresLawful(BlockedToFinished(s, pid))
  {
    if In(s.blocked, pid) {
      var name := Waiting(s.waits, pid);
      var k := FindSemaphore(s.semaphores, name);
      TimesIn(s.blocked, pid);
      assert Census(s, pid) <= 1;
      NoName(s.semaphores[k].name);
      ReleasedOne(s.semaphores, name);
      OneLessWaits(s.semaphores, s.waits, s.blocked, k, pid);
    }
  }

  lemma ToFinishedLawful(s: State, pid: int, status: Status)
    requires Unique(s) && SemaphoresLawful(s)
    ensures SemaphoresLawful(ToFinished(s, pid, status))
  {
    BlockedEndsLawful(s, pid);
    RunningEndsSameWaits(s, pid);
    if In(s.ready, pid) { NotBlocked(s, pid); }
  }

  lemma StartedLawful(s: State, admitted: bool)
    requires Placed(s) && SemaphoresLawful(s)
    ensures SemaphoresLawful(Started(s, admitted))
  {
    var pid := s.maxPid + 1;
    TimesIn(s.blocked, pid);
    assert Census(s, pid) == 0;
    FreshEntryLawful(s.semaphores, s.waits, s.blocked, pid);
    var t := s.(maxPid := pid, waits := s.waits[pid := ""]);
    StartedSameWaits(s, admitted);
    LawfulStays(t, Started(s, admitted));
  }

  lemma StartedSameWaits(s: State, admitted: bool)
    ensures SameWaits(s.(waits := s.waits[s.maxPid + 1 := ""]), Started(s, admitted))
  {
    ArrivedSameWaits(s, admitted);
    PlannedSameWaits(Arrived(s, admitted));
  }

  lemma ArrivedSameWaits(s: State, admitted: bool)
    ensures SameWaits(s.(waits := s.waits[s.maxPid + 1 := ""]), Arrived(s, admitted))
  {
  }

  lemma LawfulStays(s: State, t: State)
    requires SameWaits(s, t) && SemaphoresLawful(s)
    ensures SemaphoresLawful(t)
  {
  }

  lemma ExitSameWaits(s: State, socket: int, pid: int, admitted: bool)
    requires Unique(s) && SemaphoresLawful(s)
    ensures SameWaits(s, Exited(s, socket, pid, admitted)) && SameWaits(s, Aborted(s, socket, pid, admitted))
  {
    var t := CpuFreed(CpuReset(RunningToFinished(s, pid), socket), socket);
    RunningEndsSameWaits(s, pid);
    PromotedSameWaits(t, admitted);
    PlannedSameWaits(Promoted(t, admitted));
  }

  lemma KilledLawful(s: State, pid: int)
    requires Unique(s) && SemaphoresLawful(s)
    ensures SemaphoresLawful(Killed(s, pid))
  {
    KilledFromLawful(s, pid, StatusOf(s, pid));
  }

  lemma KilledFromLawful(s: State, pid: int, status: Status)
    requires Unique(s) && SemaphoresLawful(s)
    ensures SemaphoresLawful(KilledFrom(s, pid, status))
  {
    if status.Blocked? { BlockedEndsLawful(s, pid); }
  }

  lemma AbortedLawful(s: State, pid: int)
    requires Unique(s) && SemaphoresLawful(s)
    ensures SemaphoresLawful(AbortedByConsole(s, pid))
  {
    ToFinishedLawful(s, pid, StatusOf(s, pid));
  }

  lemma FreshEntryLawful(sems: seq<Semaphore>, waits: map<int, string>, blocked: seq<Pcb>, pid: int)
    requires Lawful(sems, waits, blocked) && !In(blocked, pid)
    ensures Lawful(sems, waits[pid := ""], blocked)
  {
    forall k | 0 <= k < |sems|
      ensures Waiters(blocked, waits[pid := ""], sems[k].name) == Debt(sems[k].value)
    {
      WaitersFrame(blocked, waits, pid, "", sems[k].name);
    }
  }

  lemma SentenceSameWaits(s: State, socket: int, pid: int, admitted: bool)
    requires Placed(s) && SemaphoresLawful(s)
    ensures SameWaits(s, SentenceDone(s, socket, pid, admitted))
  {
    if CpuOf(s.cpus, socket).pid in s.doomed {
      KilledOnCpuSameWaits(s, socket, pid, admitted);
    } else {
      GoesOnSameWaits(s, socket, pid);
    }
  }

  lemma KilledOnCpuSameWaits(s: State, socket: int, pid: int, admitted: bool)
    requires Placed(s) && SemaphoresLawful(s)
    ensures SameWaits(s, KilledOnCpu(s, socket, pid, admitted))
  {
    var t := s.(doomed := Drop(s.doomed, CpuOf(s.cpus, socket).pid));
    NothingMoved(s, t);
    MovedPlaced(s, t);
    RunningEndsSameWaits(t, pid);
    PromotedSameWaits(RunningToFinished(t, pid), admitted);
  }

  lemma GoesOnSameWaits(s: State, socket: int, pid: int)
    ensures SameWaits(s, GoesOn(s, socket, pid))
  {
  }

  /** Killed at a wait, a process leaves the semaphores as if it had never waited. */
  lemma KilledAtWait(s: State, k: nat, socket: int, pid: int, admitted: bool)
    requires Placed(s) && SemaphoresLawful(s) && k < |s.semaphores| && In(s.running, pid)
    ensures SameWaits(s, KilledWaiting(Changed(s, k, -1), k, socket, pid, admitted))
  {
    var t0 := Changed(s, k, -1).(doomed := Drop(s.doomed, pid));
    NotBlocked(s, pid);
    assert Waiting(t0.waits, pid) == "";
    var t := RunningToFinished(t0, pid);
    assert SameWaits(t0, t);
    PromotedSameWaits(t, admitted);
    assert WithValue(WithValue(s.semaphores, k, -1), k, 1) == s.semaphores;
  }

  lemma WaitLawful(s: State, socket: int, pid: int, name: string, admitted: bool)
    requires Placed(s) && SemaphoresLawful(s) && In(s.running, pid)
    ensures SemaphoresLawful(Waited(s, socket, pid, name, admitted))
  {
    var k := FindSemaphore(s.semaphores, name);
    if MustWait(s, name) {
      var t := Changed(s, k, -1);
      if pid in s.doomed {
        KilledAtWait(s, k, socket, pid, admitted);
        PlannedSameWaits(KilledWaiting(t, k, socket, pid, admitted));
      } else {
        NotBlocked(s, pid);
        OneMoreWaits(s.semaphores, s.waits, s.blocked, k, pid);
        PlannedSameWaits(MadeToWait(t, k, socket, pid));
      }
    } else if k < |s.semaphores| {
      UnitTaken(s.semaphores, s.waits, s.blocked, k);
    }
  }

  /** The process a signal wakes. */
  lemma SignalLawful(s: State, name: string)
    requires Placed(s) && SemaphoresLawful(s)
    ensures SemaphoresLawful(Signalled(s, name))
  {
    var k := FindSemaphore(s.semaphores, name);
    if k < |s.semaphores| {
      var t := Changed(s, k, 1);
      var i := FindWaiter(s.blocked, s.waits, s.semaphores[k].name);
      FindWaiterSome(s.blocked, s.waits, s.semaphores[k].name);
      if i < |s.blocked| {
        var pid := s.blocked[i].pid;
        AtIsIn(s.blocked, i);
        TimesIn(s.blocked, pid);
        assert Census(s, pid) <= 1;
        OneLessWaits(s.semaphores, s.waits, s.blocked, k, pid);
        PlannedSameWaits(BlockedToReady(t, pid).(waits := t.waits[pid := ""]));
      } else {
        UnitGiven(s.semaphores, s.waits, s.blocked, k);
      }
    }
  }

  /** The semaphore law survives every step, whoever is killed or refused meanwhile. */
  lemma StepLawful(s: State, e: Event)
    requires Placed(s) && SemaphoresLawful(s) && Possible(s, e)
    ensures SemaphoresLawful(Step(s, e))
  {
    match e
    case Start(admitted) => StartedLawful(s, admitted);
    case Connect(_, _) => LawfulStays(s, Step(s, e));
    case Handshake =>
      PlannedSameWaits(s);
      LawfulStays(s, Step(s, e));
    case Sentence(socket, pid, admitted) =>
      SentenceSameWaits(s, socket, pid, admitted);
      LawfulStays(s, Step(s, e));
    case Wait(socket, pid, name, admitted) => WaitLawful(s, socket, pid, name, admitted);
    case Signal(name) => SignalLawful(s, name);
    case Exit(socket, pid, admitted) =>
      ExitSameWaits(s, socket, pid, admitted);
      LawfulStays(s, Step(s, e));
    case Abort(socket, pid, admitted) =>
      ExitSameWaits(s, socket, pid, admitted);
      LawfulStays(s, Step(s, e));
    case Oversized(socket) =>
      RunningEndsSameWaits(s, s.cpus[socket].pid);
      LawfulStays(s, Step(s, e));
    case ConsoleAbort(pid) => AbortedLawful(s, pid);
    case Kill(pid) => KilledLawful(s, pid);
    case SetDegree(degree, answers) =>
      AdmittedSameWaits(s.(degree := degree), answers);
      LawfulStays(s, Step(s, e));
  }

  /**
   A signal that turns `s` into `t` has woken a process exactly when the semaphore's value was below zero: the one that
   had been blocked longest among those that wait on it, and no other.
   */
  ghost predicate WokeRightly(s: State, name: string, t: State)
    requires FindSemaphore(s.semaphores, name) < |s.semaphores|
  {
    var sem := s.semaphores[FindSemaphore(s.semaphores, name)];
    var i := FindWaiter(s.blocked, s.waits, sem.name);
    && (sem.value < 0 <==> i < |s.blocked|)
    && (sem.value < 0 ==> t.blocked == Leave(s.blocked, s.blocked[i].pid) && |t.blocked| == |s.blocked| - 1 &&
                          (In(t.ready, s.blocked[i].pid) || In(t.running, s.blocked[i].pid)))
    && (sem.value >= 0 ==> t.blocked == s.blocked && t.ready == s.ready && t.running == s.running)
  }

  lemma SignalWakes(s: State, name: string)
    requires Placed(s) && SemaphoresLawful(s) && FindSemaphore(s.semaphores, name) < |s.semaphores|
    ensures WokeRightly(s, name, Signalled(s, name))
  {
    var k := FindSemaphore(s.semaphores, name);
    var sem := s.semaphores[k];
    var i := FindWaiter(s.blocked, s.waits, sem.name);
    FindWaiterSome(s.blocked, s.waits, sem.name);
    if i < |s.blocked| {
      var pid := s.blocked[i].pid;
      AtIsIn(s.blocked, i);
      LeaveSize(s.blocked, pid);
      WakesUp(Changed(s, k, 1), pid);
    }
  }

  lemma WakesUp(s: State, pid: int)
    requires In(s.blocked, pid)
    ensures var u := BlockedToReady(s, pid).(waits := s.waits[pid := ""]);
            var t := if u.idle != [] then Planned(u) else u;
            In(t.ready, pid) || In(t.running, pid)
  {
    var u := BlockedToReady(s, pid).(waits := s.waits[pid := ""]);
    InSnoc(s.ready, Pcb(pid, Ready), pid);
    InSnoc(u.running, Pcb(u.ready[0].pid, Running), pid);
  }
}
