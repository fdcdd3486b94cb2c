/** Which CPU runs which process, and for how many sentences. */
module SchedulingCpus {
  import opened Scheduling
  import opened SchedulingCensus

  // ---------------------------------------------------------------- the CPU lists

  ghost function On(xs: seq<int>, x: int): nat {
    if xs == [] then 0 else (if xs[0] == x then 1 else 0) + On(xs[1..], x)
  }

  lemma {:induction false} OnSnoc(xs: seq<int>, y: int, x: int)
    ensures On(xs + [y], x) == On(xs, x) + if x == y then 1 else 0
  {
    if xs == [] {
    } else {
      OnSnoc(xs[1..], y, x);
      assert (xs + [y])[1..] == xs[1..] + [y];
    }
  }

  lemma {:induction false} OnDrop(xs: seq<int>, y: int, x: int)
    ensures On(Drop(xs, y), x) == On(xs, x) - if x == y && 0 < On(xs, y) then 1 else 0
  {
    if xs == [] || xs[0] == y {
    } else {
      OnDrop(xs[1..], y, x);
      assert Drop(xs, y)[1..] == Drop(xs[1..], y);
    }
  }

  /** How many busy CPUs were given that process. */
  ghost function Runs(busy: seq<int>, cpus: map<int, Cpu>, p: int): nat {
    if busy == [] then 0 else (if CpuOf(cpus, busy[0]).pid == p then 1 else 0) + Runs(busy[1..], cpus, p)
  }

  lemma {:induction false} RunsSnoc(busy: seq<int>, x: int, cpus: map<int, Cpu>, p: int)
    ensures Runs(busy + [x], cpus, p) == Runs(busy, cpus, p) + if CpuOf(cpus, x).pid == p then 1 else 0
  {
    if busy == [] {
    } else {
      RunsSnoc(busy[1..], x, cpus, p);
      assert (busy + [x])[1..] == busy[1..] + [x];
    }
  }

  lemma {:induction false} RunsDrop(busy: seq<int>, x: int, cpus: map<int, Cpu>, p: int)
    requires 0 < On(busy, x)
    ensures Runs(Drop(busy, x), cpus, p) == Runs(busy, cpus, p) - if CpuOf(cpus, x).pid == p then 1 else 0
  {
    if busy[0] == x {
    } else {
      RunsDrop(busy[1..], x, cpus, p);
      assert Drop(busy, x)[1..] == Drop(busy[1..], x);
    }
  }

  /** What a CPU that is at most once busy contributes when it is given another process. */
  lemma {:induction false} RunsUpdate(busy: seq<int>, cpus: map<int, Cpu>, x: int, cpu: Cpu, p: int)
    requires On(busy, x) <= 1
    ensures Runs(busy, cpus[x := cpu], p)
            == Runs(busy, cpus, p) + if On(busy, x) == 0 then 0
                                     else (if cpu.pid == p then 1 else 0) - if CpuOf(cpus, x).pid == p then 1 else 0
  {
    if busy == [] {
    } else {
      RunsUpdate(busy[1..], cpus, x, cpu, p);
    }
  }

  // ---------------------------------------------------------------- consistency

  /** Every connected CPU is in one list, once. */
  ghost predicate OneList(idle: seq<int>, busy: seq<int>, cpus: map<int, Cpu>) {
    forall x :: On(idle, x) + On(busy, x) == if x in cpus then 1 else 0
  }

  /** Every running process has one busy CPU, and a busy CPU a process that runs or has just been ended. */
  ghost predicate Assigned(s: State) {
    forall p :: Runs(s.busy, s.cpus, p) <= 1 && (In(s.running, p) ==> Runs(s.busy, s.cpus, p) == 1) &&
                (Runs(s.busy, s.cpus, p) == 1 ==> In(s.running, p) || In(s.finished, p))
  }

  ghost predicate CpusConsistent(s: State) {
    OneList(s.idle, s.busy, s.cpus) && Assigned(s)
  }

  /** A busy CPU reports, and about the process it was given. */
  ghost predicate Genuine(s: State, socket: int, pid: int) {
    0 < On(s.busy, socket) && CpuOf(s.cpus, socket).pid == pid
  }

  /** A process is in at most one of the queues that matter here. */
  lemma OnePlace(s: State, p: int)
    requires Unique(s)
    ensures In(s.ready, p) ==> !In(s.running, p) && !In(s.finished, p)
    ensures In(s.running, p) ==> !In(s.finished, p)
  {
    TimesIn(s.ready, p);
    TimesIn(s.running, p);
    TimesIn(s.finished, p);
    assert Census(s, p) <= 1;
  }

  lemma InLeave(q: seq<Pcb>, pid: int, p: int)
    ensures In(Leave(q, pid), p) ==> In(q, p)
    ensures p != pid ==> (In(Leave(q, pid), p) <==> In(q, p))
    ensures Times(q, pid) <= 1 ==> !In(Leave(q, pid), pid)
  {
    TimesIn(q, p);
    TimesIn(q, pid);
    TimesIn(Leave(q, pid), p);
    TimesIn(Leave(q, pid), pid);
    TimesLeave(q, pid, p);
    TimesLeave(q, pid, pid);
  }

  // ---------------------------------------------------------------- what keeps it

  /** Nothing changes but that more processes have finished, and perhaps fewer run. */
  lemma EndedConsistent(s: State, t: State)
    requires CpusConsistent(s) && t.idle == s.idle && t.busy == s.busy && t.cpus == s.cpus
    requires forall p :: In(t.running, p) ==> In(s.running, p)
    requires forall p :: In(s.finished, p) ==> In(t.finished, p)
    requires forall p :: In(s.running, p) && !In(t.running, p) ==> In(t.finished, p)
    ensures CpusConsistent(t)
  {
    forall p
      ensures Runs(t.busy, t.cpus, p) <= 1 && (In(t.running, p) ==> Runs(t.busy, t.cpus, p) == 1)
      ensures Runs(t.busy, t.cpus, p) == 1 ==> In(t.running, p) || In(t.finished, p)
    {
      assert Runs(s.busy, s.cpus, p) <= 1;
    }
  }

  lemma RunningEndsConsistent(s: State, pid: int)
    requires CpusConsistent(s)
    ensures CpusConsistent(RunningToFinished(s, pid))
  {
    var t := RunningToFinished(s, pid);
    forall p
      ensures In(t.running, p) ==> In(s.running, p)
      ensures In(s.finished, p) ==> In(t.finished, p)
      ensures In(s.running, p) && !In(t.running, p) ==> In(t.finished, p)
    {
      InLeave(s.running, pid, p);
      InSnoc(s.finished, Pcb(pid, Finished), p);
    }
    EndedConsistent(s, t);
  }

  /** A CPU whose process does not run any more may become idle. */
  lemma FreedConsistent(s: State, socket: int)
    requires CpusConsistent(s) && 0 < On(s.busy, socket) && !In(s.running, CpuOf(s.cpus, socket).pid)
    ensures CpusConsistent(CpuFreed(s, socket))
  {
    var t := CpuFreed(s, socket);
    forall x
      ensures On(t.idle, x) + On(t.busy, x) == if x in t.cpus then 1 else 0
    {
      OnSnoc(s.idle, socket, x);
      OnDrop(s.busy, socket, x);
      assert On(s.idle, x) + On(s.busy, x) == if x in s.cpus then 1 else 0;
    }
    forall p
      ensures Runs(t.busy, t.cpus, p) <= 1 && (In(t.running, p) ==> Runs(t.busy, t.cpus, p) == 1)
      ensures Runs(t.busy, t.cpus, p) == 1 ==> In(t.running, p) || In(t.finished, p)
    {
      RunsDrop(s.busy, socket, s.cpus, p);
      assert Runs(s.busy, s.cpus, p) <= 1;
    }
  }

  /** Changing an idle CPU changes nothing. */
  lemma IdleChangedConsistent(s: State, socket: int, cpu: Cpu)
    requires CpusConsistent(s) && On(s.busy, socket) == 0 && socket in s.cpus
    ensures CpusConsistent(s.(cpus := s.cpus[socket := cpu]))
  {
    var t := s.(cpus := s.cpus[socket := cpu]);
    forall p
      ensures Runs(t.busy, t.cpus, p) == Runs(s.busy, s.cpus, p)
    {
      RunsUpdate(s.busy, s.cpus, socket, cpu, p);
    }
    forall p
      ensures Runs(t.busy, t.cpus, p) <= 1 && (In(t.running, p) ==> Runs(t.busy, t.cpus, p) == 1)
      ensures Runs(t.busy, t.cpus, p) == 1 ==> In(t.running, p) || In(t.finished, p)
    {
      assert Runs(s.busy, s.cpus, p) <= 1;
    }
  }

  /** An idle CPU takes the next ready process. */
  lemma PlannedConsistent(s: State)
    requires CpusConsistent(s) && Unique(s) && s.ready != []
    ensures CpusConsistent(Planned(s))
  {
    if s.idle != [] {
      var t, x, p0 := Planned(s), s.idle[0], s.ready[0].pid;
      var cpu := CpuOf(t.cpus, x);
      assert t.cpus == s.cpus[x := cpu] && cpu.pid == p0;
      assert On(s.idle, x) + On(s.busy, x) <= 1;
      forall y
        ensures On(t.idle, y) + On(t.busy, y) == if y in t.cpus then 1 else 0
      {
        OnSnoc(s.busy, x, y);
        assert On(s.idle, y) + On(s.busy, y) == if y in s.cpus then 1 else 0;
      }
      OnePlace(s, p0);
      forall p
        ensures Runs(t.busy, t.cpus, p) <= 1 && (In(t.running, p) ==> Runs(t.busy, t.cpus, p) == 1)
        ensures Runs(t.busy, t.cpus, p) == 1 ==> In(t.running, p) || In(t.finished, p)
      {
        RunsSnoc(s.busy, x, t.cpus, p);
        RunsUpdate(s.busy, s.cpus, x, cpu, p);
        InSnoc(s.running, Pcb(p0, Running), p);
        assert Runs(s.busy, s.cpus, p) <= 1;
        assert Runs(s.busy, s.cpus, p0) <= 1;
      }
    }
  }

  lemma PromotedConsistent(s: State, admitted: bool)
    requires CpusConsistent(s) && Placed(s)
    ensures CpusConsistent(Promoted(s, admitted))
    ensures forall p :: In(s.finished, p) ==> In(Promoted(s, admitted).finished, p)
  {
    if s.news != [] {
      var t := s.(news := s.news[1..]);
      if admitted {
        var u := NewToReady(t, s.news[0].pid);
        AdmissionMoves(s);
        MovedPlaced(s, u);
        assert CpusConsistent(u);
        if u.idle != [] { PlannedConsistent(u); }
      } else {
        PromotedLoses(s, admitted);
      }
    }
  }

  lemma BlockedConsistent(s: State, k: nat, socket: int, pid: int)
    requires CpusConsistent(s) && Unique(s) && k < |s.semaphores| && In(s.running, pid) && Genuine(s, socket, pid)
    ensures CpusConsistent(MadeToWait(s, k, socket, pid))
  {
    var t := MadeToWait(s, k, socket, pid);
    TimesIn(s.running, pid);
    assert Census(s, pid) <= 1;
    forall x
      ensures On(t.idle, x) + On(t.busy, x) == if x in t.cpus then 1 else 0
    {
      OnSnoc(s.idle, socket, x);
      OnDrop(s.busy, socket, x);
      assert On(s.idle, x) + On(s.busy, x) == if x in s.cpus then 1 else 0;
    }
    forall p
      ensures Runs(t.busy, t.cpus, p) <= 1 && (In(t.running, p) ==> Runs(t.busy, t.cpus, p) == 1)
      ensures Runs(t.busy, t.cpus, p) == 1 ==> In(t.running, p) || In(t.finished, p)
    {
      RunsDrop(s.busy, socket, s.cpus, p);
      InLeave(s.running, pid, p);
      assert Runs(s.busy, s.cpus, p) <= 1;
    }
  }

  /** The CPU a quantum ends on is given the next process, perhaps the same one. */
  lemma SwitchedConsistent(s: State, socket: int, pid: int)
    requires CpusConsistent(s) && Unique(s) && In(s.running, pid) && Genuine(s, socket, pid)
    ensures CpusConsistent(Dispatched(RunningToReady(s, pid), socket))
  {
    var r := RunningToReady(s, pid);
    RunningToReadyMoves(s, pid);
    var t, p0 := Dispatched(r, socket), r.ready[0].pid;
    var cpu := CpuOf(t.cpus, socket);
    assert t.cpus == s.cpus[socket := cpu] && cpu.pid == p0;
    assert On(s.idle, socket) + On(s.busy, socket) <= 1;
    assert On(s.idle, socket) + On(s.busy, socket) == if socket in s.cpus then 1 else 0;
    OnePlace(s, p0);
    TimesIn(s.running, pid);
    assert Census(s, pid) <= 1;
    assert In(s.ready, p0) || p0 == pid;
    forall p
      ensures Runs(t.busy, t.cpus, p) <= 1 && (In(t.running, p) ==> Runs(t.busy, t.cpus, p) == 1)
      ensures Runs(t.busy, t.cpus, p) == 1 ==> In(t.running, p) || In(t.finished, p)
    {
      RunsUpdate(s.busy, s.cpus, socket, cpu, p);
      InLeave(s.running, pid, p);
      InSnoc(r.running, Pcb(p0, Running), p);
      assert Runs(s.busy, s.cpus, p) <= 1;
      assert Runs(s.busy, s.cpus, p0) <= 1;
    }
  }

  lemma {:induction false} ScannedFound(busy: seq<int>, socket: int)
    requires 0 < On(busy, socket)
    ensures Scanned(busy, socket) == socket
  {
    if busy[0] == socket {
    } else {
      ScannedFound(busy[1..], socket);
    }
  }

  // ---------------------------------------------------------------- a process that ends on its CPU

  /** After `RunningToFinished` of the process of a busy CPU, that CPU may become idle. */
  lemma EndedAndFreed(s: State, socket: int, pid: int)
    requires CpusConsistent(s) && Unique(s) && Genuine(s, socket, pid)
    ensures var t := RunningToFinished(s, pid);
            CpusConsistent(t) && Genuine(t, socket, pid) && !In(t.running, pid) && CpusConsistent(CpuFreed(t, socket))
  {
    RunningEndsConsistent(s, pid);
    OnlyOnce(s, pid);
    InLeave(s.running, pid, pid);
    FreedConsistent(RunningToFinished(s, pid), socket);
  }

  lemma OnlyOnce(s: State, pid: int)
    requires Unique(s)
    ensures Times(s.running, pid) <= 1
  {
    assert Census(s, pid) <= 1;
  }

  /** The exit and the abort of a process leave its CPU idle, its quantum and process number reset. */
  lemma ExitConsistent(s: State, socket: int, pid: int, admitted: bool)
    requires CpusConsistent(s) && Placed(s) && Genuine(s, socket, pid)
    ensures CpusConsistent(Exited(s, socket, pid, admitted)) && CpusConsistent(Aborted(s, socket, pid, admitted))
  {
    var t := RunningToFinished(s, pid);
    EndedAndFreed(s, socket, pid);
    var u := CpuFreed(t, socket);
    OnDrop(t.busy, socket, socket);
    OnSnoc(t.idle, socket, socket);
    assert On(u.idle, socket) + On(u.busy, socket) == if socket in u.cpus then 1 else 0;
    var cpu := CpuOf(u.cpus, socket).(pid := 0, quantum := 0);
    IdleChangedConsistent(u, socket, cpu);
    var v := CpuFreed(CpuReset(t, socket), socket);
    assert v == u.(cpus := u.cpus[socket := cpu]);
    RunningToFinishedMoves(s, pid);
    NothingMoved(t, v);
    MovedTwice(s, t, v);
    MovedPlaced(s, v);
    PromotedConsistent(v, admitted);
    PromotedPlaced(v, admitted);
    if Promoted(v, admitted).ready != [] { PlannedConsistent(Promoted(v, admitted)); }
  }

  /** The state in which the kill branch looks for the next process of the CPU. */
  function AfterKill(s: State, socket: int, pid: int, admitted: bool): State {
    CpuFreed(Promoted(RunningToFinished(s.(doomed := Drop(s.doomed, CpuOf(s.cpus, socket).pid)), pid), admitted),
             socket)
  }

  lemma AfterKillConsistent(s: State, socket: int, pid: int, admitted: bool)
    requires CpusConsistent(s) && Placed(s) && In(s.running, pid) && Genuine(s, socket, pid)
    ensures var t := AfterKill(s, socket, pid, admitted);
            CpusConsistent(t) && Placed(t) && On(t.busy, socket) == 0 && socket in t.cpus
  {
    var t0 := s.(doomed := Drop(s.doomed, CpuOf(s.cpus, socket).pid));
    var t := RunningToFinished(t0, pid);
    NothingMoved(s, t0);
    MovedPlaced(s, t0);
    EndedAndFreed(t0, socket, pid);
    RunningToFinishedMoves(t0, pid);
    MovedPlaced(t0, t);
    PromotedConsistent(t, admitted);
    PromotedPlaced(t, admitted);
    var u := Promoted(t, admitted);
    InSnoc(t0.finished, Pcb(pid, Finished), pid);
    PromotedKeepsBusy(t, admitted, socket);
    OnePlace(u, pid);
    FreedConsistent(u, socket);
    NothingMoved(u, CpuFreed(u, socket));
    MovedPlaced(u, CpuFreed(u, socket));
    OnDrop(u.busy, socket, socket);
    assert On(u.idle, socket) + On(u.busy, socket) == if socket in u.cpus then 1 else 0;
  }

  /** A promotion may use an idle CPU, but does not touch a busy one. */
  lemma PromotedKeepsBusy(s: State, admitted: bool, socket: int)
    requires CpusConsistent(s) && 0 < On(s.busy, socket)
    ensures var t := Promoted(s, admitted);
            0 < On(t.busy, socket) && CpuOf(t.cpus, socket) == CpuOf(s.cpus, socket)
  {
    if s.idle != [] {
      OnSnoc(s.busy, s.idle[0], socket);
      assert On(s.idle, socket) + On(s.busy, socket) <= 1;
    }
  }

  /**
   No process is ready when the kill branch looks for the next one: the only new one, if any, has gone to an idle
   CPU.
   */
  predicate NoneReady(s: State, admitted: bool) {
    s.ready == [] && (s.news == [] || !admitted || s.idle != [])
  }

  lemma AfterKillReady(s: State, socket: int, pid: int, admitted: bool)
    ensures AfterKill(s, socket, pid, admitted).ready == [] <==> NoneReady(s, admitted)
  {
    var t := RunningToFinished(s.(doomed := Drop(s.doomed, CpuOf(s.cpus, socket).pid)), pid);
    assert t.ready == s.ready && t.news == s.news && t.idle == s.idle;
    PromotedReady(t, admitted);
  }

  lemma PromotedReady(s: State, admitted: bool)
    ensures Promoted(s, admitted).ready == [] <==> NoneReady(s, admitted)
  {
    if s.news != [] && admitted && s.idle != [] {
      var u := NewToReady(s.(news := s.news[1..]), s.news[0].pid);
      assert Planned(u).ready == u.ready[1..];
    }
  }

  /**
   The kill branch leaves the CPU lists consistent if and only if no process is ready when it looks for the
   next one: else that process runs on a CPU that is listed as idle.
   */
  lemma KillConsistentIff(s: State, socket: int, pid: int, admitted: bool)
    requires CpusConsistent(s) && Placed(s) && In(s.running, pid) && Genuine(s, socket, pid)
    ensures CpusConsistent(KilledOnCpu(s, socket, pid, admitted)) <==> NoneReady(s, admitted)
  {
    var t := AfterKill(s, socket, pid, admitted);
    AfterKillConsistent(s, socket, pid, admitted);
    AfterKillReady(s, socket, pid, admitted);
    if t.ready != [] {
      var u, p0 := Dispatched(t, socket), t.ready[0].pid;
      assert u == KilledOnCpu(s, socket, pid, admitted);
      OnePlace(t, p0);
      RunsUpdate(t.busy, t.cpus, socket, CpuOf(u.cpus, socket), p0);
      InSnoc(t.running, Pcb(p0, Running), p0);
      assert Runs(t.busy, t.cpus, p0) <= 1;
      assert In(u.running, p0) && Runs(u.busy, u.cpus, p0) == 0;
    }
  }

  // ---------------------------------------------------------------- whole steps

  /** Its message comes from a busy CPU and is about the process that CPU was given. */
  ghost predicate GenuineEvent(s: State, e: Event) {
    match e
    case Sentence(socket, pid, _) => Genuine(s, socket, pid)
    case Wait(socket, pid, _, _) => Genuine(s, socket, pid)
    case Exit(socket, pid, _) => Genuine(s, socket, pid)
    case Abort(socket, pid, _) => Genuine(s, socket, pid)
    case _ => true
  }

  /** The process of a CPU is killed at the end of a sentence while another one is ready. */
  predicate Misplaces(s: State, e: Event) {
    match e
    case Sentence(socket, _, admitted) =>
      CpuOf(s.cpus, socket).pid in s.doomed && !NoneReady(s, admitted)
    case _ => false
  }

  lemma ConsistentStays(s: State, t: State)
    requires CpusConsistent(s) && t.idle == s.idle && t.busy == s.busy && t.cpus == s.cpus
    requires t.running == s.running && t.finished == s.finished
    ensures CpusConsistent(t)
  {
    EndedConsistent(s, t);
  }

  lemma FinishedConsistent(s: State, t: State, q: seq<Pcb>, pid: int)
    requires CpusConsistent(s) && t.idle == s.idle && t.busy == s.busy && t.cpus == s.cpus
    requires t.running == s.running && t.finished == Join(s.finished, q, pid, Finished)
    ensures CpusConsistent(t)
  {
    forall p
      ensures In(s.finished, p) ==> In(t.finished, p)
    {
      InSnoc(s.finished, Pcb(pid, Finished), p);
    }
    EndedConsistent(s, t);
  }

  lemma ArrivedConsistent(s: State, admitted: bool)
    requires CpusConsistent(s) && Placed(s)
    ensures CpusConsistent(Arrived(s, admitted))
  {
    var pid := s.maxPid + 1;
    var t := s.(maxPid := pid, waits := s.waits[pid := ""]);
    ConsistentStays(s, t);
    if s.count < s.degree {
      var u := NewToReady(t, pid);
      ConsistentStays(t, u);
      if !admitted {
        FinishedConsistent(u, ReadyToFinished(u, pid), u.ready, pid);
      }
    } else {
      ConsistentStays(t, Arrived(s, admitted));
    }
  }

  lemma StartedConsistent(s: State, admitted: bool)
    requires CpusConsistent(s) && Placed(s)
    ensures CpusConsistent(Started(s, admitted))
  {
    ArrivedConsistent(s, admitted);
    ArrivedPlaced(s, admitted);
    if Arrived(s, admitted).ready != [] { PlannedConsistent(Arrived(s, admitted)); }
  }

  lemma SentenceConsistent(s: State, socket: int, pid: int, admitted: bool)
    requires CpusConsistent(s) && Placed(s) && In(s.running, pid) && Genuine(s, socket, pid)
    ensures CpusConsistent(SentenceDone(s, socket, pid, admitted))
            <==> !(pid in s.doomed && !NoneReady(s, admitted))
  {
    if pid in s.doomed {
      KillConsistentIff(s, socket, pid, admitted);
    } else {
      var cpu := CpuOf(s.cpus, socket);
      ScannedFound(s.busy, socket);
      if s.algorithm.RoundRobin? && cpu.quantum >= s.quantum {
        var t := HandedOver(s, socket, socket);
        SamePidConsistent(s, socket, cpu.(quantum := 1));
        NothingMoved(s, t);
        MovedPlaced(s, t);
        SwitchedConsistent(t, socket, pid);
      } else if s.algorithm.RoundRobin? {
        SamePidConsistent(s, socket, cpu.(quantum := cpu.quantum + 1, reported := cpu.reported + 1));
      } else {
        SamePidConsistent(s, socket, cpu.(reported := cpu.reported + 1));
      }
    }
  }

  /** The counters of a busy CPU do not matter. */
  lemma SamePidConsistent(s: State, socket: int, cpu: Cpu)
    requires CpusConsistent(s) && 0 < On(s.busy, socket) && cpu.pid == CpuOf(s.cpus, socket).pid
    ensures CpusConsistent(s.(cpus := s.cpus[socket := cpu]))
    ensures Genuine(s.(cpus := s.cpus[socket := cpu]), socket, cpu.pid)
  {
    var t := s.(cpus := s.cpus[socket := cpu]);
    assert On(s.idle, socket) + On(s.busy, socket) == if socket in s.cpus then 1 else 0;
    forall p
      ensures Runs(t.busy, t.cpus, p) <= 1 && (In(t.running, p) ==> Runs(t.busy, t.cpus, p) == 1)
      ensures Runs(t.busy, t.cpus, p) == 1 ==> In(t.running, p) || In(t.finished, p)
    {
      RunsUpdate(s.busy, s.cpus, socket, cpu, p);
      assert Runs(s.busy, s.cpus, p) <= 1;
    }
  }

  lemma WaitConsistent(s: State, socket: int, pid: int, name: string, admitted: bool)
    requires CpusConsistent(s) && Placed(s) && In(s.running, pid) && Genuine(s, socket, pid)
    ensures CpusConsistent(Waited(s, socket, pid, name, admitted))
  {
    var k := FindSemaphore(s.semaphores, name);
    if k < |s.semaphores| {
      var t := Changed(s, k, -1);
      NothingMoved(s, t);
      MovedPlaced(s, t);
      ConsistentStays(s, t);
      if t.semaphores[k].value < 0 {
        if pid in s.doomed {
          KilledWaitingConsistent(t, k, socket, pid, admitted);
        } else {
          BlockedConsistent(t, k, socket, pid);
          var t0 := CpuFreed(t.(waits := t.waits[pid := t.semaphores[k].name]), socket);
          NothingMoved(t, t0);
          MovedPlaced(t, t0);
          RunningToBlockedMoves(t0, pid);
          MovedPlaced(t0, MadeToWait(t, k, socket, pid));
          if MadeToWait(t, k, socket, pid).ready != [] { PlannedConsistent(MadeToWait(t, k, socket, pid)); }
        }
      }
    }
  }

  lemma KilledWaitingConsistent(s: State, k: nat, socket: int, pid: int, admitted: bool)
    requires CpusConsistent(s) && Placed(s) && In(s.running, pid) && Genuine(s, socket, pid) && k < |s.semaphores|
    ensures CpusConsistent(PlannedIfReady(KilledWaiting(s, k, socket, pid, admitted)))
  {
    AfterKillConsistent(s, socket, pid, admitted);
    var t, u := AfterKill(s, socket, pid, admitted), KilledWaiting(s, k, socket, pid, admitted);
    NothingMoved(t, u);
    MovedPlaced(t, u);
    ConsistentStays(t, u);
    if u.ready != [] { PlannedConsistent(u); }
  }

  lemma SignalConsistent(s: State, name: string)
    requires CpusConsistent(s) && Placed(s)
    ensures CpusConsistent(Signalled(s, name))
  {
    var k := FindSemaphore(s.semaphores, name);
    if k < |s.semaphores| {
      var t := Changed(s, k, 1);
      ConsistentStays(s, t);
      var i := FindWaiter(t.blocked, t.waits, t.semaphores[k].name);
      if i < |t.blocked| {
        var pid := t.blocked[i].pid;
        var u := BlockedToReady(t, pid).(waits := t.waits[pid := ""]);
        ConsistentStays(t, u);
        NothingMoved(s, t);
        MovedPlaced(s, t);
        BlockedToReadyMoves(t, pid);
        MovedPlaced(t, BlockedToReady(t, pid));
        NothingMoved(BlockedToReady(t, pid), u);
        MovedPlaced(BlockedToReady(t, pid), u);
        if u.idle != [] && u.ready != [] { PlannedConsistent(u); }
        AtIsIn(t.blocked, i);
      }
    }
  }

  lemma KilledConsistent(s: State, pid: int)
    requires CpusConsistent(s) && Sorted(s)
    ensures CpusConsistent(Killed(s, pid))
  {
    ConsistentStays(s, s.(doomed := s.doomed + [pid]));
    QueuedEndsConsistent(s, pid);
  }

  lemma AbortedConsistent(s: State, pid: int)
    requires CpusConsistent(s) && Sorted(s)
    ensures CpusConsistent(AbortedByConsole(s, pid))
  {
    ConsistentStays(s, s.(doomed := s.doomed + [pid]));
    QueuedEndsConsistent(s, pid);
    if In(s.ready, pid) {
      FinishedConsistent(s, Cleaned(ReadyToFinished(s, pid), pid), s.ready, pid);
    }
  }

  lemma QueuedEndsConsistent(s: State, pid: int)
    requires CpusConsistent(s)
    ensures CpusConsistent(NewToFinished(s, pid)) && CpusConsistent(ReadyToFinished(s, pid))
    ensures CpusConsistent(BlockedToFinished(s, pid))
  {
    FinishedConsistent(s, NewToFinished(s, pid), s.news, pid);
    FinishedConsistent(s, ReadyToFinished(s, pid), s.ready, pid);
    FinishedConsistent(s, BlockedToFinished(s, pid), s.blocked, pid);
  }

  lemma ConnectedConsistent(s: State, socket: int, unset: int)
    requires CpusConsistent(s) && socket !in s.cpus
    ensures CpusConsistent(Step(s, Connect(socket, unset)))
  {
    var t := Step(s, Connect(socket, unset));
    assert On(s.idle, socket) + On(s.busy, socket) == 0;
    forall x
      ensures On(t.idle, x) + On(t.busy, x) == if x in t.cpus then 1 else 0
    {
      OnSnoc(s.idle, socket, x);
      assert On(s.idle, x) + On(s.busy, x) == if x in s.cpus then 1 else 0;
    }
    forall p
      ensures Runs(t.busy, t.cpus, p) <= 1 && (In(t.running, p) ==> Runs(t.busy, t.cpus, p) == 1)
      ensures Runs(t.busy, t.cpus, p) == 1 ==> In(t.running, p) || In(t.finished, p)
    {
      RunsUpdate(s.busy, s.cpus, socket, Cpu(unset, 0, 0), p);
      assert Runs(s.busy, s.cpus, p) <= 1;
    }
  }

  lemma {:induction false} AdmittedConsistent(s: State, answers: seq<bool>)
    requires CpusConsistent(s) && Placed(s)
    ensures CpusConsistent(Admitted(s, answers))
    decreases |answers|
  {
    if answers == [] || s.degree <= s.count {
    } else {
      PromotedConsistent(s, answers[0]);
      PromotedPlaced(s, answers[0]);
      AdmittedConsistent(Promoted(s, answers[0]), answers[1..]);
    }
  }

  /** Every step but one keeps each running process on one CPU of its own; that one never does. */
  lemma StepConsistent(s: State, e: Event)
    requires CpusConsistent(s) && Placed(s) && Possible(s, e) && GenuineEvent(s, e)
    ensures CpusConsistent(Step(s, e)) <==> !Misplaces(s, e)
  {
    match e
    case Start(admitted) => StartedConsistent(s, admitted);
    case Connect(socket, unset) => ConnectedConsistent(s, socket, unset);
    case Handshake => if s.ready != [] { PlannedConsistent(s); }
    case Sentence(socket, pid, admitted) => SentenceConsistent(s, socket, pid, admitted);
    case Wait(socket, pid, name, admitted) => WaitConsistent(s, socket, pid, name, admitted);
    case Signal(name) => SignalConsistent(s, name);
    case Exit(socket, pid, admitted) => ExitConsistent(s, socket, pid, admitted);
    case Abort(socket, pid, admitted) => ExitConsistent(s, socket, pid, admitted);
    case Oversized(socket) => RunningEndsConsistent(s, s.cpus[socket].pid);
    case ConsoleAbort(pid) => AbortedConsistent(s, pid);
    case Kill(pid) => KilledConsistent(s, pid);
    case SetDegree(degree, answers) =>
      var t := s.(degree := degree);
      ConsistentStays(s, t);
      NothingMoved(s, t);
      MovedPlaced(s, t);
      AdmittedConsistent(t, answers);
  }
}
