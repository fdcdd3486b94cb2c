/** The kernel's lists as the handlers change them, one message at a time. */
module ProcessScheduler {
  import S = Scheduling
  import opened SchedulingCensus
  import opened SchedulingSemaphores
  import opened SchedulingService
  import opened SchedulingSlices
  import opened SchedulingLaws

  type Pcb = S.Pcb

  lemma {:induction false} LeaveAt(q: seq<Pcb>, pid: int)
    requires S.In(q, pid)
    ensures S.Leave(q, pid) == q[..S.Find(q, pid)] + q[S.Find(q, pid) + 1..]
  {
    if q[0].pid == pid {
    } else {
      LeaveAt(q[1..], pid);
    }
  }

  /** `Find` seen from a position that the scan has reached. */
  lemma {:induction false} FindFrom(q: seq<Pcb>, pid: int, c: nat)
    requires c <= |q| && forall j :: 0 <= j < c ==> q[j].pid != pid
    ensures S.Find(q, pid) == c + S.Find(q[c..], pid) && (S.In(q, pid) <==> S.In(q[c..], pid))
    decreases c
  {
    if c != 0 {
      FindFrom(q[1..], pid, c - 1);
      assert q[1..][c - 1..] == q[c..];
    } else {
      assert q[0..] == q;
    }
  }

  lemma {:induction false} DropAt(xs: seq<int>, x: int, c: nat)
    requires c <= |xs| && forall j :: 0 <= j < c ==> xs[j] != x
    ensures c < |xs| && xs[c] == x ==> S.Drop(xs, x) == xs[..c] + xs[c + 1..]
    ensures c == |xs| ==> S.Drop(xs, x) == xs && x !in xs
    decreases c
  {
    if c == 0 {
    } else {
      DropAt(xs[1..], x, c - 1);
      assert xs == [xs[0]] + xs[1..];
    }
  }

  /** What the clean-up loop still adds to `r` from semaphore `k` on. */
  ghost function ReleasedOnto(r: seq<S.Semaphore>, sems: seq<S.Semaphore>, k: nat, name: string): seq<S.Semaphore>
    requires k <= |sems|
    decreases |sems| - k
  {
    if k == |sems| then r
    else if S.SameName(sems[k].name, name) then
      ReleasedOnto(r + [sems[k].(value := sems[k].value + 1)], sems, k + 1, "")
    else ReleasedOnto(r + [sems[k]], sems, k + 1, name)
  }

  lemma {:induction false} OntoIsReleased(r: seq<S.Semaphore>, sems: seq<S.Semaphore>, k: nat, name: string)
    requires k <= |sems|
    ensures ReleasedOnto(r, sems, k, name) == r + S.Released(sems[k..], name)
    decreases |sems| - k
  {
    if |sems| <= k {
    } else {
      assert sems[k..][1..] == sems[k + 1..];
      if S.SameName(sems[k].name, name) {
        OntoIsReleased(r + [sems[k].(value := sems[k].value + 1)], sems, k + 1, "");
      } else {
        OntoIsReleased(r + [sems[k]], sems, k + 1, name);
      }
    }
  }

  class Kernel {
    var news: seq<Pcb>
    var ready: seq<Pcb>
    var running: seq<Pcb>
    var blocked: seq<Pcb>
    var finished: seq<Pcb>
    var idle: seq<int>
    var busy: seq<int>
    var cpus: map<int, S.Cpu>
    var semaphores: seq<S.Semaphore>
    var waits: map<int, string>
    var doomed: seq<int>
    var count: int
    var maxPid: int
    var degree: int
    const quantum: int
    const algorithm: S.Algorithm
    ghost var sent: seq<int>
    ghost var executing: map<int, int>
    var faulted: bool

    ghost function View(): S.State
      reads this
    {
      S.State(news, ready, running, blocked, finished, idle, busy, cpus, semaphores, waits, doomed,
              count, maxPid, degree, quantum, algorithm, sent, executing, faulted)
    }

    ghost predicate Valid()
      reads this
    {
      Placed(View()) && SemaphoresLawful(View())
    }

    constructor (semaphores: seq<S.Semaphore>, degree: int, quantum: int, algorithm: S.Algorithm)
      requires Named(semaphores) && forall k :: 0 <= k < |semaphores| ==> 0 <= semaphores[k].value
      ensures Valid()
      ensures View()
              == S.State([], [], [], [], [], [], [], map[], semaphores, map[], [], 0, 0, degree, quantum, algorithm,
                         [], map[], false)
    {
      news, ready, running, blocked, finished := [], [], [], [], [];
      idle, busy, cpus := [], [], map[];
      this.semaphores, waits, doomed := semaphores, map[], [];
      count, maxPid, sent, executing, faulted := 0, 0, [], map[], false;
      this.degree, this.quantum, this.algorithm := degree, quantum, algorithm;
    }

    // -------------------------------------------------------------- scans

    /** The search loop of the queue operations. */
    method Locate(q: seq<Pcb>, pid: int) returns (c: nat)
      ensures c == S.Find(q, pid) && (c < |q| <==> S.In(q, pid))
    {
      c := 0;
      while c < |q|
        invariant 0 <= c <= |q| && forall j :: 0 <= j < c ==> q[j].pid != pid
      {
        FindFrom(q, pid, c);
        if q[c].pid == pid {
          return;
        }
        c := c + 1;
      }
      FindFrom(q, pid, c);
    }

    /** The loop of `pasarPcbAFinalizados`, which goes on after it has removed the process. */
    method RemoveEach(q: seq<Pcb>, pid: int) returns (rest: seq<Pcb>, found: nat)
      requires Times(q, pid) <= 1
      ensures rest == S.Leave(q, pid) && found == if S.In(q, pid) then 1 else 0
    {
      rest, found := q, 0;
      var c := 0;
      TimesIn(q, pid);
      while c < |rest|
        invariant 0 <= c && (forall j :: 0 <= j < c && j < |rest| ==> rest[j].pid != pid)
        invariant found == 0 ==> rest == q
        invariant found != 0 ==> found == 1 && S.In(q, pid) && rest == S.Leave(q, pid) && !S.In(rest, pid)
        decreases |rest| - c
      {
        FindFrom(rest, pid, c);
        if rest[c].pid == pid {
          assert found == 0;
          LeaveAt(q, pid);
          TimesLeave(q, pid, pid);
          TimesIn(S.Leave(q, pid), pid);
          rest := rest[..c] + rest[c + 1..];
          found := found + 1;
          NoneBefore(rest, pid);
        }
        c := c + 1;
      }
      if found == 0 {
        FindFrom(q, pid, |q|);
        NotThere(q, pid);
      }
    }

    lemma {:induction false} NoneBefore(q: seq<Pcb>, pid: int)
      requires !S.In(q, pid)
      ensures forall j :: 0 <= j < |q| ==> q[j].pid != pid
    {
      if q == [] {
      } else {
        NoneBefore(q[1..], pid);
        assert forall j :: 1 <= j < |q| ==> q[j] == q[1..][j - 1];
      }
    }

    /** `existeSemaforo`. */
    method FindSemaphore(name: string) returns (k: nat)
      ensures k == S.FindSemaphore(semaphores, name)
    {
      k := 0;
      while k < |semaphores|
        invariant 0 <= k <= |semaphores|
        invariant S.FindSemaphore(semaphores, name) == k + S.FindSemaphore(semaphores[k..], name)
      {
        if S.SameName(semaphores[k].name, name) {
          return;
        }
        assert semaphores[k..][1..] == semaphores[k + 1..];
        k := k + 1;
      }
    }

    /** The scan of `pedido_signal` over the blocked processes. */
    method FindWaiter(name: string) returns (c: nat)
      ensures c == S.FindWaiter(blocked, waits, name)
    {
      c := 0;
      while c < |blocked|
        invariant 0 <= c <= |blocked|
        invariant S.FindWaiter(blocked, waits, name) == c + S.FindWaiter(blocked[c..], waits, name)
      {
        if S.SameName(S.Waiting(waits, blocked[c].pid), name) {
          return;
        }
        assert blocked[c..][1..] == blocked[c + 1..];
        c := c + 1;
      }
    }

    /** `estaElflagDeTerminacionDeProcesoActivo`: takes the flag away if it is set. */
    method TakeFlag(pid: int) returns (set': bool)
      modifies this`doomed
      ensures set' == (pid in old(doomed)) && doomed == S.Drop(old(doomed), pid)
    {
      var i := 0;
      while i < |doomed|
        invariant 0 <= i <= |doomed| && doomed == old(doomed) && forall j :: 0 <= j < i ==> doomed[j] != pid
      {
        DropAt(doomed, pid, i);
        if doomed[i] == pid {
          doomed := doomed[..i] + doomed[i + 1..];
          return true;
        }
        i := i + 1;
      }
      DropAt(doomed, pid, i);
      return false;
    }

    /** `eliminarCpuDeOcupadas`. */
    method RemoveFromBusy(socket: int)
      modifies this`busy
      ensures busy == S.Drop(old(busy), socket)
    {
      var c := 0;
      while c < |busy|
        invariant 0 <= c <= |busy| && busy == old(busy) && forall j :: 0 <= j < c ==> busy[j] != socket
      {
        DropAt(busy, socket, c);
        if busy[c] == socket {
          busy := busy[..c] + busy[c + 1..];
          return;
        }
        c := c + 1;
      }
      DropAt(busy, socket, c);
    }

    /** The scan of the round-robin branch, which ends at the last CPU if it does not find the right one. */
    method ScanBusy(socket: int) returns (cpu: int)
      requires busy != []
      ensures cpu == S.Scanned(busy, socket)
    {
      var i := 0;
      cpu := busy[0];
      while i < |busy|
        invariant 0 <= i <= |busy|
        invariant i < |busy| ==> S.Scanned(busy, socket) == S.Scanned(busy[i..], socket)
        invariant i == |busy| ==> cpu == S.Scanned(busy, socket)
      {
        cpu := busy[i];
        if cpu == socket {
          break;
        }
        assert busy[i..][1..] == busy[i + 1..];
        i := i + 1;
      }
    }

    /** `estaElProcesoEnEjecucion`. */
    method IsOnBusyCpu(pid: int) returns (found: bool)
      ensures found == S.OnBusyCpu(busy, cpus, pid)
    {
      var i := 0;
      while i < |busy|
        invariant 0 <= i <= |busy| && S.OnBusyCpu(busy, cpus, pid) == S.OnBusyCpu(busy[i..], cpus, pid)
      {
        if S.CpuOf(cpus, busy[i]).pid == pid {
          return true;
        }
        assert busy[i..][1..] == busy[i + 1..];
        i := i + 1;
      }
      return false;
    }

    /** `limpiarSemaforosProceso`. */
    method CleanSemaphores(pid: int)
      modifies this`semaphores, this`waits
      ensures View() == S.Cleaned(old(View()), pid)
    {
      var name := S.Waiting(waits, pid);
      if name == "" {
        return;
      }
      var matched;
      semaphores, matched := ReleaseNamed(semaphores, name);
      if matched {
        waits := waits[pid := ""];
      }
    }

    /** The loop over the semaphores: after a match the name looked for is empty. */
    method ReleaseNamed(sems: seq<S.Semaphore>, wanted: string) returns (r: seq<S.Semaphore>, matched: bool)
      ensures r == S.Released(sems, wanted) && (matched <==> S.FindSemaphore(sems, wanted) < |sems|)
    {
      OntoIsReleased([], sems, 0, wanted);
      r, matched := [], false;
      var name := wanted;
      var k := 0;
      while k < |sems|
        invariant 0 <= k <= |sems|
        invariant ReleasedOnto(r, sems, k, name) == ReleasedOnto([], sems, 0, wanted)
        invariant !matched ==> name == wanted && S.FindSemaphore(sems, wanted) == k + S.FindSemaphore(sems[k..], wanted)
        invariant matched ==> name == "" && S.FindSemaphore(sems, wanted) < |sems|
      {
        assert sems[k..][1..] == sems[k + 1..];
        if S.SameName(sems[k].name, name) {
          r := r + [sems[k].(value := sems[k].value + 1)];
          name := "";
          matched := true;
        } else {
          r := r + [sems[k]];
        }
        k := k + 1;
      }
      assert sems[0..] == sems;
    }

    // -------------------------------------------------------------- moves between queues

    /** `pasarPcbDeNuevoAListos`. */
    method NewToReady(pid: int)
      modifies this`ready, this`count
      ensures View() == S.NewToReady(old(View()), pid)
    {
      ready := ready + [S.Pcb(pid, S.Ready)];
      count := count + 1;
    }

    method NewToFinished(pid: int)
      modifies this`news, this`finished
      ensures View() == S.NewToFinished(old(View()), pid)
    {
      var c := Locate(news, pid);
      if c < |news| {
        LeaveAt(news, pid);
        news := news[..c] + news[c + 1..];
        finished := finished + [S.Pcb(pid, S.Finished)];
      } else {
        NotThere(news, pid);
      }
    }

    method ReadyToRunning(pid: int)
      modifies this`ready, this`running
      ensures View() == S.ReadyToRunning(old(View()), pid)
    {
      var c := Locate(ready, pid);
      if c < |ready| {
        LeaveAt(ready, pid);
        ready := ready[..c] + ready[c + 1..];
        running := running + [S.Pcb(pid, S.Running)];
      } else {
        NotThere(ready, pid);
      }
    }

    method RunningToReady(pid: int)
      modifies this`running, this`ready
      ensures View() == S.RunningToReady(old(View()), pid)
    {
      var c := Locate(running, pid);
      if c < |running| {
        LeaveAt(running, pid);
        running := running[..c] + running[c + 1..];
        ready := ready + [S.Pcb(pid, S.Ready)];
      } else {
        NotThere(running, pid);
      }
    }

    method BlockedToReady(pid: int)
      modifies this`blocked, this`ready
      ensures View() == S.BlockedToReady(old(View()), pid)
    {
      var c := Locate(blocked, pid);
      if c < |blocked| {
        LeaveAt(blocked, pid);
        blocked := blocked[..c] + blocked[c + 1..];
        ready := ready + [S.Pcb(pid, S.Ready)];
      } else {
        NotThere(blocked, pid);
      }
    }

    method RunningToBlocked(pid: int)
      modifies this`running, this`blocked
      ensures View() == S.RunningToBlocked(old(View()), pid)
    {
      var c := Locate(running, pid);
      if c < |running| {
        LeaveAt(running, pid);
        running := running[..c] + running[c + 1..];
        blocked := blocked + [S.Pcb(pid, S.Blocked)];
      } else {
        NotThere(running, pid);
      }
    }

    method RunningToFinished(pid: int)
      modifies this`running, this`finished, this`count, this`semaphores, this`waits
      ensures View() == S.RunningToFinished(old(View()), pid)
    {
      var found := LeaveRunning(pid);
      if found {
        CountOut(pid);
        CleanSemaphores(pid);
      }
    }

    method LeaveRunning(pid: int) returns (found: bool)
      modifies this`running
      ensures running == S.Leave(old(running), pid) && found == S.In(old(running), pid)
      ensures !found ==> running == old(running)
    {
      var c := Locate(running, pid);
      found := c < |running|;
      if found {
        LeaveAt(running, pid);
        running := running[..c] + running[c + 1..];
      } else {
        NotThere(running, pid);
      }
    }

    /** A process that was in the system joins the finished ones. */
    method CountOut(pid: int)
      modifies this`finished, this`count
      ensures View() == old(View()).(finished := old(finished) + [S.Pcb(pid, S.Finished)], count := old(count) - 1)
    {
      finished := finished + [S.Pcb(pid, S.Finished)];
      count := count - 1;
    }

    method ReadyToFinished(pid: int)
      modifies this`ready, this`finished, this`count
      ensures View() == S.ReadyToFinished(old(View()), pid)
    {
      var c := Locate(ready, pid);
      if c < |ready| {
        LeaveAt(ready, pid);
        ready := ready[..c] + ready[c + 1..];
        finished := finished + [S.Pcb(pid, S.Finished)];
        count := count - 1;
      } else {
        NotThere(ready, pid);
      }
    }

    method BlockedToFinished(pid: int)
      modifies this`blocked, this`finished, this`count, this`semaphores, this`waits
      ensures View() == S.BlockedToFinished(old(View()), pid)
    {
      var found := LeaveBlocked(pid);
      if found {
        CountOut(pid);
        CleanSemaphores(pid);
      }
    }

    method LeaveBlocked(pid: int) returns (found: bool)
      modifies this`blocked
      ensures blocked == S.Leave(old(blocked), pid) && found == S.In(old(blocked), pid)
      ensures !found ==> blocked == old(blocked)
    {
      var c := Locate(blocked, pid);
      found := c < |blocked|;
      if found {
        LeaveAt(blocked, pid);
        blocked := blocked[..c] + blocked[c + 1..];
      } else {
        NotThere(blocked, pid);
      }
    }

    /** `pasarPcbAFinalizados` for a process that runs. */
    method EndRunning(pid: int)
      requires Times(running, pid) <= 1
      modifies this`running, this`finished, this`count, this`semaphores, this`waits
      ensures View() == S.RunningToFinished(old(View()), pid)
    {
      var found;
      ghost var q := running;
      running, found := RemoveEach(running, pid);
      if found == 1 {
        CountOut(pid);
        CleanSemaphores(pid);
      } else {
        NotThere(q, pid);
      }
    }

    method EndNew(pid: int)
      requires Times(news, pid) <= 1
      modifies this`news, this`finished
      ensures View() == S.NewToFinished(old(View()), pid)
    {
      var found;
      news, found := RemoveEach(news, pid);
      if found == 1 {
        finished := finished + [S.Pcb(pid, S.Finished)];
      }
    }

    method EndReady(pid: int)
      requires Times(ready, pid) <= 1
      modifies this`ready, this`finished, this`count, this`semaphores, this`waits
      ensures View()
              == if S.In(old(ready), pid) then S.Cleaned(S.ReadyToFinished(old(View()), pid), pid) else old(View())
    {
      var found;
      ghost var q := ready;
      ready, found := RemoveEach(ready, pid);
      if found == 1 {
        CountOut(pid);
        CleanSemaphores(pid);
      } else {
        NotThere(q, pid);
      }
    }

    method EndBlocked(pid: int)
      requires Times(blocked, pid) <= 1
      modifies this`blocked, this`finished, this`count, this`semaphores, this`waits
      ensures View() == S.BlockedToFinished(old(View()), pid)
    {
      var found;
      ghost var q := blocked;
      blocked, found := RemoveEach(blocked, pid);
      if found == 1 {
        CountOut(pid);
        CleanSemaphores(pid);
      } else {
        NotThere(q, pid);
      }
    }

    /** `pasarPcbAFinalizados`. */
    method ToFinished(pid: int, status: S.Status)
      requires Unique(View())
      modifies this
      ensures View() == S.ToFinished(old(View()), pid, status)
    {
      assert Census(View(), pid) <= 1;
      match status
      case New => EndNew(pid);
      case Ready => EndReady(pid);
      case Running => EndRunning(pid);
      case Blocked => EndBlocked(pid);
      case Finished =>
    }

    // -------------------------------------------------------------- dispatching and admitting

    /** `ejecutarSiguientePcbEnCpu`. */
    method Dispatch(socket: int)
      modifies this`ready, this`running, this`cpus, this`sent, this`executing
      ensures View() == S.Dispatched(old(View()), socket)
    {
      if ready == [] {
        return;
      }
      var pid := ready[0].pid;
      ReadyToRunning(pid);
      cpus := cpus[socket := S.CpuOf(cpus, socket).(pid := pid, reported := 0)];
      sent, executing := sent + [pid], executing[socket := pid];
    }

    /** `planificar(0)`. */
    method Plan()
      modifies this`ready, this`running, this`cpus, this`sent, this`executing, this`idle, this`busy
      ensures View() == S.Planned(old(View()))
    {
      if idle == [] {
        return;
      }
      var socket := Occupy();
      Dispatch(socket);
    }

    /** `moverCpuAOcupadas`, and the counter of the CPU. */
    method Occupy() returns (socket: int)
      requires idle != []
      modifies this`cpus, this`idle, this`busy
      ensures socket == old(idle)[0]
      ensures var t := old(View()).(idle := old(idle)[1..], busy := old(busy) + [socket]);
              View() == if algorithm.RoundRobin? then S.Ticked(t, socket) else t
    {
      socket := idle[0];
      idle := idle[1..];
      busy := busy + [socket];
      if algorithm == S.RoundRobin {
        cpus := cpus[socket := S.CpuOf(cpus, socket).(quantum := S.CpuOf(cpus, socket).quantum + 1)];
      }
    }

    method PlanIfReady()
      modifies this`ready, this`running, this`cpus, this`sent, this`executing, this`idle, this`busy
      ensures View() == S.PlannedIfReady(old(View()))
    {
      if ready != [] {
        Plan();
      }
    }

    /** `pasarProximoProcDeNewAReady`. */
    method Promote(admitted: bool)
      modifies this
      ensures View() == S.Promoted(old(View()), admitted)
    {
      if news == [] {
        return;
      }
      var pid := news[0].pid;
      news := news[1..];
      if !admitted {
        NewToFinished(pid);
      } else {
        NewToReady(pid);
        if idle != [] {
          Plan();
        }
      }
    }

    method FreeCpu(socket: int)
      modifies this`busy, this`idle, this`executing
      ensures View() == S.CpuFreed(old(View()), socket)
    {
      RemoveFromBusy(socket);
      idle := idle + [socket];
      executing := executing - {socket};
    }

    // -------------------------------------------------------------- messages

    /** `iniciarProceso`. */
    method Start(admitted: bool)
      modifies this
      ensures View() == S.Started(old(View()), admitted)
      ensures old(Valid()) ==> Keeps(old(View()), S.Start(admitted), View())
      ensures old(ready == [] || idle == []) ==> ready == [] || idle == []
      ensures old((ready == [] || idle == []) && count < degree && idle != []) && admitted ==> S.In(running, maxPid)
      ensures maxPid == old(maxPid) + 1 && NewcomerGoes(old(View()), admitted, View())
    {
      ghost var s, valid := View(), Valid();
      TakeIn(admitted);
      StartGoes(s, admitted);
      if valid { StepKeeps(s, S.Start(admitted)); }
      if Serving(s) { StartServes(s, admitted); }
    }

    method TakeIn(admitted: bool)
      modifies this
      ensures View() == S.Started(old(View()), admitted)
    {
      Arrive(admitted);
      if ready != [] && idle != [] {
        Plan();
      }
    }

    /** The new process takes its place. */
    method Arrive(admitted: bool)
      modifies this`maxPid, this`waits, this`ready, this`count, this`finished, this`news
      ensures View() == S.Arrived(old(View()), admitted)
    {
      maxPid := maxPid + 1;
      var pid := maxPid;
      waits := waits[pid := ""];
      if count < degree {
        NewToReady(pid);
        if !admitted {
          ReadyToFinished(pid);
        }
      } else {
        news := news + [S.Pcb(pid, S.New)];
      }
    }

    /** `agregarCpuALaLista`. */
    method Connect(socket: int, unset: int)
      modifies this`idle, this`cpus
      ensures View() == old(View()).(idle := old(idle) + [socket], cpus := old(cpus)[socket := S.Cpu(unset, 0, 0)])
    {
      cpus := cpus[socket := S.Cpu(unset, 0, 0)];
      idle := idle + [socket];
    }

    /** `planificar(socket)`. */
    method SentenceDone(socket: int, pid: int, admitted: bool)
      modifies this
      ensures View() == S.SentenceDone(old(View()), socket, pid, admitted)
      ensures old(Valid() && S.Possible(View(), S.Sentence(socket, pid, admitted))) ==>
                Keeps(old(View()), S.Sentence(socket, pid, admitted), View())
      ensures CountedRightly(old(View()), socket, pid, View())
    {
      ghost var s, valid := View(), Valid() && S.Possible(View(), S.Sentence(socket, pid, admitted));
      PlanFor(socket, pid, admitted);
      if valid { StepKeeps(s, S.Sentence(socket, pid, admitted)); }
      ReportCounts(s, socket, pid, admitted);
    }

    method PlanFor(socket: int, pid: int, admitted: bool)
      modifies this
      ensures View() == S.SentenceDone(old(View()), socket, pid, admitted)
    {
      var marked := TakeFlag(S.CpuOf(cpus, socket).pid);
      if marked {
        EndOnCpu(socket, pid, admitted);
      } else {
        NothingTaken(old(doomed), S.CpuOf(cpus, socket).pid);
        GoOn(socket, pid);
      }
    }

    /** The process ends at the end of its sentence, and its CPU is given the next one. */
    method EndOnCpu(socket: int, pid: int, admitted: bool)
      modifies this
      ensures View()
              == S.Dispatched(S.CpuFreed(S.Promoted(S.RunningToFinished(old(View()), pid), admitted), socket), socket)
    {
      RunningToFinished(pid);
      Promote(admitted);
      FreeCpu(socket);
      Dispatch(socket);
    }

    /** No kill is due: the quantum is looked at under round robin. */
    method GoOn(socket: int, pid: int)
      modifies this
      ensures View() == S.GoesOn(old(View()), socket, pid)
    {
      if algorithm == S.RoundRobin && busy == [] {
        faulted := true;
      } else if algorithm == S.RoundRobin {
        CheckQuantum(socket, pid);
      } else {
        cpus := cpus[socket := S.CpuOf(cpus, socket).(reported := S.CpuOf(cpus, socket).reported + 1)];
      }
    }

    lemma {:induction false} NothingTaken(xs: seq<int>, x: int)
      requires x !in xs
      ensures S.Drop(xs, x) == xs
    {
      if xs == [] {
      } else {
        NothingTaken(xs[1..], x);
      }
    }

    method CheckQuantum(socket: int, pid: int)
      requires busy != []
      modifies this
      ensures View() == S.QuantumChecked(old(View()), socket, pid)
    {
      var cpu := ScanBusy(socket);
      var record := S.CpuOf(cpus, cpu);
      if record.quantum >= quantum {
        executing := executing - {socket};
        RunningToReady(pid);
        cpus := cpus[cpu := record.(quantum := 1)];
        Dispatch(cpu);
      } else {
        cpus := cpus[cpu := record.(quantum := record.quantum + 1, reported := record.reported + 1)];
      }
    }

    /** `pedido_wait`. */
    method Wait(socket: int, pid: int, name: string, admitted: bool)
      requires Unique(View())
      modifies this
      ensures View() == S.Waited(old(View()), socket, pid, name, admitted)
      ensures old(Valid() && S.Possible(View(), S.Wait(socket, pid, name, admitted))) ==>
                Keeps(old(View()), S.Wait(socket, pid, name, admitted), View())
      ensures old(ready == [] || idle == []) ==> ready == [] || idle == []
      ensures old(MustWait(View(), name) && ready != [] && idle == []) ==> S.In(running, old(ready)[0].pid)
    {
      ghost var s, valid := View(), Valid() && S.Possible(View(), S.Wait(socket, pid, name, admitted));
      TakeUnit(socket, pid, name, admitted);
      if valid { StepKeeps(s, S.Wait(socket, pid, name, admitted)); }
      if Serving(s) { WaitServes(s, socket, pid, name, admitted); }
    }

    method TakeUnit(socket: int, pid: int, name: string, admitted: bool)
      requires Unique(View())
      modifies this
      ensures View() == S.Waited(old(View()), socket, pid, name, admitted)
    {
      var k := FindSemaphore(name);
      if k == |semaphores| {
        return;
      }
      assert Census(View(), pid) <= 1;
      semaphores := semaphores[k := semaphores[k].(value := semaphores[k].value - 1)];
      if semaphores[k].value < 0 {
        WaitBelowZero(k, socket, pid, admitted);
        PlanIfReady();
      }
    }

    /** The process has no unit to take: it ends if it was to be killed, and blocks if not. */
    method WaitBelowZero(k: nat, socket: int, pid: int, admitted: bool)
      requires k < |semaphores| && Times(running, pid) <= 1
      modifies this
      ensures View() == if pid in old(doomed) then S.KilledWaiting(old(View()), k, socket, pid, admitted)
                        else S.MadeToWait(old(View()), k, socket, pid)
    {
      var marked := TakeFlag(pid);
      if marked {
        EndWaiting(k, socket, pid, admitted);
      } else {
        NothingTaken(old(doomed), pid);
        waits := waits[pid := semaphores[k].name];
        FreeCpu(socket);
        RunningToBlocked(pid);
      }
    }

    /** The process ends, and the unit it had waited for goes back. */
    method EndWaiting(k: nat, socket: int, pid: int, admitted: bool)
      requires Times(running, pid) <= 1
      modifies this
      ensures var t := S.CpuFreed(S.Promoted(S.RunningToFinished(old(View()), pid), admitted), socket);
              View() == if k < |t.semaphores| then S.Changed(t, k, 1) else t
    {
      EndRunning(pid);
      Promote(admitted);
      FreeCpu(socket);
      if k < |semaphores| {
        semaphores := semaphores[k := semaphores[k].(value := semaphores[k].value + 1)];
      }
    }

    /** `pedido_signal`. */
    method Signal(name: string)
      modifies this
      ensures View() == S.Signalled(old(View()), name)
      ensures old(Valid()) && S.FindSemaphore(old(semaphores), name) < |old(semaphores)| ==>
                WokeRightly(old(View()), name, View())
      ensures old(ready == [] || idle == []) ==> ready == [] || idle == []
    {
      ghost var s, valid := View(), Valid();
      GiveUnit(name);
      if Serving(s) { SignalServes(s, name); }
      if valid && S.FindSemaphore(s.semaphores, name) < |s.semaphores| { SignalWakes(s, name); }
    }

    method GiveUnit(name: string)
      modifies this
      ensures View() == S.Signalled(old(View()), name)
    {
      var k := FindSemaphore(name);
      if k == |semaphores| {
        return;
      }
      semaphores := semaphores[k := semaphores[k].(value := semaphores[k].value + 1)];
      var c := FindWaiter(semaphores[k].name);
      if c < |blocked| {
        var pid := blocked[c].pid;
        BlockedToReady(pid);
        waits := waits[pid := ""];
        if idle != [] {
          Plan();
        }
      }
    }

    method ResetCpu(socket: int)
      modifies this`cpus
      ensures View() == S.CpuReset(old(View()), socket)
    {
      cpus := cpus[socket := S.CpuOf(cpus, socket).(pid := 0, quantum := 0)];
    }

    /** The handling of `PROGRAMA_TERMINADO`. */
    method Exit(socket: int, pid: int, admitted: bool)
      modifies this
      ensures View() == S.Exited(old(View()), socket, pid, admitted)
      ensures old(Valid() && S.Possible(View(), S.Exit(socket, pid, admitted))) ==>
                Keeps(old(View()), S.Exit(socket, pid, admitted), View())
      ensures old(ready == [] || idle == []) ==> ready == [] || idle == []
      ensures old(ready != [] && idle == []) ==> S.In(running, old(ready)[0].pid)
    {
      ghost var s, valid := View(), Valid() && S.Possible(View(), S.Exit(socket, pid, admitted));
      RunningToFinished(pid);
      ResetCpu(socket);
      FreeCpu(socket);
      if news != [] {
        Promote(admitted);
      }
      PlanIfReady();
      if valid { StepKeeps(s, S.Exit(socket, pid, admitted)); }
      if Serving(s) { ExitServes(s, socket, pid, admitted); }
    }

    /** `pedidoAbortarProgramaDeCpu`. */
    method Abort(socket: int, pid: int, admitted: bool)
      modifies this
      ensures View() == S.Aborted(old(View()), socket, pid, admitted)
      ensures old(Valid() && S.Possible(View(), S.Abort(socket, pid, admitted))) ==>
                Keeps(old(View()), S.Abort(socket, pid, admitted), View())
    {
      ghost var s, valid := View(), Valid() && S.Possible(View(), S.Abort(socket, pid, admitted));
      RunningToFinished(pid);
      ResetCpu(socket);
      FreeCpu(socket);
      Promote(admitted);
      if valid { StepKeeps(s, S.Abort(socket, pid, admitted)); }
    }

    /** `buscarPcbPorPID`. */
    method Lookup(pid: int) returns (status: S.Status)
      ensures status == S.StatusOf(View(), pid)
    {
      var c := Locate(ready, pid);
      if c < |ready| {
        return ready[c].status;
      }
      c := Locate(running, pid);
      if c < |running| {
        return running[c].status;
      }
      c := Locate(blocked, pid);
      if c < |blocked| {
        return blocked[c].status;
      }
      c := Locate(news, pid);
      if c < |news| {
        return news[c].status;
      }
      return S.Finished;
    }

    /** `pedidoAbortarProgramaDeConsola`. */
    method AbortByConsole(pid: int)
      requires Unique(View())
      modifies this
      ensures View() == S.AbortedByConsole(old(View()), pid)
      ensures old(Valid()) ==> Keeps(old(View()), S.ConsoleAbort(pid), View())
      ensures old(Valid()) ==> FlaggedOrEnded(old(View()), pid, S.In(old(running), pid), View())
    {
      ghost var s, valid := View(), Valid();
      var status := Lookup(pid);
      if status == S.Running {
        doomed := doomed + [pid];
      } else {
        ToFinished(pid, status);
      }
      if valid {
        StepKeeps(s, S.ConsoleAbort(pid));
        AbortEnds(s, pid);
      }
    }

    /** `matarProceso`. */
    method Kill(pid: int)
      modifies this
      ensures View() == S.Killed(old(View()), pid)
      ensures old(Valid()) ==> Keeps(old(View()), S.Kill(pid), View())
      ensures old(Valid()) ==> KilledRightly(old(View()), pid, View())
    {
      ghost var s, valid := View(), Valid();
      var onCpu := IsOnBusyCpu(pid);
      if onCpu {
        doomed := doomed + [pid];
      } else {
        EndQueued(pid);
      }
      if valid {
        StepKeeps(s, S.Kill(pid));
        KillEnds(s, pid);
      }
    }

    /** A process that is not on a busy CPU leaves the queue it is in, unless that is the running one. */
    method EndQueued(pid: int)
      modifies this
      ensures View() == S.KilledFrom(old(View()), pid, S.StatusOf(old(View()), pid))
    {
      var status := Lookup(pid);
      match status
      case New => NewToFinished(pid);
      case Ready => ReadyToFinished(pid);
      case Blocked => BlockedToFinished(pid);
      case _ =>
    }

    /** The console command that changes the level of multiprogramming. */
    method SetDegree(newDegree: int, answers: seq<bool>)
      requires |answers| == |news|
      modifies this
      ensures View() == S.Admitted(old(View()).(degree := newDegree), answers)
      ensures old(Valid()) ==> Keeps(old(View()), S.SetDegree(newDegree, answers), View())
    {
      ghost var s, valid := View(), Valid();
      Readmit(newDegree, answers);
      if valid { StepKeeps(s, S.SetDegree(newDegree, answers)); }
    }

    /** The admission loop. */
    method Readmit(newDegree: int, answers: seq<bool>)
      requires |answers| == |news|
      modifies this
      ensures View() == S.Admitted(old(View()).(degree := newDegree), answers)
    {
      degree := newDegree;
      var size := |news|;
      var i := 0;
      while i < size && count < degree
        invariant 0 <= i <= size == |answers|
        invariant S.Admitted(View(), answers[i..]) == S.Admitted(old(View()).(degree := newDegree), answers)
      {
        assert answers[i..][1..] == answers[i + 1..];
        Promote(answers[i]);
        i := i + 1;
      }
    }

    // -------------------------------------------------------------- any message

    /** Every message keeps the kernel valid, and does what the transition for it says. */
    method Handle(e: S.Event)
      requires Valid() && S.Possible(View(), e)
      modifies this
      ensures Valid() && View() == S.Step(old(View()), e) && Keeps(old(View()), e, View())
    {
      StepKeeps(View(), e);
      match e
      case Start(admitted) => Start(admitted);
      case Connect(socket, unset) => Connect(socket, unset);
      case Handshake => PlanIfReady();
      case Sentence(socket, pid, admitted) => SentenceDone(socket, pid, admitted);
      case Wait(socket, pid, name, admitted) => Wait(socket, pid, name, admitted);
      case Signal(name) => Signal(name);
      case Exit(socket, pid, admitted) => Exit(socket, pid, admitted);
      case Abort(socket, pid, admitted) => Abort(socket, pid, admitted);
      case Oversized(socket) => RunningToFinished(cpus[socket].pid);
      case ConsoleAbort(pid) => AbortByConsole(pid);
      case Kill(pid) => Kill(pid);
      case SetDegree(newDegree, answers) => SetDegree(newDegree, answers);
    }
  }
}
