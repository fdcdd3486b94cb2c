/**
 The kernel's scheduler and semaphores: five process queues, two lists of CPUs, and one transition for
 each message the kernel handles.
 */
module Scheduling {

  datatype Status = New | Ready | Running | Blocked | Finished

  datatype Pcb = Pcb(pid: int, status: Status)

  /** A connected CPU. `reported` counts the sentences reported since its last dispatch; nothing reads it. */
  datatype Cpu = Cpu(pid: int, quantum: int, reported: nat)

  datatype Semaphore = Semaphore(name: string, value: int)

  datatype Algorithm = Fifo | RoundRobin

  /**
   All that the handlers read and write. `sent` lists the processes sent to a CPU so far; `executing` says which
   process a CPU was sent last and has not handed back, and nothing reads it; `faulted` says that a pointer was used
   that had never been set, after which nothing is known.
   */
  datatype State = State(
    news: seq<Pcb>, ready: seq<Pcb>, running: seq<Pcb>, blocked: seq<Pcb>, finished: seq<Pcb>,
    idle: seq<int>, busy: seq<int>, cpus: map<int, Cpu>,
    semaphores: seq<Semaphore>, waits: map<int, string>, doomed: seq<int>,
    count: int, maxPid: int, degree: int, quantum: int, algorithm: Algorithm,
    sent: seq<int>, executing: map<int, int>, faulted: bool)

  // ---------------------------------------------------------------- lists

  predicate In(q: seq<Pcb>, pid: int) {
    q != [] && (q[0].pid == pid || In(q[1..], pid))
  }

  /** The position of a process in a queue; |q| if it is not there. */
  function Find(q: seq<Pcb>, pid: int): (i: nat)
    ensures i <= |q| && (i < |q| <==> In(q, pid)) && (i < |q| ==> q[i].pid == pid)
  {
    if q == [] || q[0].pid == pid then 0 else 1 + Find(q[1..], pid)
  }

  /** The queue a process leaves, and the one it joins, when it is found in `q`. */
  function Leave(q: seq<Pcb>, pid: int): seq<Pcb> {
    if q == [] then [] else if q[0].pid == pid then q[1..] else [q[0]] + Leave(q[1..], pid)
  }

  function Join(to: seq<Pcb>, q: seq<Pcb>, pid: int, status: Status): seq<Pcb> {
    if In(q, pid) then to + [Pcb(pid, status)] else to
  }

  function Drop(xs: seq<int>, x: int): seq<int> {
    if xs == [] then [] else if xs[0] == x then xs[1..] else [xs[0]] + Drop(xs[1..], x)
  }

  function Lower(c: char): char {
    if 'A' <= c <= 'Z' then (c as int + 32) as char else c
  }

  function Fold(name: string): string {
    if name == "" then "" else [Lower(name[0])] + Fold(name[1..])
  }

  /** `string_equals_ignore_case`. */
  predicate SameName(a: string, b: string) {
    Fold(a) == Fold(b)
  }

  /** A CPU by its socket; sockets of no CPU are never looked up by an enabled event. */
  function CpuOf(cpus: map<int, Cpu>, socket: int): Cpu {
    if socket in cpus then cpus[socket] else Cpu(0, 0, 0)
  }

  function FindSemaphore(sems: seq<Semaphore>, name: string): (k: nat)
    ensures k <= |sems| && (k < |sems| ==> SameName(sems[k].name, name))
    ensures forall j :: 0 <= j < k ==> !SameName(sems[j].name, name)
  {
    if sems == [] || SameName(sems[0].name, name) then 0 else 1 + FindSemaphore(sems[1..], name)
  }

  function Waiting(waits: map<int, string>, pid: int): string {
    if pid in waits then waits[pid] else ""
  }

  /** The first process of a queue that waits on a semaphore of that name. */
  function FindWaiter(q: seq<Pcb>, waits: map<int, string>, name: string): (i: nat)
    ensures i <= |q| && (i < |q| ==> SameName(Waiting(waits, q[i].pid), name))
    ensures forall j :: 0 <= j < i ==> !SameName(Waiting(waits, q[j].pid), name)
  {
    if q == [] || SameName(Waiting(waits, q[0].pid), name) then 0 else 1 + FindWaiter(q[1..], waits, name)
  }

  // ---------------------------------------------------------------- semaphores of a process that ends

  /** The loop of `limpiarSemaforosProceso`: once a semaphore matched, the name to look for is empty. */
  function Released(sems: seq<Semaphore>, name: string): seq<Semaphore> {
    if sems == [] then []
    else if SameName(sems[0].name, name) then [sems[0].(value := sems[0].value + 1)] + Released(sems[1..], "")
    else [sems[0]] + Released(sems[1..], name)
  }

  function Cleaned(s: State, pid: int): State {
    var name := Waiting(s.waits, pid);
    if name == "" then s
    else s.(semaphores := Released(s.semaphores, name),
            waits := if FindSemaphore(s.semaphores, name) < |s.semaphores| then s.waits[pid := ""] else s.waits)
  }

  function WithValue(sems: seq<Semaphore>, k: nat, delta: int): seq<Semaphore>
    requires k < |sems|
  {
    sems[k := sems[k].(value := sems[k].value + delta)]
  }

  function Changed(s: State, k: nat, delta: int): State
    requires k < |s.semaphores|
  {
    s.(semaphores := WithValue(s.semaphores, k, delta))
  }

  // ---------------------------------------------------------------- moves between queues

  function NewToReady(s: State, pid: int): State {
    s.(ready := s.ready + [Pcb(pid, Ready)], count := s.count + 1)
  }

  function NewToFinished(s: State, pid: int): State {
    s.(news := Leave(s.news, pid), finished := Join(s.finished, s.news, pid, Finished))
  }

  function ReadyToRunning(s: State, pid: int): State {
    s.(ready := Leave(s.ready, pid), running := Join(s.running, s.ready, pid, Running))
  }

  function RunningToReady(s: State, pid: int): State {
    s.(running := Leave(s.running, pid), ready := Join(s.ready, s.running, pid, Ready))
  }

  function RunningToBlocked(s: State, pid: int): State {
    s.(running := Leave(s.running, pid), blocked := Join(s.blocked, s.running, pid, Blocked))
  }

  function BlockedToReady(s: State, pid: int): State {
    s.(blocked := Leave(s.blocked, pid), ready := Join(s.ready, s.blocked, pid, Ready))
  }

  function RunningToFinished(s: State, pid: int): State {
    if In(s.running, pid) then
      Cleaned(s.(running := Leave(s.running, pid), finished := Join(s.finished, s.running, pid, Finished),
                 count := s.count - 1), pid)
    else s
  }

  function ReadyToFinished(s: State, pid: int): State {
    s.(ready := Leave(s.ready, pid), finished := Join(s.finished, s.ready, pid, Finished),
       count := if In(s.ready, pid) then s.count - 1 else s.count)
  }

  function BlockedToFinished(s: State, pid: int): State {
    if In(s.blocked, pid) then
      Cleaned(s.(blocked := Leave(s.blocked, pid), finished := Join(s.finished, s.blocked, pid, Finished),
                 count := s.count - 1), pid)
    else s
  }

  /** `pasarPcbAFinalizados`. */
  function ToFinished(s: State, pid: int, status: Status): State {
    match status
    case New => NewToFinished(s, pid)
    case Ready => if In(s.ready, pid) then Cleaned(ReadyToFinished(s, pid), pid) else s
    case Running => RunningToFinished(s, pid)
    case Blocked => BlockedToFinished(s, pid)
    case Finished => s
  }

  // ---------------------------------------------------------------- CPUs

  /** `ejecutarSiguientePcbEnCpu`: the head of the ready queue goes to the CPU. */
  function Dispatched(s: State, socket: int): State
  {
    if s.ready == [] then s
    else
      var pid := s.ready[0].pid;
      ReadyToRunning(s, pid).(cpus := s.cpus[socket := CpuOf(s.cpus, socket).(pid := pid, reported := 0)],
                              sent := s.sent + [pid], executing := s.executing[socket := pid])
  }

  function Ticked(s: State, socket: int): State
  {
    s.(cpus := s.cpus[socket := CpuOf(s.cpus, socket).(quantum := CpuOf(s.cpus, socket).quantum + 1)])
  }

  /** `planificar(0)`: the first idle CPU becomes busy with the next process; under round robin its counter goes up. */
  function Planned(s: State): State
  {
    if s.idle == [] then s
    else
      var socket := s.idle[0];
      var t := s.(idle := s.idle[1..], busy := s.busy + [socket]);
      Dispatched(if s.algorithm.RoundRobin? then Ticked(t, socket) else t, socket)
  }

  /** The CPU has handed its process back and becomes idle. */
  function CpuFreed(s: State, socket: int): State {
    s.(busy := Drop(s.busy, socket), idle := s.idle + [socket], executing := s.executing - {socket})
  }

  /** `pasarProximoProcDeNewAReady`. If the memory server has no room the process is in no queue any more. */
  function Promoted(s: State, admitted: bool): State
  {
    if s.news == [] then s
    else
      var t := s.(news := s.news[1..]);
      if !admitted then NewToFinished(t, s.news[0].pid)
      else
        var u := NewToReady(t, s.news[0].pid);
        if u.idle != [] then Planned(u) else u
  }

  function PlannedIfReady(s: State): State
  {
    if s.ready != [] then Planned(s) else s
  }

  // ---------------------------------------------------------------- events

  /**
   The messages and console commands; `admitted` is the memory server's answer if a new process needs it, and `unset`
   what the process number of a new CPU, which nothing sets, happens to be.
   */
  datatype Event =
    | Start(admitted: bool)
    | Connect(socket: int, unset: int)
    | Handshake
    | Sentence(socket: int, pid: int, admitted: bool)
    | Wait(socket: int, pid: int, name: string, admitted: bool)
    | Signal(name: string)
    | Exit(socket: int, pid: int, admitted: bool)
    | Abort(socket: int, pid: int, admitted: bool)
    | Oversized(socket: int)
    | ConsoleAbort(pid: int)
    | Kill(pid: int)
    | SetDegree(degree: int, answers: seq<bool>)

  /** A CPU reports about the process it runs. */
  predicate FromCpu(e: Event) {
    e.Sentence? || e.Wait? || e.Exit? || e.Abort?
  }

  /** What can reach the kernel: a CPU that is connected reports about a process that is running, or aborts one. */
  predicate Possible(s: State, e: Event) {
    match e
    case Connect(socket, _) => socket !in s.cpus
    case Sentence(socket, pid, _) => socket in s.cpus && In(s.running, pid)
    case Wait(socket, pid, _, _) => socket in s.cpus && In(s.running, pid)
    case Exit(socket, pid, _) => socket in s.cpus && In(s.running, pid)
    case Abort(socket, _, _) => socket in s.cpus
    case Oversized(socket) => socket in s.cpus && In(s.running, s.cpus[socket].pid)
    case SetDegree(_, answers) => |answers| == |s.news|
    case _ => true
  }

  // ---------------------------------------------------------------- handlers

  /** `iniciarProceso`. */
  function Started(s: State, admitted: bool): State
  {
    var t := Arrived(s, admitted);
    if t.ready != [] && t.idle != [] then Planned(t) else t
  }

  /** Where a new process goes: memory is asked for it only if the system has room. */
  function Arrived(s: State, admitted: bool): State
  {
    var pid := s.maxPid + 1;
    var t := s.(maxPid := pid, waits := s.waits[pid := ""]);
    if s.count < s.degree then
      var u := NewToReady(t, pid);
      if admitted then u else ReadyToFinished(u, pid)
    else t.(news := t.news + [Pcb(pid, New)])
  }

  /** The kill branch of `planificar`: the CPU is put among the idle ones and given a process all the same. */
  function KilledOnCpu(s: State, socket: int, pid: int, admitted: bool): State
  {
    var t := RunningToFinished(s.(doomed := Drop(s.doomed, CpuOf(s.cpus, socket).pid)), pid);
    Dispatched(CpuFreed(Promoted(t, admitted), socket), socket)
  }

  /** The CPU that the scan over the busy ones ends at: the one looked for, or else the last one. */
  function Scanned(busy: seq<int>, socket: int): int
    requires busy != []
  {
    if busy[0] == socket || |busy| == 1 then busy[0] else Scanned(busy[1..], socket)
  }

  /** The CPU that reported has handed its process back; the one that was found starts a new quantum. */
  function HandedOver(s: State, socket: int, found: int): State {
    s.(cpus := s.cpus[found := CpuOf(s.cpus, found).(quantum := 1)], executing := s.executing - {socket})
  }

  /** The round-robin branch: the quantum is over, or it is not. */
  function QuantumChecked(s: State, socket: int, pid: int): State
    requires s.busy != []
  {
    var found := Scanned(s.busy, socket);
    var cpu := CpuOf(s.cpus, found);
    if cpu.quantum >= s.quantum then
      Dispatched(RunningToReady(HandedOver(s, socket, found), pid), found)
    else s.(cpus := s.cpus[found := cpu.(quantum := cpu.quantum + 1, reported := cpu.reported + 1)])
  }

  /** No kill is due. Round robin looks for the CPU among the busy ones; if there are none, its pointer stays unset. */
  function GoesOn(s: State, socket: int, pid: int): State
  {
    if s.algorithm.RoundRobin? && s.busy == [] then s.(faulted := true)
    else if s.algorithm.RoundRobin? then QuantumChecked(s, socket, pid)
    else s.(cpus := s.cpus[socket := CpuOf(s.cpus, socket).(reported := CpuOf(s.cpus, socket).reported + 1)])
  }

  /** `planificar(socket)`. */
  function SentenceDone(s: State, socket: int, pid: int, admitted: bool): State
  {
    if CpuOf(s.cpus, socket).pid in s.doomed then KilledOnCpu(s, socket, pid, admitted)
    else GoesOn(s, socket, pid)
  }

  /** The branch of `pedido_wait` for a process that was to be killed: the wait is taken back in the end. */
  function KilledWaiting(s: State, k: nat, socket: int, pid: int, admitted: bool): State
    requires k < |s.semaphores|
  {
    var t := RunningToFinished(s.(doomed := Drop(s.doomed, pid)), pid);
    var u := CpuFreed(Promoted(t, admitted), socket);
    if k < |u.semaphores| then Changed(u, k, 1) else u
  }

  /** The branch of `pedido_wait` for a process that has to wait. */
  function MadeToWait(s: State, k: nat, socket: int, pid: int): State
    requires k < |s.semaphores|
  {
    RunningToBlocked(CpuFreed(s.(waits := s.waits[pid := s.semaphores[k].name]), socket), pid)
  }

  /** `pedido_wait`. */
  function Waited(s: State, socket: int, pid: int, name: string, admitted: bool): State
  {
    var k := FindSemaphore(s.semaphores, name);
    if k == |s.semaphores| then s
    else
      var t := Changed(s, k, -1);
      if t.semaphores[k].value >= 0 then t
      else if pid in s.doomed then PlannedIfReady(KilledWaiting(t, k, socket, pid, admitted))
      else PlannedIfReady(MadeToWait(t, k, socket, pid))
  }

  /** `pedido_signal`: at most one process wakes up. */
  function Signalled(s: State, name: string): State
  {
    var k := FindSemaphore(s.semaphores, name);
    if k == |s.semaphores| then s
    else
      var t := Changed(s, k, 1);
      var i := FindWaiter(t.blocked, t.waits, t.semaphores[k].name);
      if i == |t.blocked| then t
      else
        var pid := t.blocked[i].pid;
        var u := BlockedToReady(t, pid).(waits := t.waits[pid := ""]);
        if u.idle != [] then Planned(u) else u
  }

  function CpuReset(s: State, socket: int): State
  {
    s.(cpus := s.cpus[socket := CpuOf(s.cpus, socket).(pid := 0, quantum := 0)])
  }

  /** The process has ended and its CPU is idle. */
  function EndedOnCpu(s: State, socket: int, pid: int): State
  {
    CpuFreed(CpuReset(RunningToFinished(s, pid), socket), socket)
  }

  /** The handling of `PROGRAMA_TERMINADO`. */
  function Exited(s: State, socket: int, pid: int, admitted: bool): State
  {
    PlannedIfReady(Promoted(EndedOnCpu(s, socket, pid), admitted))
  }

  /** `pedidoAbortarProgramaDeCpu`. */
  function Aborted(s: State, socket: int, pid: int, admitted: bool): State
  {
    Promoted(EndedOnCpu(s, socket, pid), admitted)
  }

  /** `buscarPcbPorPID`, which does not look among the finished ones. */
  function StatusOf(s: State, pid: int): Status {
    if In(s.ready, pid) then s.ready[Find(s.ready, pid)].status
    else if In(s.running, pid) then s.running[Find(s.running, pid)].status
    else if In(s.blocked, pid) then s.blocked[Find(s.blocked, pid)].status
    else if In(s.news, pid) then s.news[Find(s.news, pid)].status
    else Finished
  }

  /** `pedidoAbortarProgramaDeConsola`. */
  function AbortedByConsole(s: State, pid: int): State {
    var status := StatusOf(s, pid);
    if status.Running? then s.(doomed := s.doomed + [pid]) else ToFinished(s, pid, status)
  }

  predicate OnBusyCpu(busy: seq<int>, cpus: map<int, Cpu>, pid: int) {
    busy != [] && (CpuOf(cpus, busy[0]).pid == pid || OnBusyCpu(busy[1..], cpus, pid))
  }

  /** `matarProceso`, with the flag entry holding the process number. */
  function Killed(s: State, pid: int): State {
    if OnBusyCpu(s.busy, s.cpus, pid) then s.(doomed := s.doomed + [pid])
    else KilledFrom(s, pid, StatusOf(s, pid))
  }

  /** A process that is on no busy CPU ends at once. */
  function KilledFrom(s: State, pid: int, status: Status): State {
    match status
    case New => NewToFinished(s, pid)
    case Ready => ReadyToFinished(s, pid)
    case Blocked => BlockedToFinished(s, pid)
    case _ => s
  }

  /** The admission loop after the level of multiprogramming has been changed. */
  function Admitted(s: State, answers: seq<bool>): State
    decreases |answers|
  {
    if answers == [] || s.count >= s.degree then s
    else Admitted(Promoted(s, answers[0]), answers[1..])
  }

  function Step(s: State, e: Event): State
    requires Possible(s, e)
  {
    match e
    case Start(admitted) => Started(s, admitted)
    case Connect(socket, unset) => s.(idle := s.idle + [socket], cpus := s.cpus[socket := Cpu(unset, 0, 0)])
    case Handshake => PlannedIfReady(s)
    case Sentence(socket, pid, admitted) => SentenceDone(s, socket, pid, admitted)
    case Wait(socket, pid, name, admitted) => Waited(s, socket, pid, name, admitted)
    case Signal(name) => Signalled(s, name)
    case Exit(socket, pid, admitted) => Exited(s, socket, pid, admitted)
    case Abort(socket, pid, admitted) => Aborted(s, socket, pid, admitted)
    case Oversized(socket) => RunningToFinished(s, CpuOf(s.cpus, socket).pid)
    case ConsoleAbort(pid) => AbortedByConsole(s, pid)
    case Kill(pid) => Killed(s, pid)
    case SetDegree(degree, answers) => Admitted(s.(degree := degree), answers)
  }
}
