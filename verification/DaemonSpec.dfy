/** The daemon's accept loop as a step machine. A tick carries everything the
    operating system decides: the poll result, accepted connections, what each
    read, fork and wait would answer. Three facts about the system are built
    into Fork, WaitNoHang and KillChild; a pid offered by fork that is not
    fresh counts as a failed fork, so every input is admissible. */
module DaemonSpec {
  import opened Wrappers

  /** A connection, named by its accept order (descriptor numbers are reused). */
  datatype Client = Client(id: nat, pid: Option<int>)

  datatype Response = Ok | Bye | Err | Status(code: int)

  datatype Command = Ping | Stop | Run(offeredPid: int) | Unknown | Partial | Eof | Bad

  /** What a read of a connection finds: a command, or, while its child runs,
      that the peer is gone or not. */
  datatype Heard = Asked(command: Command) | Quiet | Hangup

  /** What the daemon has done, oldest first. */
  datatype Action =
    | Recv(id: nat, heard: Heard)
    | Respond(id: nat, response: Response)
    | Close(id: nat)
    | Fork(id: nat, pid: int)
    | Reap(id: nat, pid: int, status: int)

  datatype Os = Os(unreaped: set<int>, log: seq<Action>) {
    function Do(a: Action): Os { this.(log := log + [a]) }
  }

  // ----- the system calls -----

  /** fork returns a positive pid that is not among the unreaped children, or fails. */
  function ForkChild(os: Os, id: nat, offered: int): (r: (Option<int>, Os)) {
    if offered > 0 && offered !in os.unreaped then
      (Some(offered), os.(unreaped := os.unreaped + {offered}).Do(Fork(id, offered)))
    else (None, os)
  }

  function ReapChild(os: Os, id: nat, pid: int, status: int): Os {
    os.(unreaped := os.unreaped - {pid}).Do(Reap(id, pid, status))
  }

  datatype WaitResult = Running | Exited(status: int) | NoChild

  /** waitpid with WNOHANG fails exactly when the pid is not an unreaped child. */
  function WaitNoHang(os: Os, id: nat, pid: int, answer: Option<int>): (WaitResult, Os) {
    if pid !in os.unreaped then (NoChild, os)
    else match answer
      case None => (Running, os)
      case Some(status) => (Exited(status), ReapChild(os, id, pid, status))
  }

  /** SIGTERM, SIGKILL, then a blocking waitpid, which succeeds on an unreaped child. */
  function KillChild(os: Os, id: nat, pid: int, status: int): (Option<int>, Os) {
    if pid in os.unreaped then (Some(status), ReapChild(os, id, pid, status)) else (None, os)
  }

  function WaitStatusCode(status: int): int {
    if status % 0x80 == 0 then status / 0x100 % 0x100 else 128 + status % 0x80
  }

  /** What wait encodes is told apart again: an exit status, or the number of
      the signal that killed the child, with or without a core dump. */
  lemma StatusCodeDecodes(code: int, signal: int, core: bool)
    requires 0 <= code < 0x100 && 0 < signal < 0x7f
    ensures WaitStatusCode(code * 0x100) == code
    ensures WaitStatusCode(signal + if core then 0x80 else 0) == 128 + signal
  {
    var status := signal + if core then 0x80 else 0;
    assert status == (if core then 1 else 0) * 0x80 + signal;
  }

  // ----- one client -----

  /** What reading the connection would find: whether the peer is dead (asked
      only while a child runs) and the command (asked only otherwise). */
  datatype Event = Event(dead: bool, killStatus: int, command: Command)

  datatype Outcome = Keep(client: Client) | Drop | Halt

  function Refuse(os: Os, id: nat): Os {
    os.Do(Respond(id, Err)).Do(Close(id))
  }

  function HeardFrom(c: Client, ev: Event): Heard {
    if c.pid.None? then Asked(ev.command) else if ev.dead then Hangup else Quiet
  }

  function Visit(c: Client, ev: Event, os0: Os): (Outcome, Os) {
    var os := os0.Do(Recv(c.id, HeardFrom(c, ev)));
    if c.pid.Some? then
      if ev.dead then (Drop, KillChild(os, c.id, c.pid.value, ev.killStatus).1.Do(Close(c.id)))
      else (Keep(c), os)
    else match ev.command
      case Ping => (Keep(c), os.Do(Respond(c.id, Ok)))
      case Stop => (Halt, os.Do(Respond(c.id, Bye)))
      case Run(offered) =>
        var (pid, os') := ForkChild(os, c.id, offered);
        if pid.None? then (Drop, Refuse(os', c.id)) else (Keep(c.(pid := pid)), os')
      case Partial => (Keep(c), os)
      case _ => (Drop, Refuse(os, c.id))
  }

  // ----- the passes, client by client -----

  datatype Pass = Pass(clients: seq<Client>, os: Os, halted: bool)

  function Prepend(c: Client, p: Pass): Pass { p.(clients := [c] + p.clients) }

  /** The service pass from slot i on. A dropped client does not advance the
      slot: the next client is looked up under the slot of the dropped one. */
  function Service(todo: seq<Client>, slots: seq<bool>, i: nat, events: nat -> Event, os: Os): Pass {
    if todo == [] || i >= |slots| then Pass(todo, os, false)
    else if !slots[i] then Prepend(todo[0], Service(todo[1..], slots, i + 1, events, os))
    else
      var (outcome, os') := Visit(todo[0], events(todo[0].id), os);
      match outcome
      case Keep(c) => Prepend(c, Service(todo[1..], slots, i + 1, events, os'))
      case Drop => Service(todo[1..], slots, i, events, os')
      case Halt => Pass(todo, os', true)
  }

  function Finish(os: Os, id: nat, code: int): Os {
    os.Do(Respond(id, Status(code))).Do(Close(id))
  }

  datatype Swept = Swept(clients: seq<Client>, os: Os)

  function Cons(c: Client, s: Swept): Swept { s.(clients := [c] + s.clients) }

  /** The pass over terminated children. */
  function ReapPass(clients: seq<Client>, exits: nat -> Option<int>, os: Os): Swept {
    if clients == [] then Swept([], os)
    else
      var c := clients[0];
      if c.pid.None? then Cons(c, ReapPass(clients[1..], exits, os))
      else
        var (r, os1) := WaitNoHang(os, c.id, c.pid.value, exits(c.id));
        match r
        case Running => Cons(c, ReapPass(clients[1..], exits, os1))
        case Exited(status) => ReapPass(clients[1..], exits, Finish(os1, c.id, WaitStatusCode(status)))
        case NoChild => ReapPass(clients[1..], exits, Finish(os1, c.id, 0))
  }

  /** Shutdown: every child killed and reaped, its client told, its pid taken. */
  function ShutDownClient(c: Client, status: int, os: Os): Os {
    if c.pid.None? then os
    else
      var (killed, os') := KillChild(os, c.id, c.pid.value, status);
      if killed.Some? then os'.Do(Respond(c.id, Status(WaitStatusCode(killed.value)))) else os'
  }

  function Shutdown(clients: seq<Client>, kills: nat -> int, os: Os): Swept {
    if clients == [] then Swept([], os)
    else
      var c := clients[0];
      Cons(c.(pid := None), Shutdown(clients[1..], kills, ShutDownClient(c, kills(c.id), os)))
  }

  // ----- a tick and a run -----

  datatype Tick = Tick(
    shutdown: bool,              // the signal handler has set the flag
    interrupted: bool,           // poll returns EINTR
    ready: nat -> bool,          // revents of the client polled in this slot
    accepted: nat,               // connections the accept loop takes
    events: nat -> Event,        // by connection
    exits: nat -> Option<int>,   // by connection: its child's status, if it has ended
    kills: nat -> int)           // by connection: the status its child is killed with

  datatype World = World(clients: seq<Client>, next: nat, os: Os, halted: bool)

  const INITIAL: World := World([], 0, Os({}, []), false)

  function Accept(clients: seq<Client>, next: nat, n: nat): seq<Client> {
    clients + seq(n, k requires 0 <= k < n => Client(next + k, None))
  }

  /** The poll results of the n clients present before the accept loop. */
  function Slots(t: Tick, n: nat): (slots: seq<bool>)
    ensures |slots| == n && forall i :: 0 <= i < n ==> slots[i] == t.ready(i)
  {
    seq(n, i requires 0 <= i < n => t.ready(i))
  }

  function Step(w: World, t: Tick): World {
    if w.halted then w
    else if t.shutdown then
      var s := Shutdown(w.clients, t.kills, w.os);
      World(s.clients, w.next, s.os, true)
    else if t.interrupted then w
    else
      var served := Service(Accept(w.clients, w.next, t.accepted), Slots(t, |w.clients|), 0, t.events, w.os);
      if served.halted then
        var s := Shutdown(served.clients, t.kills, served.os);
        World(s.clients, w.next + t.accepted, s.os, true)
      else
        var s := ReapPass(served.clients, t.exits, served.os);
        World(s.clients, w.next + t.accepted, s.os, false)
  }

  function RunTicks(w: World, ticks: seq<Tick>): World
    decreases |ticks|
  {
    if ticks == [] then w else RunTicks(Step(w, ticks[0]), ticks[1..])
  }
}
