/** What every run of the accept loop keeps. */
module DaemonSafety {
  import opened Wrappers
  import opened DaemonSpec

  // ----- reading the log -----

  /** Where a connection stands: it may ask; it is owed a response, or a child or
      an ERR; it has been refused; its child runs, or runs without a peer; it
      has had its last response; it is closed. Astray is none of these. */
  datatype Phase =
    | Idle | Owed(response: Response) | Starting | Refused | Busy(pid: int) | Orphaned(pid: int)
    | Told(last: Response) | Closed | Astray

  /** What a command is answered with. */
  function AfterCommand(command: Command): Phase {
    match command
    case Ping => Owed(Ok)
    case Stop => Owed(Bye)
    case Run(_) => Starting
    case Partial => Idle
    case _ => Owed(Err)
  }

  /** The protocol of one connection: where the daemon's next action on it leads. */
  function AfterAct(phase: Phase, a: Action): Phase {
    match a
    case Recv(_, heard) =>
      if phase.Idle? && heard.Asked? then AfterCommand(heard.command)
      else if phase.Busy? && heard.Quiet? then phase
      else if phase.Busy? && heard.Hangup? then Orphaned(phase.pid)
      else Astray
    case Respond(_, r) =>
      if phase == Owed(r) then (if r.Ok? then Idle else if r.Err? then Refused else Told(r))
      else if phase.Starting? && r.Err? then Refused
      else Astray
    case Fork(_, pid) => if phase.Starting? then Busy(pid) else Astray
    case Reap(_, pid, status) =>
      if phase == Busy(pid) then Owed(Status(WaitStatusCode(status)))
      else if phase == Orphaned(pid) then Refused
      else Astray
    case Close(_) => if phase.Refused? || (phase.Told? && phase.last.Status?) then Closed else Astray
  }

  function AfterFinal(phase: Phase, id: nat, r: Response): Phase {
    AfterAct(AfterAct(phase, Respond(id, r)), Close(id))
  }

  /** What one connection has seen: its responses, whether each STATUS among
      them was true, how often it was closed and given a child, its last child,
      the status that child was reaped with, and where it stands. */
  datatype Conn = Seen(trace: seq<Response>, honest: bool, closes: nat, forks: nat,
                       child: Option<int>, ended: Option<int>, phase: Phase)

  const UNSEEN: Conn := Seen([], true, 0, 0, None, None, Idle)

  /** A STATUS is the code of the status the connection's own child ended with. */
  predicate IsTrue(c: Conn, r: Response) {
    r.Status? ==> c.ended.Some? && r.code == WaitStatusCode(c.ended.value)
  }

  function Advance(c0: Conn, a: Action, id: nat): Conn {
    if a.id != id then c0
    else
      var c := c0.(phase := AfterAct(c0.phase, a));
      match a
      case Respond(_, r) => c.(trace := c.trace + [r], honest := c.honest && IsTrue(c, r))
      case Close(_) => c.(closes := c.closes + 1)
      case Fork(_, pid) => c.(forks := c.forks + 1, child := Some(pid), ended := None)
      case Reap(_, pid, status) => if c.child == Some(pid) then c.(ended := Some(status)) else c
      case Recv(_, _) => c
  }

  function ConnOf(log: seq<Action>, id: nat): Conn {
    if log == [] then UNSEEN else Advance(ConnOf(log[..|log| - 1], id), log[|log| - 1], id)
  }

  function AfterAction(children: set<int>, a: Action): set<int> {
    match a
    case Fork(_, pid) => children + {pid}
    case Reap(_, pid, _) => children - {pid}
    case _ => children
  }

  /** The children forked and not yet reaped. */
  function Children(log: seq<Action>): set<int> {
    if log == [] then {} else AfterAction(Children(log[..|log| - 1]), log[|log| - 1])
  }

  predicate Admissible(children: set<int>, a: Action) {
    match a
    case Fork(_, pid) => pid !in children
    case Reap(_, pid, _) => pid in children
    case _ => true
  }

  /** Every fork is of a new child and every reap of a child not yet reaped. */
  predicate Alternates(log: seq<Action>) {
    log == [] || (Alternates(log[..|log| - 1]) && Admissible(Children(log[..|log| - 1]), log[|log| - 1]))
  }

  ghost predicate AllOk(trace: seq<Response>) {
    forall k :: 0 <= k < |trace| ==> trace[k] == Ok
  }

  /** OKs, then at most one other response, which is the last. */
  ghost predicate WellFormed(trace: seq<Response>) {
    forall k :: 0 <= k < |trace| - 1 ==> trace[k] == Ok
  }

  lemma LogGrows(log: seq<Action>, a: Action)
    ensures forall id :: ConnOf(log + [a], id) == Advance(ConnOf(log, id), a, id)
    ensures Children(log + [a]) == AfterAction(Children(log), a)
    ensures Alternates(log + [a]) == (Alternates(log) && Admissible(Children(log), a))
  {
    assert (log + [a])[..|log|] == log;
  }

  // ----- the invariant -----

  ghost predicate OsOk(os: Os) {
    os.unreaped == Children(os.log) && Alternates(os.log)
  }

  /** A client in the vector: not closed, one fork if it has a child, and only
      OKs so far; while stopping, a client without a child may have had its
      last response. */
  ghost predicate LiveOk(c: Client, conn: Conn, stopping: bool) {
    && conn.closes == 0 && WellFormed(conn.trace) && conn.honest
    && (if c.pid.Some? then conn.forks == 1 && conn.child == c.pid else if stopping then conn.forks <= 1 else conn.forks == 0)
    && (c.pid.Some? || !stopping ==> AllOk(conn.trace))
    && (if c.pid.Some? then conn.phase == Busy(c.pid.value)
        else conn.phase.Idle? || (stopping && conn.phase.Told?))
    && (conn.forks == 1 && c.pid.None? ==> conn.phase.Told? && conn.phase.last.Status?)
    && (conn.phase.Told? ==> conn.trace != [] && conn.trace[|conn.trace| - 1] == conn.phase.last)
  }

  /** A connection that has left the vector. */
  ghost predicate GoneOk(conn: Conn) {
    conn.closes == 1 && conn.forks <= 1 && WellFormed(conn.trace) && conn.honest && conn.phase.Closed?
  }

  ghost predicate Has(clients: seq<Client>, id: nat) {
    exists i :: 0 <= i < |clients| && clients[i].id == id
  }

  ghost predicate Ordered(clients: seq<Client>, next: nat) {
    && (forall i, j :: 0 <= i < j < |clients| ==> clients[i].id < clients[j].id)
    && (forall i :: 0 <= i < |clients| ==> clients[i].id < next)
  }

  ghost predicate PidsDistinct(clients: seq<Client>) {
    forall i, j :: 0 <= i < j < |clients| && clients[i].pid.Some? && clients[j].pid.Some? ==>
      clients[i].pid != clients[j].pid
  }

  /** The live pids are exactly the unreaped children. */
  ghost predicate PidsExact(clients: seq<Client>, unreaped: set<int>) {
    && (forall i :: 0 <= i < |clients| && clients[i].pid.Some? ==> clients[i].pid.value in unreaped)
    && (forall pid :: pid in unreaped ==> exists i :: 0 <= i < |clients| && clients[i].pid == Some(pid))
  }

  ghost predicate ConnsOk(clients: seq<Client>, next: nat, log: seq<Action>, stopping: bool) {
    && (forall i :: 0 <= i < |clients| ==> LiveOk(clients[i], ConnOf(log, clients[i].id), stopping))
    && (forall id: nat :: !Has(clients, id) ==>
        if id < next then GoneOk(ConnOf(log, id)) else ConnOf(log, id) == UNSEEN)
  }

  ghost predicate Inv(clients: seq<Client>, next: nat, os: Os, stopping: bool) {
    && OsOk(os)
    && Ordered(clients, next)
    && PidsDistinct(clients)
    && PidsExact(clients, os.unreaped)
    && ConnsOk(clients, next, os.log, stopping)
  }

  // ----- one client's turn -----

  /** From os to os' only connection id has been acted on. */
  ghost predicate OnlyTouches(os: Os, os': Os, id: nat) {
    forall j: nat :: j != id ==> ConnOf(os'.log, j) == ConnOf(os.log, j)
  }

  lemma DoKeeps(os: Os, a: Action)
    requires OsOk(os) && !a.Fork? && !a.Reap?
    ensures OsOk(os.Do(a)) && os.Do(a).unreaped == os.unreaped
    ensures forall id :: ConnOf(os.Do(a).log, id) == Advance(ConnOf(os.log, id), a, id)
  {
    LogGrows(os.log, a);
  }

  lemma ForkKeeps(os: Os, id: nat, offered: int)
    requires OsOk(os)
    ensures
      var (pid, os') := ForkChild(os, id, offered);
      && OsOk(os') && OnlyTouches(os, os', id)
      && (if pid.None? then os' == os
          else
            && pid.value !in os.unreaped && os'.unreaped == os.unreaped + {pid.value}
            && ConnOf(os'.log, id) == Advance(ConnOf(os.log, id), Fork(id, pid.value), id))
  {
    LogGrows(os.log, Fork(id, offered));
  }

  lemma ReapKeeps(os: Os, id: nat, pid: int, status: int)
    requires OsOk(os) && pid in os.unreaped
    ensures
      var os' := ReapChild(os, id, pid, status);
      && OsOk(os') && os'.unreaped == os.unreaped - {pid} && OnlyTouches(os, os', id)
      && ConnOf(os'.log, id) == Advance(ConnOf(os.log, id), Reap(id, pid, status), id)
  {
    LogGrows(os.log, Reap(id, pid, status));
  }

  /** The children after a client's turn: its own may be gone or new. */
  function Without(unreaped: set<int>, c: Client): set<int> {
    if c.pid.Some? then unreaped - {c.pid.value} else unreaped
  }

  lemma VisitKeeps(c: Client, ev: Event, os: Os)
    requires OsOk(os) && LiveOk(c, ConnOf(os.log, c.id), false)
    requires c.pid.Some? ==> c.pid.value in os.unreaped
    ensures
      var (outcome, os') := Visit(c, ev, os);
      OsOk(os') && OnlyTouches(os, os', c.id) &&
      var conn := ConnOf(os'.log, c.id);
      match outcome
      case Keep(c') =>
        && c'.id == c.id && LiveOk(c', conn, false)
        && (if c'.pid == c.pid then os'.unreaped == os.unreaped
            else (c.pid.None? && c'.pid.Some? && c'.pid.value !in os.unreaped
                  && os'.unreaped == os.unreaped + {c'.pid.value}))
      case Drop => GoneOk(conn) && os'.unreaped == Without(os.unreaped, c)
      case Halt => LiveOk(c, conn, true) && os'.unreaped == os.unreaped
  {
    hide ConnOf, Children, Alternates, OsOk;
    DoKeeps(os, Recv(c.id, HeardFrom(c, ev)));
    var os1 := os.Do(Recv(c.id, HeardFrom(c, ev)));
    if c.pid.Some? {
      if ev.dead {
        ReapKeeps(os1, c.id, c.pid.value, ev.killStatus);
        DoKeeps(ReapChild(os1, c.id, c.pid.value, ev.killStatus), Close(c.id));
      }
    } else {
      match ev.command {
        case Ping => DoKeeps(os1, Respond(c.id, Ok));
        case Stop => DoKeeps(os1, Respond(c.id, Bye));
        case Run(offered) =>
          ForkKeeps(os1, c.id, offered);
          RefuseKeeps(os1, c.id);
        case _ => RefuseKeeps(os1, c.id);
      }
    }
  }

  lemma RefuseKeeps(os: Os, id: nat)
    requires OsOk(os)
    ensures OsOk(Refuse(os, id)) && Refuse(os, id).unreaped == os.unreaped && OnlyTouches(os, Refuse(os, id), id)
    ensures
      var conn := ConnOf(os.log, id);
      ConnOf(Refuse(os, id).log, id) ==
      conn.(trace := conn.trace + [Err], closes := conn.closes + 1, phase := AfterFinal(conn.phase, id, Err))
  {
    hide ConnOf, OsOk;
    DoKeeps(os, Respond(id, Err));
    DoKeeps(os.Do(Respond(id, Err)), Close(id));
  }

  // ----- the vector -----

  /** Replacing a client by one of the same id leaves the set of ids alone. */
  lemma SameIds(clients: seq<Client>, i: nat, c: Client)
    requires i < |clients| && c.id == clients[i].id
    ensures forall id: nat :: Has(clients[i := c], id) == Has(clients, id)
    ensures Has(clients, c.id)
  {
    var d := clients[i := c];
    forall id: nat ensures Has(d, id) == Has(clients, id) {
      if Has(clients, id) {
        var j :| 0 <= j < |clients| && clients[j].id == id;
        assert d[j].id == id;
      }
    }
  }

  /** Client i replaced by itself with or without a new child. */
  lemma KeepInv(clients: seq<Client>, i: nat, c: Client, next: nat, os: Os, os': Os)
    requires Inv(clients, next, os, false) && i < |clients| && c.id == clients[i].id
    requires OsOk(os') && OnlyTouches(os, os', c.id) && LiveOk(c, ConnOf(os'.log, c.id), false)
    requires
      if c.pid == clients[i].pid then os'.unreaped == os.unreaped
      else (clients[i].pid.None? && c.pid.Some? && c.pid.value !in os.unreaped
            && os'.unreaped == os.unreaped + {c.pid.value})
    ensures Inv(clients[i := c], next, os', false)
  {
    hide ConnOf, LiveOk, GoneOk, OsOk, Has;
    var d := clients[i := c];
    SameIds(clients, i, c);
    assert PidsExact(d, os'.unreaped) by {
      forall pid | pid in os'.unreaped ensures exists j :: 0 <= j < |d| && d[j].pid == Some(pid) {
        assert d[i] == c;
        if pid in os.unreaped {
          var j :| 0 <= j < |clients| && clients[j].pid == Some(pid);
          assert d[j].pid == Some(pid);
        }
      }
    }
  }

  function Remove(clients: seq<Client>, i: nat): (d: seq<Client>)
    requires i < |clients|
    ensures |d| == |clients| - 1
    ensures forall j {:trigger d[j]} :: 0 <= j < |d| ==> d[j] == clients[if j < i then j else j + 1]
  {
    clients[..i] + clients[i + 1..]
  }

  lemma RemovedIds(clients: seq<Client>, i: nat, next: nat)
    requires Ordered(clients, next) && PidsDistinct(clients) && i < |clients|
    ensures Ordered(Remove(clients, i), next) && PidsDistinct(Remove(clients, i))
    ensures forall id: nat :: Has(Remove(clients, i), id) == (Has(clients, id) && id != clients[i].id)
    ensures Has(clients, clients[i].id)
  {
    var d := Remove(clients, i);
    hide Remove;
    forall id: nat ensures Has(d, id) == (Has(clients, id) && id != clients[i].id) {
      if Has(clients, id) && id != clients[i].id {
        var j :| 0 <= j < |clients| && clients[j].id == id;
        var k := if j < i then j else j - 1;
        assert d[k].id == id;
      }
    }
  }

  lemma RemovedPids(clients: seq<Client>, i: nat, unreaped: set<int>)
    requires PidsDistinct(clients) && PidsExact(clients, unreaped) && i < |clients|
    ensures PidsExact(Remove(clients, i), Without(unreaped, clients[i]))
  {
    var d := Remove(clients, i);
    hide Remove;
    forall pid | pid in Without(unreaped, clients[i]) ensures exists j :: 0 <= j < |d| && d[j].pid == Some(pid) {
      var j :| 0 <= j < |clients| && clients[j].pid == Some(pid);
      var k := if j < i then j else j - 1;
      assert d[k].pid == Some(pid);
    }
  }

  /** Client i removed, its child (if any) reaped. */
  lemma DropInv(clients: seq<Client>, i: nat, next: nat, os: Os, os': Os)
    requires Inv(clients, next, os, false) && i < |clients|
    requires OsOk(os') && OnlyTouches(os, os', clients[i].id) && GoneOk(ConnOf(os'.log, clients[i].id))
    requires os'.unreaped == Without(os.unreaped, clients[i])
    ensures Inv(Remove(clients, i), next, os', false)
  {
    hide ConnOf, LiveOk, GoneOk, OsOk, Has, Remove, PidsExact;
    RemovedIds(clients, i, next);
    RemovedPids(clients, i, os.unreaped);
  }

  lemma StoppingInv(clients: seq<Client>, next: nat, os: Os)
    requires Inv(clients, next, os, false)
    ensures Inv(clients, next, os, true)
  {
    hide ConnOf, OsOk;
  }

  /** Client i answered while stopping: told BYE, or its child reaped and its
      status sent. */
  lemma AnsweredInv(clients: seq<Client>, i: nat, next: nat, os: Os, os': Os)
    requires Inv(clients, next, os, true) && i < |clients|
    requires OsOk(os') && OnlyTouches(os, os', clients[i].id)
    requires LiveOk(clients[i].(pid := None), ConnOf(os'.log, clients[i].id), true)
    requires os'.unreaped == Without(os.unreaped, clients[i])
    ensures Inv(clients[i := clients[i].(pid := None)], next, os', true)
  {
    hide ConnOf, LiveOk, GoneOk, OsOk, Has;
    var d := clients[i := clients[i].(pid := None)];
    SameIds(clients, i, d[i]);
    assert PidsExact(d, os'.unreaped) by {
      forall pid | pid in os'.unreaped ensures exists j :: 0 <= j < |d| && d[j].pid == Some(pid) {
        var j :| 0 <= j < |clients| && clients[j].pid == Some(pid);
        assert d[j].pid == Some(pid);
      }
    }
  }

  // ----- the passes -----

  lemma {:induction false} ServiceSafe(front: seq<Client>, todo: seq<Client>, slots: seq<bool>, i: nat,
                                       events: nat -> Event, next: nat, os: Os)
    requires Inv(front + todo, next, os, false)
    ensures
      var p := Service(todo, slots, i, events, os);
      Inv(front + p.clients, next, p.os, p.halted)
    decreases |todo|
  {
    hide Inv, Visit, Inv, OsOk, ConnOf, LiveOk, GoneOk, ConnsOk;
    if todo != [] && i < |slots| {
      var c, rest := todo[0], todo[1..];
      var all := front + todo;
      assert all[|front|] == c && all == front + [c] + rest;
      if !slots[i] {
        ServiceSafe(front + [c], rest, slots, i + 1, events, next, os);
        assert forall s: seq<Client> :: front + [c] + s == front + ([c] + s);
      } else {
        var (outcome, os') := Visit(c, events(c.id), os);
        ServiceTurn(all, |front|, events(c.id), next, os);
        match outcome
        case Keep(c') =>
          assert all[|front| := c'] == front + [c'] + rest;
          ServiceSafe(front + [c'], rest, slots, i + 1, events, next, os');
          assert forall s: seq<Client> :: front + [c'] + s == front + ([c'] + s);
        case Drop =>
          assert all[..|front|] + all[|front| + 1..] == front + rest;
          ServiceSafe(front, rest, slots, i, events, next, os');
        case Halt =>
      }
    }
  }

  lemma ServiceTurn(clients: seq<Client>, i: nat, ev: Event, next: nat, os: Os)
    requires Inv(clients, next, os, false) && i < |clients|
    ensures
      var (outcome, os') := Visit(clients[i], ev, os);
      match outcome
      case Keep(c) => c.id == clients[i].id && Inv(clients[i := c], next, os', false)
      case Drop => Inv(Remove(clients, i), next, os', false)
      case Halt => Inv(clients, next, os', true)
  {
    hide ConnOf, OsOk, LiveOk, GoneOk, Visit;
    var c := clients[i];
    VisitKeeps(c, ev, os);
    var (outcome, os') := Visit(c, ev, os);
    match outcome
    case Keep(c') => KeepInv(clients, i, c', next, os, os');
    case Drop => DropInv(clients, i, next, os, os');
    case Halt =>
      StoppingInv(clients, next, os);
      HaltedClient(c, ev, os);
      assert clients[i := c.(pid := None)] == clients;
      AnsweredInv(clients, i, next, os, os');
  }

  lemma HaltedClient(c: Client, ev: Event, os: Os)
    ensures Visit(c, ev, os).0.Halt? ==> c.pid.None?
  {
  }

  lemma FinishKeeps(os: Os, id: nat, code: int)
    requires OsOk(os)
    ensures OsOk(Finish(os, id, code)) && Finish(os, id, code).unreaped == os.unreaped
    ensures OnlyTouches(os, Finish(os, id, code), id)
    ensures
      var conn := ConnOf(os.log, id);
      ConnOf(Finish(os, id, code).log, id) ==
      conn.(trace := conn.trace + [Status(code)], honest := conn.honest && IsTrue(conn, Status(code)),
            closes := conn.closes + 1, phase := AfterFinal(conn.phase, id, Status(code)))
  {
    hide ConnOf, OsOk;
    DoKeeps(os, Respond(id, Status(code)));
    DoKeeps(os.Do(Respond(id, Status(code))), Close(id));
  }

  /** A child's end, told to its client, which is removed. */
  lemma ReapTurn(clients: seq<Client>, i: nat, status: int, next: nat, os: Os)
    requires Inv(clients, next, os, false) && i < |clients| && clients[i].pid.Some?
    ensures clients[i].pid.value in os.unreaped
    ensures Inv(Remove(clients, i), next,
                Finish(ReapChild(os, clients[i].id, clients[i].pid.value, status), clients[i].id,
                       WaitStatusCode(status)), false)
  {
    hide ConnOf, OsOk, Finish, ReapChild, WaitStatusCode;
    var c := clients[i];
    var os1 := ReapChild(os, c.id, c.pid.value, status);
    ReapKeeps(os, c.id, c.pid.value, status);
    FinishKeeps(os1, c.id, WaitStatusCode(status));
    DropInv(clients, i, next, os, Finish(os1, c.id, WaitStatusCode(status)));
  }

  lemma {:induction false} ReapSafe(front: seq<Client>, todo: seq<Client>, exits: nat -> Option<int>, next: nat, os: Os)
    requires Inv(front + todo, next, os, false)
    ensures var s := ReapPass(todo, exits, os); Inv(front + s.clients, next, s.os, false)
    decreases |todo|
  {
    hide Inv, Finish, WaitStatusCode, ReapChild;
    if todo != [] {
      var c, rest := todo[0], todo[1..];
      var all := front + todo;
      assert all[|front|] == c && all == front + [c] + rest && Remove(all, |front|) == front + rest;
      if c.pid.Some? && exits(c.id).Some? {
        ReapTurn(all, |front|, exits(c.id).value, next, os);
        var status := exits(c.id).value;
        ReapSafe(front, rest, exits, next, Finish(ReapChild(os, c.id, c.pid.value, status), c.id, WaitStatusCode(status)));
      } else {
        if c.pid.Some? { ReapTurn(all, |front|, 0, next, os); }
        ReapSafe(front + [c], rest, exits, next, os);
        assert forall s: seq<Client> :: front + [c] + s == front + ([c] + s);
      }
    }
  }

  lemma ShutDownTurn(clients: seq<Client>, i: nat, status: int, next: nat, os: Os)
    requires Inv(clients, next, os, true) && i < |clients|
    ensures Inv(clients[i := clients[i].(pid := None)], next, ShutDownClient(clients[i], status, os), true)
  {
    hide ConnOf, OsOk, ReapChild, WaitStatusCode;
    var c := clients[i];
    if c.pid.Some? {
      ReapKeeps(os, c.id, c.pid.value, status);
      DoKeeps(ReapChild(os, c.id, c.pid.value, status), Respond(c.id, Status(WaitStatusCode(status))));
    }
    AnsweredInv(clients, i, next, os, ShutDownClient(c, status, os));
  }

  lemma {:induction false} ShutdownSafe(front: seq<Client>, todo: seq<Client>, kills: nat -> int, next: nat, os: Os)
    requires Inv(front + todo, next, os, true)
    ensures
      var s := Shutdown(todo, kills, os);
      Inv(front + s.clients, next, s.os, true) && forall j :: 0 <= j < |s.clients| ==> s.clients[j].pid.None?
    decreases |todo|
  {
    hide Inv, ShutDownClient;
    if todo != [] {
      var c, rest := todo[0], todo[1..];
      var all := front + todo;
      assert all[|front|] == c && all[|front| := c.(pid := None)] == front + [c.(pid := None)] + rest;
      ShutDownTurn(all, |front|, kills(c.id), next, os);
      ShutdownSafe(front + [c.(pid := None)], rest, kills, next, ShutDownClient(c, kills(c.id), os));
      assert forall s: seq<Client> :: front + [c.(pid := None)] + s == front + ([c.(pid := None)] + s);
    }
  }

  lemma AcceptedIds(clients: seq<Client>, next: nat, n: nat)
    ensures forall id: nat :: Has(Accept(clients, next, n), id) == (Has(clients, id) || next <= id < next + n)
  {
    var d := Accept(clients, next, n);
    forall id: nat ensures Has(d, id) == (Has(clients, id) || next <= id < next + n) {
      if Has(clients, id) {
        var j :| 0 <= j < |clients| && clients[j].id == id;
        assert d[j].id == id;
      }
      if next <= id < next + n { assert d[|clients| + (id - next)].id == id; }
    }
  }

  lemma AcceptSafe(clients: seq<Client>, next: nat, n: nat, os: Os)
    requires Inv(clients, next, os, false)
    ensures Inv(Accept(clients, next, n), next + n, os, false)
  {
    hide ConnOf, OsOk, Has;
    var d := Accept(clients, next, n);
    AcceptedIds(clients, next, n);
    assert forall j :: 0 <= j < |clients| ==> d[j] == clients[j];
    AcceptedClients(clients, next, n);
    assert PidsExact(d, os.unreaped) by {
      forall pid | pid in os.unreaped ensures exists j :: 0 <= j < |d| && d[j].pid == Some(pid) {
        var j :| 0 <= j < |clients| && clients[j].pid == Some(pid);
        assert d[j].pid == Some(pid);
      }
    }
  }

  /** The new clients have no child, and their ids were not in the vector. */
  lemma AcceptedClients(clients: seq<Client>, next: nat, n: nat)
    requires Ordered(clients, next)
    ensures forall j :: |clients| <= j < |clients| + n ==>
      var c := Accept(clients, next, n)[j]; c.pid.None? && next <= c.id < next + n && !Has(clients, c.id)
    ensures Ordered(Accept(clients, next, n), next + n)
  {
  }

  /** A vector without live pids owns no children. */
  lemma NoPidsNoChildren(clients: seq<Client>, unreaped: set<int>)
    requires PidsExact(clients, unreaped) && forall j :: 0 <= j < |clients| ==> clients[j].pid.None?
    ensures unreaped == {}
  {
    assert forall pid :: pid !in unreaped;
  }

  ghost predicate Safe(w: World) {
    Inv(w.clients, w.next, w.os, w.halted) && (w.halted ==> w.os.unreaped == {})
  }

  lemma StepSafe(w: World, t: Tick)
    requires Safe(w)
    ensures Safe(Step(w, t))
  {
    hide ConnsOk, OsOk, Accept, Service, ReapPass, Shutdown;
    if w.halted || (!t.shutdown && t.interrupted) {
    } else if t.shutdown {
      StoppingInv(w.clients, w.next, w.os);
      assert [] + w.clients == w.clients;
      ShutdownSafe([], w.clients, t.kills, w.next, w.os);
      assert forall s: seq<Client> :: [] + s == s;
      NoPidsNoChildren(Step(w, t).clients, Step(w, t).os.unreaped);
    } else {
      var all := Accept(w.clients, w.next, t.accepted);
      var slots := Slots(t, |w.clients|);
      AcceptSafe(w.clients, w.next, t.accepted, w.os);
      assert forall s: seq<Client> :: [] + s == s;
      ServiceSafe([], all, slots, 0, t.events, w.next + t.accepted, w.os);
      var p := Service(all, slots, 0, t.events, w.os);
      if p.halted {
        ShutdownSafe([], p.clients, t.kills, w.next + t.accepted, p.os);
        NoPidsNoChildren(Step(w, t).clients, Step(w, t).os.unreaped);
      } else {
        ReapSafe([], p.clients, t.exits, w.next + t.accepted, p.os);
      }
    }
  }

  /** Every state the loop can reach, after any ticks, is safe. */
  lemma {:induction false} RunSafe(w: World, ticks: seq<Tick>)
    requires Safe(w)
    ensures Safe(RunTicks(w, ticks))
    decreases |ticks|
  {
    hide Safe;
    if ticks != [] {
      StepSafe(w, ticks[0]);
      RunSafe(Step(w, ticks[0]), ticks[1..]);
    }
  }

  lemma InitialSafe()
    ensures Safe(INITIAL)
  {
  }

  // ----- the promises, for every run -----

  /** Each connection sees OKs, then at most one ERR, BYE or STATUS and nothing
      after it; it is given at most one child and its descriptor is closed at
      most once, which is when it leaves the vector. */
  lemma ResponsesAreOrdered(ticks: seq<Tick>, id: nat)
    ensures
      var w := RunTicks(INITIAL, ticks);
      var conn := ConnOf(w.os.log, id);
      && WellFormed(conn.trace) && conn.forks <= 1
      && conn.closes == (if id < w.next && !Has(w.clients, id) then 1 else 0)
  {
    hide ConnOf, RunTicks, INITIAL, Inv;
    InitialSafe();
    RunSafe(INITIAL, ticks);
    var w := RunTicks(INITIAL, ticks);
    InvPerConnection(w.clients, w.next, w.os, w.halted, id);
  }

  lemma InvPerConnection(clients: seq<Client>, next: nat, os: Os, stopping: bool, id: nat)
    requires Inv(clients, next, os, stopping)
    ensures
      var conn := ConnOf(os.log, id);
      && WellFormed(conn.trace) && conn.honest && conn.forks <= 1
      && conn.closes == (if id < next && !Has(clients, id) then 1 else 0)
  {
    hide ConnOf;
  }

  /** Every STATUS sent on a connection comes after the daemon has reaped the
      child it forked for that connection, and is the code of the status that
      wait gave. */
  lemma StatusIsOfTheOwnChild(ticks: seq<Tick>, k: nat, id: nat, code: int)
    requires
      var log := RunTicks(INITIAL, ticks).os.log;
      k < |log| && log[k] == Respond(id, Status(code))
    ensures
      var log := RunTicks(INITIAL, ticks).os.log;
      exists i, j, pid, status :: 0 <= i < j < k && log[i] == Fork(id, pid) && log[j] == Reap(id, pid, status)
        && code == WaitStatusCode(status)
  {
    hide ConnOf, RunTicks, INITIAL, Inv;
    InitialSafe();
    RunSafe(INITIAL, ticks);
    var w := RunTicks(INITIAL, ticks);
    InvPerConnection(w.clients, w.next, w.os, w.halted, id);
    HonestPrefix(w.os.log, k, id);
    ChildEnded(w.os.log[..k], id);
  }

  /** In an honest log a STATUS was true when it was sent. */
  lemma {:induction false} HonestPrefix(log: seq<Action>, k: nat, id: nat)
    requires ConnOf(log, id).honest && k < |log| && log[k].Respond? && log[k].id == id
    ensures IsTrue(ConnOf(log[..k], id), log[k].response)
    decreases |log|
  {
    var most := log[..|log| - 1];
    if k < |most| {
      HonestPrefix(most, k, id);
      assert most[..k] == log[..k];
    }
  }

  /** The child and the status of a connection are in the log. */
  lemma {:induction false} ChildEnded(log: seq<Action>, id: nat)
    ensures
      var c := ConnOf(log, id);
      && (c.child.Some? ==> exists i :: 0 <= i < |log| && log[i] == Fork(id, c.child.value))
      && (c.ended.Some? ==> c.child.Some? && exists i, j :: (0 <= i < j < |log|
            && log[i] == Fork(id, c.child.value) && log[j] == Reap(id, c.child.value, c.ended.value)))
    decreases |log|
  {
    if log != [] {
      var n := |log| - 1;
      var before, c := ConnOf(log[..n], id), ConnOf(log, id);
      ChildEnded(log[..n], id);
      assert forall i :: 0 <= i < n ==> log[..n][i] == log[i];
      if c.child.Some? && log[n] != Fork(id, c.child.value) {
        var i :| 0 <= i < n && log[..n][i] == Fork(id, before.child.value);
        assert log[i] == Fork(id, c.child.value);
        if c.ended.Some? && log[n] != Reap(id, c.child.value, c.ended.value) {
          var i, j :| 0 <= i < j < n && log[..n][i] == Fork(id, before.child.value)
            && log[..n][j] == Reap(id, before.child.value, before.ended.value);
          assert log[i] == Fork(id, c.child.value) && log[j] == Reap(id, c.child.value, c.ended.value);
        }
      }
    }
  }

  /** Live pids are pairwise distinct and are exactly the unreaped children;
      every fork is of a new pid and every reap of an unreaped one; the daemon
      leaves none behind when it exits. */
  lemma ChildrenAreOwned(ticks: seq<Tick>)
    ensures
      var w := RunTicks(INITIAL, ticks);
      && PidsDistinct(w.clients) && PidsExact(w.clients, Children(w.os.log)) && Alternates(w.os.log)
      && (w.halted ==> Children(w.os.log) == {})
  {
    hide RunTicks, Children, Alternates, ConnsOk, INITIAL;
    InitialSafe();
    RunSafe(INITIAL, ticks);
  }
}
