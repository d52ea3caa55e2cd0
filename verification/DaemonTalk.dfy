/** What each connection is told, on every run of the accept loop. */
module DaemonTalk {
  import opened Wrappers
  import opened DaemonSpec
  import opened DaemonSafety

  /** Nothing is due: the connection may ask, its child runs, it has had its last
      response, or it is closed. */
  predicate Settled(phase: Phase) {
    phase.Idle? || phase.Busy? || phase.Told? || phase.Closed?
  }

  function PhaseOf(log: seq<Action>, id: nat): Phase {
    ConnOf(log, id).phase
  }

  /** After every run the daemon owes no connection anything, and has kept to
      the protocol with each: a client with a child is at that child, one
      without may ask or, once the daemon has halted, has had its last response,
      and a connection that has left the vector is closed. */
  lemma ProtocolKept(ticks: seq<Tick>, id: nat)
    ensures
      var w := RunTicks(INITIAL, ticks);
      var phase := PhaseOf(w.os.log, id);
      && (id >= w.next ==> phase.Idle?)
      && (id < w.next && !Has(w.clients, id) ==> phase.Closed?)
      && forall i :: 0 <= i < |w.clients| && w.clients[i].id == id ==>
           match w.clients[i].pid
           case Some(pid) => phase == Busy(pid)
           case None => phase.Idle? || (w.halted && phase.Told?)
  {
    hide ConnOf, RunTicks, INITIAL;
    InitialSafe();
    RunSafe(INITIAL, ticks);
    var w := RunTicks(INITIAL, ticks);
    IdsBelow(w.clients, w.next);
  }

  lemma IdsBelow(clients: seq<Client>, next: nat)
    requires Ordered(clients, next)
    ensures forall id: nat :: Has(clients, id) ==> id < next
  {
  }

  /** When the daemon has halted, every connection still in the vector that was
      given a child has been told its status, as its last response. */
  lemma EveryChildIsTold(ticks: seq<Tick>, i: nat)
    requires var w := RunTicks(INITIAL, ticks); w.halted && i < |w.clients|
    ensures
      var w := RunTicks(INITIAL, ticks);
      var conn := ConnOf(w.os.log, w.clients[i].id);
      conn.forks == 1 ==> conn.trace != [] && conn.trace[|conn.trace| - 1].Status?
  {
    hide ConnOf, RunTicks, INITIAL;
    InitialSafe();
    RunSafe(INITIAL, ticks);
    var w := RunTicks(INITIAL, ticks);
    NoPids(w.clients, w.os.unreaped);
    assert LiveOk(w.clients[i], ConnOf(w.os.log, w.clients[i].id), true);
  }

  lemma NoPids(clients: seq<Client>, unreaped: set<int>)
    requires PidsExact(clients, unreaped) && unreaped == {}
    ensures forall i :: 0 <= i < |clients| ==> clients[i].pid.None?
  {
  }

  // ----- one action and the next on the same connection -----

  lemma PhaseGrows(log: seq<Action>, m: nat, id: nat)
    requires m < |log|
    ensures PhaseOf(log[..m + 1], id) ==
      if log[m].id == id then AfterAct(PhaseOf(log[..m], id), log[m]) else PhaseOf(log[..m], id)
  {
    assert log[..m + 1][..m] == log[..m];
  }

  lemma {:induction false} AstrayStays(log: seq<Action>, m: nat, id: nat)
    requires m <= |log| && PhaseOf(log[..m], id).Astray?
    ensures PhaseOf(log, id).Astray?
    decreases |log| - m
  {
    if m == |log| {
      assert log[..m] == log;
    } else {
      PhaseGrows(log, m, id);
      AstrayStays(log, m + 1, id);
    }
  }

  /** Log position m holds the next action on the connection from j on. */
  predicate NextOn(log: seq<Action>, j: nat, m: nat, id: nat) {
    j <= m < |log| && log[m].id == id && forall i :: j <= i < m ==> log[i].id != id
  }

  lemma NeverAstray(log: seq<Action>, j: nat, id: nat)
    requires j <= |log| && Settled(PhaseOf(log, id))
    ensures !PhaseOf(log[..j], id).Astray?
  {
    if PhaseOf(log[..j], id).Astray? { AstrayStays(log, j, id); }
  }

  /** What was due at j has been done next. */
  lemma {:induction false} DueIsDone(log: seq<Action>, j: nat, id: nat) returns (m: nat)
    requires j <= |log| && !Settled(PhaseOf(log[..j], id)) && Settled(PhaseOf(log, id))
    ensures NextOn(log, j, m, id) && !AfterAct(PhaseOf(log[..j], id), log[m]).Astray?
    decreases |log| - j
  {
    hide ConnOf;
    assert log[..|log|] == log;
    PhaseGrows(log, j, id);
    if log[j].id == id {
      m := j;
      NeverAstray(log, j + 1, id);
    } else {
      m := DueIsDone(log, j + 1, id);
    }
  }

  lemma AlwaysSettled(ticks: seq<Tick>, id: nat)
    ensures Settled(PhaseOf(RunTicks(INITIAL, ticks).os.log, id))
  {
    hide RunTicks, INITIAL, PhaseOf;
    ProtocolKept(ticks, id);
    var w := RunTicks(INITIAL, ticks);
    if Has(w.clients, id) {
      var i :| 0 <= i < |w.clients| && w.clients[i].id == id;
    }
  }

  /** Every command read is answered by the next action on its connection: PING
      by OK, STOP by BYE, a request to run by a child or ERR, and whatever is
      no complete command by ERR, except that an incomplete one waits. */
  predicate Answers(command: Command, a: Action) {
    match command
    case Ping => a == Respond(a.id, Ok)
    case Stop => a == Respond(a.id, Bye)
    case Run(_) => a.Fork? || a == Respond(a.id, Err)
    case Partial => true
    case _ => a == Respond(a.id, Err)
  }

  lemma CommandsAreAnswered(ticks: seq<Tick>, k: nat, id: nat, command: Command)
    requires
      var log := RunTicks(INITIAL, ticks).os.log;
      k < |log| && log[k] == Recv(id, Asked(command)) && !command.Partial?
    ensures
      var log := RunTicks(INITIAL, ticks).os.log;
      exists m: nat :: NextOn(log, k + 1, m, id) && Answers(command, log[m])
  {
    hide RunTicks, INITIAL;
    var log := RunTicks(INITIAL, ticks).os.log;
    AlwaysSettled(ticks, id);
    PhaseGrows(log, k, id);
    hide PhaseOf;
    NeverAstray(log, k + 1, id);
    var m := DueIsDone(log, k + 1, id);
  }

  /** The last action on the connection before k found that its peer is gone. */
  predicate PeerGone(log: seq<Action>, k: nat, id: nat)
    requires k <= |log|
  {
    exists h :: 0 <= h < k && log[h] == Recv(id, Hangup) && forall i :: h < i < k ==> log[i].id != id
  }

  lemma {:induction false} OrphanedExactly(log: seq<Action>, k: nat, id: nat)
    requires k <= |log| && !PhaseOf(log[..k], id).Astray?
    ensures PhaseOf(log[..k], id).Orphaned? <==> PeerGone(log, k, id)
    decreases k
  {
    hide ConnOf;
    if k == 0 {
      NothingSeen(log[..0], id);
    } else {
      PhaseGrows(log, k - 1, id);
      if log[k - 1].id == id {
        assert PeerGone(log, k, id) <==> log[k - 1] == Recv(id, Hangup);
      } else {
        OrphanedExactly(log, k - 1, id);
        assert PeerGone(log, k, id) <==> PeerGone(log, k - 1, id);
      }
    }
  }

  lemma NothingSeen(log: seq<Action>, id: nat)
    requires log == []
    ensures PhaseOf(log, id).Idle?
  {
  }

  /** The next action on a connection whose child has been reaped tells it the
      child's status; only when the read before the reap found that the peer is
      gone is it closed instead. */
  lemma ReapsAreTold(ticks: seq<Tick>, k: nat, id: nat, pid: int, status: int)
    requires
      var log := RunTicks(INITIAL, ticks).os.log;
      k < |log| && log[k] == Reap(id, pid, status)
    ensures
      var log := RunTicks(INITIAL, ticks).os.log;
      exists m: nat :: (NextOn(log, k + 1, m, id) &&
        log[m] == if PeerGone(log, k, id) then Close(id) else Respond(id, Status(WaitStatusCode(status))))
  {
    hide RunTicks, INITIAL, WaitStatusCode;
    var log := RunTicks(INITIAL, ticks).os.log;
    AlwaysSettled(ticks, id);
    PhaseGrows(log, k, id);
    hide PhaseOf;
    NeverAstray(log, k + 1, id);
    NeverAstray(log, k, id);
    OrphanedExactly(log, k, id);
    hide PeerGone;
    var m := DueIsDone(log, k + 1, id);
  }
}
