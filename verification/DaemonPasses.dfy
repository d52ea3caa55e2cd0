/** Which clients the two passes visit, keep and drop. */
module DaemonPasses {
  import opened Wrappers
  import opened DaemonSpec
  import opened DaemonSafety

  // ----- the reap pass -----

  function StillRunning(clients: seq<Client>, exits: nat -> Option<int>): seq<Client> {
    if clients == [] then []
    else if clients[0].pid.Some? && exits(clients[0].id).Some? then StillRunning(clients[1..], exits)
    else [clients[0]] + StillRunning(clients[1..], exits)
  }

  /** The reap pass is exactly a filter on clients whose child has not ended:
      no client is dropped by the branch for a failing waitpid. */
  lemma {:induction false} ReapIsFilter(clients: seq<Client>, exits: nat -> Option<int>, os: Os)
    requires PidsDistinct(clients)
    requires forall i :: 0 <= i < |clients| && clients[i].pid.Some? ==> clients[i].pid.value in os.unreaped
    ensures ReapPass(clients, exits, os).clients == StillRunning(clients, exits)
  {
    hide Finish, WaitStatusCode;
    if clients != [] {
      var c := clients[0];
      var rest := clients[1..];
      assert forall i :: 0 <= i < |rest| ==> rest[i] == clients[i + 1];
      if c.pid.Some? && exits(c.id).Some? {
        var status := exits(c.id).value;
        var os1 := ReapChild(os, c.id, c.pid.value, status);
        FinishLeavesChildren(os1, c.id, WaitStatusCode(status));
        ReapIsFilter(rest, exits, Finish(os1, c.id, WaitStatusCode(status)));
      } else {
        ReapIsFilter(rest, exits, os);
      }
    }
  }

  lemma FinishLeavesChildren(os: Os, id: nat, code: int)
    ensures Finish(os, id, code).unreaped == os.unreaped
  {
  }

  /** In every turn of every run that gets as far as the reap pass, that pass
      is the filter, on the state the service pass of the turn leaves. */
  lemma ReachableReapIsFilter(ticks: seq<Tick>, t: Tick)
    ensures
      var w := RunTicks(INITIAL, ticks);
      var served := Service(Accept(w.clients, w.next, t.accepted), Slots(t, |w.clients|), 0, t.events, w.os);
      !w.halted && !t.shutdown && !t.interrupted && !served.halted ==>
      Step(w, t).clients == StillRunning(served.clients, t.exits)
  {
    hide RunTicks, INITIAL, ConnsOk, OsOk, Ordered, Service, Accept, ReapPass;
    InitialSafe();
    RunSafe(INITIAL, ticks);
    var w := RunTicks(INITIAL, ticks);
    if !w.halted {
      var all := Accept(w.clients, w.next, t.accepted);
      AcceptSafe(w.clients, w.next, t.accepted, w.os);
      assert forall s: seq<Client> :: [] + s == s;
      ServiceSafe([], all, Slots(t, |w.clients|), 0, t.events, w.next + t.accepted, w.os);
      var served := Service(all, Slots(t, |w.clients|), 0, t.events, w.os);
      if !served.halted {
        ReapIsFilter(served.clients, t.exits, served.os);
      }
    }
  }

  // ----- the service pass -----

  /** How often a connection has been read. */
  function Reads(log: seq<Action>, id: nat): nat {
    if log == [] then 0 else Reads(log[..|log| - 1], id) + if log[|log| - 1].Recv? && log[|log| - 1].id == id then 1 else 0
  }

  lemma ReadsGrows(os: Os, a: Action, id: nat)
    ensures Reads(os.Do(a).log, id) == Reads(os.log, id) + if a.Recv? && a.id == id then 1 else 0
  {
    assert os.Do(a).log[..|os.log|] == os.log;
  }

  lemma VisitReads(c: Client, ev: Event, os: Os, id: nat)
    ensures Reads(Visit(c, ev, os).1.log, id) == Reads(os.log, id) + if c.id == id then 1 else 0
    ensures Visit(c, ev, os).0.Keep? ==> Visit(c, ev, os).0.client.id == c.id
  {
    hide Reads;
    var os1 := os.Do(Recv(c.id, HeardFrom(c, ev)));
    ReadsGrows(os, Recv(c.id, HeardFrom(c, ev)), id);
    if c.pid.Some? {
      var os2 := KillChild(os1, c.id, c.pid.value, ev.killStatus).1;
      ReadsGrows(os1.(unreaped := os1.unreaped - {c.pid.value}), Reap(c.id, c.pid.value, ev.killStatus), id);
      ReadsGrows(os2, Close(c.id), id);
    } else {
      ReadsGrows(os1, Respond(c.id, Ok), id);
      ReadsGrows(os1, Respond(c.id, Bye), id);
      RefuseReads(os1, c.id, id);
      if ev.command.Run? {
        var p := ev.command.offeredPid;
        ReadsGrows(os1.(unreaped := os1.unreaped + {p}), Fork(c.id, p), id);
      }
    }
  }

  lemma RefuseReads(os: Os, c: nat, id: nat)
    ensures Reads(Refuse(os, c).log, id) == Reads(os.log, id)
  {
    hide Reads;
    ReadsGrows(os, Respond(c, Err), id);
    ReadsGrows(os.Do(Respond(c, Err)), Close(c), id);
  }

  /** What the connection's being read drops it on: its peer is gone while its
      child runs, its request is refused, or its fork fails, which it does when
      the pid on offer is not positive or is that of an unreaped child. */
  predicate Leaves(c: Client, ev: Event, unreaped: set<int>) {
    if c.pid.Some? then ev.dead
    else match ev.command
      case Ping => false
      case Stop => false
      case Partial => false
      case Run(offered) => offered <= 0 || offered in unreaped
      case _ => true
  }

  predicate Stops(c: Client, ev: Event) {
    c.pid.None? && ev.command.Stop?
  }

  lemma VisitOutcome(c: Client, ev: Event, os: Os)
    ensures Visit(c, ev, os).0.Drop? <==> Leaves(c, ev, os.unreaped)
    ensures Visit(c, ev, os).0.Halt? <==> Stops(c, ev)
    ensures Visit(c, ev, os).0.Keep? ==> Visit(c, ev, os).0.client.id == c.id
  {
  }

  /** How many of the first j clients are still there after the pass. */
  ghost function Staying(todo: seq<Client>, after: seq<Client>, j: nat): nat
    requires j <= |todo|
  {
    if j == 0 then 0 else Staying(todo, after, j - 1) + if Has(after, todo[j - 1].id) then 1 else 0
  }

  /** Client j is looked up under the slot numbered by the clients ahead of it
      that stay, and that slot was polled and is ready. */
  ghost predicate Looked(todo: seq<Client>, after: seq<Client>, slots: seq<bool>, i: nat, j: nat)
    requires j <= |todo|
  {
    var slot := i + Staying(todo, after, j);
    slot < |slots| && slots[slot]
  }

  /** A client ahead of client j asks for STOP and is heard. */
  ghost predicate StopAhead(todo: seq<Client>, after: seq<Client>, slots: seq<bool>, i: nat, events: nat -> Event, j: nat)
    requires j <= |todo|
  {
    exists m :: 0 <= m < j && Stops(todo[m], events(todo[m].id)) && Looked(todo, after, slots, i, m)
  }

  ghost predicate IdsIncrease(clients: seq<Client>) {
    forall i, j :: 0 <= i < j < |clients| ==> clients[i].id < clients[j].id
  }

  /** The slot and the system state at client j's turn; None if the pass ends
      before it. */
  function Turn(todo: seq<Client>, slots: seq<bool>, i: nat, events: nat -> Event, os: Os, j: nat): (r: Option<(nat, Os)>)
    requires j < |todo|
    ensures r.Some? ==> i <= r.value.0 <= i + j && r.value.0 < |slots|
    decreases |todo|
  {
    if i >= |slots| then None
    else if j == 0 then Some((i, os))
    else if !slots[i] then Turn(todo[1..], slots, i + 1, events, os, j - 1)
    else
      var (outcome, os') := Visit(todo[0], events(todo[0].id), os);
      match outcome
      case Keep(_) => Turn(todo[1..], slots, i + 1, events, os', j - 1)
      case Drop => Turn(todo[1..], slots, i, events, os', j - 1)
      case Halt => None
  }

  lemma {:induction false} ServiceIds(todo: seq<Client>, slots: seq<bool>, i: nat, events: nat -> Event, os: Os)
    ensures forall id: nat :: Has(Service(todo, slots, i, events, os).clients, id) ==> Has(todo, id)
    decreases |todo|
  {
    hide Visit, Leaves, Stops;
    if todo != [] && i < |slots| {
      var c, rest := todo[0], todo[1..];
      VisitOutcome(c, events(c.id), os);
      var (outcome, os') := Visit(c, events(c.id), os);
      var next := if slots[i] && outcome.Drop? then i else i + 1;
      var os1 := if slots[i] then os' else os;
      ServiceIds(rest, slots, next, events, os1);
      HasFront(c, rest);
      HasFront(c, Service(rest, slots, next, events, os1).clients);
      if outcome.Keep? { HasFront(outcome.client, Service(rest, slots, next, events, os1).clients); }
      assert todo == [c] + rest;
    }
  }

  lemma HasFront(c: Client, rest: seq<Client>)
    ensures forall id: nat :: Has([c] + rest, id) <==> c.id == id || Has(rest, id)
  {
    forall id: nat
      ensures Has([c] + rest, id) <==> c.id == id || Has(rest, id)
    {
      assert ([c] + rest)[0] == c;
      if Has(rest, id) {
        var k :| 0 <= k < |rest| && rest[k].id == id;
        assert ([c] + rest)[k + 1].id == id;
      }
    }
  }

  /** The number of staying clients, the first one counted apart. */
  lemma {:induction false} StayingFront(todo: seq<Client>, after: seq<Client>, restAfter: seq<Client>, j: nat)
    requires todo != [] && IdsIncrease(todo) && j < |todo|
    requires forall id: nat :: id != todo[0].id ==> (Has(after, id) <==> Has(restAfter, id))
    ensures Staying(todo, after, j + 1) ==
      (if Has(after, todo[0].id) then 1 else 0) + Staying(todo[1..], restAfter, j)
  {
    hide Has;
    if j > 0 {
      StayingFront(todo, after, restAfter, j - 1);
      assert todo[1..][j - 1] == todo[j];
    } else {
      assert Staying(todo, after, 0) == 0;
    }
  }

  /** What is left of a client after its turn. */
  function KeptOf(c: Client, ready: bool, ev: Event, os: Os): seq<Client> {
    if !ready then [c]
    else match Visit(c, ev, os).0 case Keep(c') => [c'] case Drop => [] case Halt => [c]
  }

  /** One client taken off the front of the pass: what the rest of the pass is,
      and that nothing but this client tells the two vectors apart. */
  lemma PassFront(todo: seq<Client>, slots: seq<bool>, i: nat, events: nat -> Event, os: Os)
    returns (i': nat, os': Os)
    requires todo != [] && IdsIncrease(todo) && i < |slots|
    requires slots[i] ==> !Stops(todo[0], events(todo[0].id))
    ensures
      var c, rest := todo[0], todo[1..];
      var after, restAfter := Service(todo, slots, i, events, os).clients, Service(rest, slots, i', events, os').clients;
      var dropped := slots[i] && Leaves(c, events(c.id), os.unreaped);
      && IdsIncrease(rest) && i' == (if dropped then i else i + 1)
      && after == KeptOf(c, slots[i], events(c.id), os) + restAfter
      && |KeptOf(c, slots[i], events(c.id), os)| == i' - i
      && os' == (if slots[i] then Visit(c, events(c.id), os).1 else os)
      && (Has(after, c.id) <==> !dropped)
      && (forall id: nat :: id != c.id ==> (Has(after, id) <==> Has(restAfter, id)))
      && (forall j: nat :: 0 < j < |todo| ==>
            Turn(todo, slots, i, events, os, j) == Turn(rest, slots, i', events, os', j - 1))
  {
    hide Visit, Leaves, Stops;
    var c, rest := todo[0], todo[1..];
    VisitOutcome(c, events(c.id), os);
    var outcome := Visit(c, events(c.id), os).0;
    i' := if slots[i] && outcome.Drop? then i else i + 1;
    os' := if slots[i] then Visit(c, events(c.id), os).1 else os;
    ServiceIds(rest, slots, i', events, os');
    var restAfter := Service(rest, slots, i', events, os').clients;
    HasFront(c, restAfter);
    if outcome.Keep? { HasFront(outcome.client, restAfter); }
    assert !Has(rest, c.id);
  }

  /** The pass ends before client j exactly when a STOP ahead of it is heard or
      the clients ahead that stay use up the polled slots; otherwise its slot is
      their number. */
  lemma {:induction false} TurnExactly(todo: seq<Client>, slots: seq<bool>, i: nat, events: nat -> Event, os: Os, j: nat)
    requires IdsIncrease(todo) && j < |todo|
    ensures
      var after := Service(todo, slots, i, events, os).clients;
      var turn := Turn(todo, slots, i, events, os, j);
      && (turn.Some? ==> turn.value.0 == i + Staying(todo, after, j))
      && (turn.None? <==> StopAhead(todo, after, slots, i, events, j) || i + Staying(todo, after, j) >= |slots|)
    decreases |todo|
  {
    hide Visit, Leaves, Has, IdsIncrease, Service;
    var c := todo[0];
    var after := Service(todo, slots, i, events, os).clients;
    if i < |slots| && j > 0 {
      assert Staying(todo, after, 0) == 0;
      if slots[i] && Stops(c, events(c.id)) {
        VisitOutcome(c, events(c.id), os);
        assert Looked(todo, after, slots, i, 0);
      } else {
        var i', os' := PassFront(todo, slots, i, events, os);
        var rest := todo[1..];
        var restAfter := Service(rest, slots, i', events, os').clients;
        TurnExactly(rest, slots, i', events, os', j - 1);
        StayingFront(todo, after, restAfter, j - 1);
        StopFront(todo, after, restAfter, slots, i, i', events, j);
      }
    }
  }

  lemma StopFront(todo: seq<Client>, after: seq<Client>, restAfter: seq<Client>, slots: seq<bool>, i: nat, i': nat,
                  events: nat -> Event, j: nat)
    requires todo != [] && IdsIncrease(todo) && 0 < j < |todo| && i < |slots|
    requires slots[i] ==> !Stops(todo[0], events(todo[0].id))
    requires forall id: nat :: id != todo[0].id ==> (Has(after, id) <==> Has(restAfter, id))
    requires i' == if Has(after, todo[0].id) then i + 1 else i
    ensures StopAhead(todo, after, slots, i, events, j) <==> StopAhead(todo[1..], restAfter, slots, i', events, j - 1)
  {
    hide Has, Stops, IdsIncrease;
    var rest := todo[1..];
    forall m: nat | m < |rest|
      ensures Looked(todo, after, slots, i, m + 1) <==> Looked(rest, restAfter, slots, i', m)
    {
      StayingFront(todo, after, restAfter, m);
    }
    hide Looked, Staying;
    if StopAhead(todo, after, slots, i, events, j) {
      var m :| 0 <= m < j && Stops(todo[m], events(todo[m].id)) && Looked(todo, after, slots, i, m);
      if m == 0 {
        LookedFirst(todo, after, slots, i);
      }
      assert rest[m - 1] == todo[m] && Looked(rest, restAfter, slots, i', m - 1);
    }
    if StopAhead(rest, restAfter, slots, i', events, j - 1) {
      var m :| 0 <= m < j - 1 && Stops(rest[m], events(rest[m].id)) && Looked(rest, restAfter, slots, i', m);
      assert todo[m + 1] == rest[m] && Looked(todo, after, slots, i, m + 1);
    }
  }

  lemma LookedFirst(todo: seq<Client>, after: seq<Client>, slots: seq<bool>, i: nat)
    ensures Looked(todo, after, slots, i, 0) <==> i < |slots| && slots[i]
  {
  }

  /** A connection outside the vector is never read. */
  lemma {:induction false} OthersNotRead(todo: seq<Client>, slots: seq<bool>, i: nat, events: nat -> Event, os: Os, id: nat)
    requires forall k :: 0 <= k < |todo| ==> todo[k].id != id
    ensures Reads(Service(todo, slots, i, events, os).os.log, id) == Reads(os.log, id)
    decreases |todo|
  {
    hide Reads, Visit;
    if todo != [] && i < |slots| {
      if !slots[i] {
        OthersNotRead(todo[1..], slots, i + 1, events, os, id);
      } else {
        var (outcome, os') := Visit(todo[0], events(todo[0].id), os);
        VisitReads(todo[0], events(todo[0].id), os, id);
        match outcome
        case Keep(_) => OthersNotRead(todo[1..], slots, i + 1, events, os', id);
        case Drop => OthersNotRead(todo[1..], slots, i, events, os', id);
        case Halt =>
      }
    }
  }

  lemma {:induction false} ReadAtTurn(todo: seq<Client>, slots: seq<bool>, i: nat, events: nat -> Event, os: Os, j: nat)
    requires IdsIncrease(todo) && j < |todo|
    ensures
      var turn := Turn(todo, slots, i, events, os, j);
      Reads(Service(todo, slots, i, events, os).os.log, todo[j].id) ==
      Reads(os.log, todo[j].id) + if turn.Some? && slots[turn.value.0] then 1 else 0
    decreases |todo|
  {
    hide Reads, Visit;
    var id := todo[j].id;
    if i < |slots| {
      var rest := todo[1..];
      assert forall k :: 0 <= k < |rest| ==> rest[k] == todo[k + 1];
      assert j > 0 ==> rest[j - 1].id == id && todo[0].id != id;
      var (outcome, os') := Visit(todo[0], events(todo[0].id), os);
      VisitReads(todo[0], events(todo[0].id), os, id);
      if j == 0 {
        if !slots[i] { OthersNotRead(rest, slots, i + 1, events, os, id); }
        else if outcome.Keep? { OthersNotRead(rest, slots, i + 1, events, os', id); }
        else if outcome.Drop? { OthersNotRead(rest, slots, i, events, os', id); }
      } else {
        if !slots[i] { ReadAtTurn(rest, slots, i + 1, events, os, j - 1); }
        else if outcome.Keep? { ReadAtTurn(rest, slots, i + 1, events, os', j - 1); }
        else if outcome.Drop? { ReadAtTurn(rest, slots, i, events, os', j - 1); }
      }
    }
  }

  /** In a pass client j is read once if no STOP ahead of it is heard and the
      slot numbered by the clients ahead of it that stay was polled and is
      ready, and not at all otherwise. */
  lemma ReadExactly(clients: seq<Client>, slots: seq<bool>, events: nat -> Event, os: Os, j: nat)
    requires IdsIncrease(clients) && j < |clients|
    ensures
      var p := Service(clients, slots, 0, events, os);
      Reads(p.os.log, clients[j].id) == Reads(os.log, clients[j].id) +
      if !StopAhead(clients, p.clients, slots, 0, events, j) && Looked(clients, p.clients, slots, 0, j) then 1 else 0
  {
    hide Reads, Service, Turn, StopAhead, Staying;
    ReadAtTurn(clients, slots, 0, events, os, j);
    TurnExactly(clients, slots, 0, events, os, j);
  }

  /** The pids of a vector. */
  function Pids(clients: seq<Client>): set<int> {
    set i | 0 <= i < |clients| && clients[i].pid.Some? :: clients[i].pid.value
  }

  /** The vector after client |front|'s turn: kept is what is left of it. */
  lemma TurnKeepsInv(front: seq<Client>, todo: seq<Client>, kept: seq<Client>, ready: bool, ev: Event, next: nat, os: Os)
    requires Inv(front + todo, next, os, false) && todo != []
    requires ready ==> !Stops(todo[0], ev)
    requires kept == KeptOf(todo[0], ready, ev, os)
    ensures Inv(front + kept + todo[1..], next, if ready then Visit(todo[0], ev, os).1 else os, false)
  {
    hide Inv, Visit, Stops, Leaves;
    var all := front + todo;
    assert all[|front|] == todo[0] && all == front + [todo[0]] + todo[1..];
    VisitOutcome(todo[0], ev, os);
    ServiceTurn(all, |front|, ev, next, os);
    if ready {
      match Visit(todo[0], ev, os).0
      case Keep(c) => assert all[|front| := c] == front + [c] + todo[1..];
      case Drop => assert all[..|front|] + all[|front| + 1..] == front + [] + todo[1..];
      case Halt =>
    }
  }

  /** At client j's turn the unreaped children are those of the clients kept
      ahead of it and of the clients from it on. */
  lemma {:induction false} TurnChildren(front: seq<Client>, todo: seq<Client>, slots: seq<bool>, i: nat,
                                        events: nat -> Event, next: nat, os: Os, j: nat)
    requires Inv(front + todo, next, os, false) && IdsIncrease(todo) && j < |todo|
    ensures
      var after := Service(todo, slots, i, events, os).clients;
      var turn := Turn(todo, slots, i, events, os, j);
      turn.Some? ==>
        var ahead := turn.value.0 - i;
        ahead <= |after| && PidsExact(front + after[..ahead] + todo[j..], turn.value.1.unreaped)
    decreases |todo|
  {
    hide Inv, Visit, PidsExact, Service, Stops, IdsIncrease, KeptOf;
    var after := Service(todo, slots, i, events, os).clients;
    var c := todo[0];
    if i >= |slots| || j == 0 {
      assert front + after[..0] + todo[0..] == front + todo;
      InvPids(front + todo, next, os);
    } else if slots[i] && Stops(c, events(c.id)) {
      VisitOutcome(c, events(c.id), os);
    } else {
      var i', os' := PassFront(todo, slots, i, events, os);
      hide Turn;
      var kept := KeptOf(c, slots[i], events(c.id), os);
      TurnKeepsInv(front, todo, kept, slots[i], events(c.id), next, os);
      TurnChildren(front + kept, todo[1..], slots, i', events, next, os', j - 1);
      var turn := Turn(todo, slots, i, events, os, j);
      if turn.Some? {
        var restAfter := Service(todo[1..], slots, i', events, os').clients;
        var ahead := turn.value.0 - i';
        assert after[..ahead + |kept|] == kept + restAfter[..ahead];
        assert front + after[..ahead + |kept|] + todo[j..] == front + kept + restAfter[..ahead] + todo[1..][j - 1..];
      }
    }
  }

  lemma InvPids(clients: seq<Client>, next: nat, os: Os)
    requires Inv(clients, next, os, false)
    ensures PidsExact(clients, os.unreaped) && IdsIncrease(clients)
  {
    hide OsOk, ConnsOk, PidsExact;
  }

  lemma PidsExactly(clients: seq<Client>, unreaped: set<int>)
    requires PidsExact(clients, unreaped)
    ensures unreaped == Pids(clients)
  {
    forall pid | pid in unreaped
      ensures pid in Pids(clients)
    {
      var i :| 0 <= i < |clients| && clients[i].pid == Some(pid);
    }
  }

  /** Client j stays unless it is dropped at its turn. */
  lemma {:induction false} StaysAtTurn(todo: seq<Client>, slots: seq<bool>, i: nat, events: nat -> Event, os: Os, j: nat)
    requires IdsIncrease(todo) && j < |todo|
    ensures
      var turn := Turn(todo, slots, i, events, os, j);
      Has(Service(todo, slots, i, events, os).clients, todo[j].id) <==>
      !(turn.Some? && slots[turn.value.0] && Leaves(todo[j], events(todo[j].id), turn.value.1.unreaped))
    decreases |todo|
  {
    hide Visit, Has, IdsIncrease;
    var c := todo[0];
    if i >= |slots| || (slots[i] && Stops(c, events(c.id))) {
      VisitOutcome(c, events(c.id), os);
      HasAt(todo, j);
    } else {
      var i', os' := PassFront(todo, slots, i, events, os);
      if j > 0 {
        StaysAtTurn(todo[1..], slots, i', events, os', j - 1);
        Apart(todo, j);
      }
    }
  }

  lemma HasAt(clients: seq<Client>, j: nat)
    requires j < |clients|
    ensures Has(clients, clients[j].id)
  {
  }

  lemma Apart(clients: seq<Client>, j: nat)
    requires IdsIncrease(clients) && 0 < j < |clients|
    ensures clients[j].id != clients[0].id && clients[1..][j - 1] == clients[j]
  {
  }

  /** A client leaves the vector in the service pass exactly when it is read and
      the test for leaving holds, the unreaped children being those of the
      clients that stay ahead of it and of the clients from it on. */
  lemma StaysExactly(clients: seq<Client>, next: nat, slots: seq<bool>, events: nat -> Event, os: Os, j: nat)
    requires Inv(clients, next, os, false) && j < |clients|
    ensures
      var after := Service(clients, slots, 0, events, os).clients;
      var ahead := Staying(clients, after, j);
      Has(after, clients[j].id) <==>
      !(!StopAhead(clients, after, slots, 0, events, j) && Looked(clients, after, slots, 0, j)
        && ahead <= |after| && Leaves(clients[j], events(clients[j].id), Pids(after[..ahead] + clients[j..])))
  {
    hide Service, Turn, StopAhead, Staying, Has, Leaves, Inv, PidsExact;
    InvPids(clients, next, os);
    hide IdsIncrease;
    TurnExactly(clients, slots, 0, events, os, j);
    StaysAtTurn(clients, slots, 0, events, os, j);
    assert [] + clients == clients;
    TurnChildren([], clients, slots, 0, events, next, os, j);
    var turn := Turn(clients, slots, 0, events, os, j);
    if turn.Some? {
      var after := Service(clients, slots, 0, events, os).clients;
      var kept := turn.value.0;
      assert [] + after[..kept] + clients[j..] == after[..kept] + clients[j..];
      PidsExactly(after[..kept] + clients[j..], turn.value.1.unreaped);
      assert kept == Staying(clients, after, j) && Looked(clients, after, slots, 0, j) == slots[kept];
      assert Has(after, clients[j].id) <==> !(slots[kept] && Leaves(clients[j], events(clients[j].id), turn.value.1.unreaped));
      assert turn.value.1.unreaped == Pids(after[..kept] + clients[j..]);
    }
  }

  /** A connection taken by the accept loop of this tick is read in this tick
      exactly when no STOP ahead of it is heard, fewer clients stay ahead of it
      than were polled, and the poll result of that number is ready. */
  lemma NewConnectionRead(clients: seq<Client>, next: nat, t: Tick, os: Os, k: nat)
    requires Ordered(clients, next) && k < t.accepted
    ensures
      var all := Accept(clients, next, t.accepted);
      var slots := Slots(t, |clients|);
      var p := Service(all, slots, 0, t.events, os);
      var ahead := Staying(all, p.clients, |clients| + k);
      Reads(p.os.log, next + k) == Reads(os.log, next + k) +
      if !StopAhead(all, p.clients, slots, 0, t.events, |clients| + k) && ahead < |clients| && t.ready(ahead) then 1 else 0
  {
    hide Reads, Service, StopAhead, Staying;
    AcceptedClients(clients, next, t.accepted);
    var all := Accept(clients, next, t.accepted);
    assert all[|clients| + k].id == next + k;
    ReadExactly(all, Slots(t, |clients|), t.events, os, |clients| + k);
  }

  lemma {:induction false} AllStay(todo: seq<Client>, after: seq<Client>, n: nat, j: nat)
    requires n <= j <= |todo| && forall k :: 0 <= k < n ==> Has(after, todo[k].id)
    ensures Staying(todo, after, j) >= n
  {
    hide Has;
    if j > n {
      AllStay(todo, after, n, j - 1);
    } else if j > 0 {
      AllStay(todo, after, n - 1, j - 1);
    }
  }

  /** In a tick that drops none of the connections polled, the new ones wait. */
  lemma NewConnectionsWait(clients: seq<Client>, next: nat, t: Tick, os: Os, k: nat)
    requires Ordered(clients, next) && k < t.accepted
    ensures
      var p := Service(Accept(clients, next, t.accepted), Slots(t, |clients|), 0, t.events, os);
      (forall i :: 0 <= i < |clients| ==> Has(p.clients, clients[i].id)) ==>
      Reads(p.os.log, next + k) == Reads(os.log, next + k)
  {
    hide Reads, Service, StopAhead, Staying, Has;
    NewConnectionRead(clients, next, t, os, k);
    var all := Accept(clients, next, t.accepted);
    var after := Service(all, Slots(t, |clients|), 0, t.events, os).clients;
    if forall i :: 0 <= i < |clients| ==> Has(after, clients[i].id) {
      AllStay(all, after, |clients|, |clients| + k);
    }
  }

  function EofThenPing(id: nat): Event {
    Event(false, 0, if id == 0 then Eof else Ping)
  }

  const EOF_AND_ACCEPT: Tick := Tick(false, false, i => true, 1, EofThenPing, id => None, id => 0)

  /** The comment above the accept loop says a new connection waits for the
      next tick. With one polled client at end of file and one new connection,
      the new one is read and answered in the same tick. */
  lemma NewConnectionMayNotWait()
    ensures Step(World([Client(0, None)], 1, Os({}, []), false), EOF_AND_ACCEPT).os.log ==
      [Recv(0, Asked(Eof)), Respond(0, Err), Close(0), Recv(1, Asked(Ping)), Respond(1, Ok)]
  {
    var os, t := Os({}, []), EOF_AND_ACCEPT;
    var all := Accept([Client(0, None)], 1, 1);
    assert all == [Client(0, None), Client(1, None)];
    var slots := Slots(t, 1);
    var os1 := Visit(all[0], t.events(0), os).1;
    assert os1.log == [Recv(0, Asked(Eof)), Respond(0, Err), Close(0)];
    assert all[1..] == [Client(1, None)];
    var os2 := Visit(all[1], t.events(1), os1).1;
    assert os2.log == [Recv(0, Asked(Eof)), Respond(0, Err), Close(0), Recv(1, Asked(Ping)), Respond(1, Ok)];
    assert Service(all[1..], slots, 0, t.events, os1) == Pass([Client(1, None)], os2, false);
    assert Service(all, slots, 0, t.events, os) == Pass([Client(1, None)], os2, false);
  }
}
