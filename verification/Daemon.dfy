/** The accept loop of daemon.rs over a vector of clients edited in place. */
module Daemon {
  import opened Wrappers
  import opened DaemonSpec

  class Server {
    var clients: seq<Client>
    var next: nat
    var os: Os

    constructor ()
      ensures clients == [] && next == 0 && os == INITIAL.os
    {
      clients, next, os := [], 0, INITIAL.os;
    }

    function State(halted: bool): World
      reads this
    {
      World(clients, next, os, halted)
    }

    method RemoveAt(i: nat)
      requires i < |clients|
      modifies `clients
      ensures clients == old(clients)[..i] + old(clients)[i + 1..]
    {
      clients := clients[..i] + clients[i + 1..];
    }

    method AcceptAll(n: nat)
      modifies `clients, `next
      ensures clients == Accept(old(clients), old(next), n) && next == old(next) + n
    {
      for k := 0 to n
        invariant clients == Accept(old(clients), old(next), k) && next == old(next) + k
      {
        clients := clients + [Client(next, None)];
        next := next + 1;
      }
    }

    /** One client of the service pass. Returns whether STOP was answered. */
    method ServiceAt(i: nat, events: nat -> Event) returns (advance: bool, stop: bool)
      requires i < |clients|
      modifies `clients, `os
      ensures
        var c := old(clients)[i];
        var (outcome, os') := Visit(c, events(c.id), old(os));
        && os == os'
        && match outcome
           case Keep(c') => clients == old(clients)[i := c'] && advance && !stop
           case Drop => clients == old(clients)[..i] + old(clients)[i + 1..] && !advance && !stop
           case Halt => clients == old(clients) && stop
    {
      var c := clients[i];
      var ev := events(c.id);
      advance, stop := true, false;
      os := os.Do(Recv(c.id, HeardFrom(c, ev)));
      if c.pid.Some? {
        if ev.dead {
          clients := clients[i := c.(pid := None)];
          os := KillChild(os, c.id, c.pid.value, ev.killStatus).1;
          os := os.Do(Close(c.id));
          RemoveAt(i);
          advance := false;
        }
        return;
      }
      match ev.command {
        case Ping => os := os.Do(Respond(c.id, Ok));
        case Stop =>
          os := os.Do(Respond(c.id, Bye));
          stop := true;
        case Run(offered) =>
          var (pid, os') := ForkChild(os, c.id, offered);
          os := os';
          if pid.None? {
            os := Refuse(os, c.id);
            RemoveAt(i);
            advance := false;
          } else {
            clients := clients[i := c.(pid := pid)];
          }
        case Partial =>
        case _ =>
          os := Refuse(os, c.id);
          RemoveAt(i);
          advance := false;
      }
    }

    /** The pass over the connections that were polled; slots are the poll
        results, stale after the first removal. */
    method ServicePass(slots: seq<bool>, events: nat -> Event) returns (stop: bool)
      modifies `clients, `os
      ensures Pass(clients, os, stop) == Service(old(clients), slots, 0, events, old(os))
    {
      hide Visit, Service;
      stop := false;
      var i := 0;
      ghost var goal := Service(clients, slots, 0, events, os);
      assert clients[0..] == clients;
      while i < |slots| && i < |clients|
        invariant 0 <= i <= |clients|
        invariant goal == After(clients[..i], Service(clients[i..], slots, i, events, os))
        decreases |clients| - i
      {
        ServiceUnfolds(clients, slots, i, events, os);
        if !slots[i] {
          i := i + 1;
        } else {
          var advance, halt := ServiceAt(i, events);
          if halt {
            stop := true;
            return;
          }
          if advance { i := i + 1; }
        }
      }
      ServiceEnds(clients[i..], slots, i, events, os);
    }

    /** The pass over children that have ended. */
    method ReapChildren(exits: nat -> Option<int>)
      modifies `clients, `os
      ensures Swept(clients, os) == ReapPass(old(clients), exits, old(os))
    {
      hide ReapPass;
      var i := 0;
      ghost var goal := ReapPass(clients, exits, os);
      assert clients[0..] == clients;
      while i < |clients|
        invariant 0 <= i <= |clients|
        invariant goal == Behind(clients[..i], ReapPass(clients[i..], exits, os))
        decreases |clients| - i
      {
        ReapUnfolds(clients, i, exits, os);
        var c := clients[i];
        if c.pid.Some? {
          var (r, os') := WaitNoHang(os, c.id, c.pid.value, exits(c.id));
          os := os';
          match r {
            case Exited(status) =>
              os := Finish(os, c.id, WaitStatusCode(status));
              RemoveAt(i);
              continue;
            case NoChild =>
              os := Finish(os, c.id, 0);
              RemoveAt(i);
              continue;
            case Running =>
          }
        }
        i := i + 1;
      }
      ReapEnds(clients[i..], exits, os);
    }

    method ShutdownAll(kills: nat -> int)
      modifies `clients, `os
      ensures Swept(clients, os) == Shutdown(old(clients), kills, old(os))
    {
      hide Shutdown;
      ghost var goal := Shutdown(clients, kills, os);
      assert clients[0..] == clients;
      for i := 0 to |clients|
        invariant |clients| == |old(clients)| && clients[i..] == old(clients)[i..]
        invariant goal == Behind(clients[..i], Shutdown(clients[i..], kills, os))
      {
        ShutdownUnfolds(clients, i, kills, os);
        var c := clients[i];
        if c.pid.Some? {
          clients := clients[i := c.(pid := None)];
          var (status, os') := KillChild(os, c.id, c.pid.value, kills(c.id));
          os := os';
          if status.Some? {
            os := os.Do(Respond(c.id, Status(WaitStatusCode(status.value))));
          }
        }
      }
      ShutdownEnds(clients[|clients|..], kills, os);
    }

    /** One turn of the loop. Returns whether the daemon exits. */
    method Turn(t: Tick) returns (exit: bool)
      modifies this
      ensures State(exit) == Step(old(State(false)), t)
    {
      hide Service, ReapPass, Shutdown, Accept;
      exit := false;
      if t.shutdown {
        ShutdownAll(t.kills);
        return true;
      }
      if t.interrupted {
        return;
      }
      var polled := |clients|;
      AcceptAll(t.accepted);
      var stop := ServicePass(Slots(t, polled), t.events);
      if stop {
        ShutdownAll(t.kills);
        return true;
      }
      ReapChildren(t.exits);
    }

    /** The loop, over the ticks the environment provides; its state after any
        number of them. */
    method AcceptLoop(ticks: seq<Tick>) returns (exit: bool)
      requires clients == [] && next == 0 && os == INITIAL.os
      modifies this
      ensures State(exit) == RunTicks(INITIAL, ticks)
    {
      hide Step;
      exit := false;
      var n := 0;
      assert ticks[0..] == ticks;
      while n < |ticks| && !exit
        invariant 0 <= n <= |ticks|
        invariant RunTicks(INITIAL, ticks) == RunTicks(State(exit), ticks[n..])
      {
        assert ticks[n..][1..] == ticks[n + 1..];
        exit := Turn(ticks[n]);
        n := n + 1;
      }
      if exit {
        HaltedStays(State(exit), ticks[n..]);
      }
    }
  }

  function Behind(front: seq<Client>, s: Swept): Swept {
    s.(clients := front + s.clients)
  }

  lemma {:induction false} HaltedStays(w: World, ticks: seq<Tick>)
    requires w.halted
    ensures RunTicks(w, ticks) == w
    decreases |ticks|
  {
    if ticks != [] { HaltedStays(w, ticks[1..]); }
  }

  lemma ReapUnfolds(c: seq<Client>, i: nat, exits: nat -> Option<int>, os: Os)
    requires i < |c|
    ensures
      var p := Behind(c[..i], ReapPass(c[i..], exits, os));
      var d := c[..i] + c[i + 1..];
      if c[i].pid.None? then p == Behind(c[..i + 1], ReapPass(c[i + 1..], exits, os))
      else
        var (r, os') := WaitNoHang(os, c[i].id, c[i].pid.value, exits(c[i].id));
        match r
        case Running => p == Behind(c[..i + 1], ReapPass(c[i + 1..], exits, os'))
        case Exited(status) =>
          p == Behind(d[..i], ReapPass(d[i..], exits, Finish(os', c[i].id, WaitStatusCode(status))))
        case NoChild => p == Behind(d[..i], ReapPass(d[i..], exits, Finish(os', c[i].id, 0)))
  {
    hide WaitNoHang, Finish, WaitStatusCode;
    var d := c[..i] + c[i + 1..];
    assert c[i..][1..] == c[i + 1..] && d[i..] == c[i + 1..] && d[..i] == c[..i];
    assert c[..i] + [c[i]] == c[..i + 1];
  }

  lemma ShutdownUnfolds(c: seq<Client>, i: nat, kills: nat -> int, os: Os)
    requires i < |c|
    ensures
      var d := c[i := c[i].(pid := None)];
      Behind(c[..i], Shutdown(c[i..], kills, os)) ==
      Behind(d[..i + 1], Shutdown(d[i + 1..], kills, ShutDownClient(c[i], kills(c[i].id), os)))
  {
    hide ShutDownClient;
    var d := c[i := c[i].(pid := None)];
    assert c[i..][1..] == d[i + 1..] && d[..i + 1] == c[..i] + [d[i]];
  }

  lemma ShutdownEnds(rest: seq<Client>, kills: nat -> int, os: Os)
    requires rest == []
    ensures Shutdown(rest, kills, os) == Swept([], os)
  {
  }

  lemma ReapEnds(rest: seq<Client>, exits: nat -> Option<int>, os: Os)
    requires rest == []
    ensures ReapPass(rest, exits, os) == Swept([], os)
  {
  }

  function After(front: seq<Client>, p: Pass): Pass {
    p.(clients := front + p.clients)
  }

  lemma ServiceUnfolds(c: seq<Client>, slots: seq<bool>, i: nat, events: nat -> Event, os: Os)
    requires i < |c| && i < |slots|
    ensures
      var p := After(c[..i], Service(c[i..], slots, i, events, os));
      if !slots[i] then p == After(c[..i + 1], Service(c[i + 1..], slots, i + 1, events, os))
      else
        var (outcome, os') := Visit(c[i], events(c[i].id), os);
        match outcome
        case Keep(c') =>
          var d := c[i := c'];
          p == After(d[..i + 1], Service(d[i + 1..], slots, i + 1, events, os'))
        case Drop =>
          var d := c[..i] + c[i + 1..];
          p == After(d[..i], Service(d[i..], slots, i, events, os'))
        case Halt => p == Pass(c, os', true)
  {
    hide Visit;
    assert c[i..][1..] == c[i + 1..];
    assert c[..i] + [c[i]] == c[..i + 1] && c[..i] + c[i..] == c;
    var (outcome, os') := Visit(c[i], events(c[i].id), os);
    match outcome
    case Keep(c') =>
      var d := c[i := c'];
      assert d[i + 1..] == c[i + 1..] && d[..i + 1] == c[..i] + [c'];
    case Drop =>
      var d := c[..i] + c[i + 1..];
      assert d[i..] == c[i + 1..] && d[..i] == c[..i];
    case Halt =>
  }

  lemma ServiceEnds(rest: seq<Client>, slots: seq<bool>, i: nat, events: nat -> Event, os: Os)
    requires rest == [] || i >= |slots|
    ensures Service(rest, slots, i, events, os) == Pass(rest, os, false)
  {
  }
}
