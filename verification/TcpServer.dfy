/** The server object: the vector of connections that accepting appends to and that the cleanup task compacts in
    place, with the session objects behind it. Every method takes the whole server through the step of its name, and
    what is proved of all runs of the server holds of the objects. */
module TcpServers {
  import opened Wrappers
  import opened Crypto
  import opened Protocol
  import opened ProtocolTheorems
  import opened Sessions
  import opened Server

  // A connection, with the two session objects at its ends.
  class DispatcherSession {
    ghost const id: nat     // how many sessions were accepted before this one
    const link: Link
    var closed: bool

    ghost function Objects(): set<object> {
      {this, link, link.client, link.server}
    }

    ghost function Abs(): Conn
      reads Objects()
    {
      Conn(link.Abs(), closed)
    }

    // The two share no object.
    ghost predicate Apart(that: DispatcherSession) {
      && link != that.link
      && link.client != that.link.client && link.client != that.link.server
      && link.server != that.link.client && link.server != that.link.server
    }

    constructor (prims: Primitives, ghost id: nat)
      ensures this.id == id && link.prims == prims && !closed
      ensures link.Valid() && link.Abs() == START && link.events == []
      ensures fresh(link) && fresh(link.client) && fresh(link.server)
    {
      this.id := id;
      link := new Link(prims);
      closed := false;
    }
  }

  ghost function AllObjects(sessions: seq<DispatcherSession>): set<object> {
    set s, o | s in sessions && o in s.Objects() :: o
  }

  ghost function Conns(sessions: seq<DispatcherSession>): (conns: seq<Conn>)
    reads AllObjects(sessions)
    ensures |conns| == |sessions| && forall i :: 0 <= i < |conns| ==> conns[i] == sessions[i].Abs()
  {
    if sessions == [] then []
    else
      var last := sessions[|sessions| - 1];
      Conns(sessions[..|sessions| - 1]) + [last.Abs()]
  }

  ghost function Ids(sessions: seq<DispatcherSession>): seq<nat> {
    seq(|sessions|, i requires 0 <= i < |sessions| => sessions[i].id)
  }

  // The sessions that are not closed, in order.
  function Open(sessions: seq<DispatcherSession>): seq<DispatcherSession>
    reads sessions
  {
    if sessions == [] then []
    else
      var last := sessions[|sessions| - 1];
      Open(sessions[..|sessions| - 1]) + (if last.closed then [] else [last])
  }

  lemma {:induction false} OpenIds(sessions: seq<DispatcherSession>, accepted: seq<DispatcherSession>)
    requires forall s :: s in sessions ==> s.id < |accepted| && accepted[s.id] == s
    ensures Ids(Open(sessions)) == OpenOnly(Conns(accepted), Ids(sessions))
    ensures forall s :: s in Open(sessions) ==> s in sessions
  {
    if sessions == [] {
    } else {
      var front, last := sessions[..|sessions| - 1], sessions[|sessions| - 1];
      OpenIds(front, accepted);
      assert Ids(sessions)[..|sessions| - 1] == Ids(front);
      assert Ids(Open(front) + [last]) == Ids(Open(front)) + [last.id];
      assert Open(front) + [] == Open(front);
    }
  }

  ghost predicate Separate(sessions: seq<DispatcherSession>) {
    forall s, t {:trigger s.Apart(t)} :: s in sessions && t in sessions && s != t ==> s.Apart(t)
  }

  lemma SeparateMore(sessions: seq<DispatcherSession>, s: DispatcherSession)
    requires Separate(sessions) && forall t :: t in sessions ==> s.Apart(t) && t.Apart(s)
    ensures Separate(sessions + [s])
  {
  }

  class TcpServer {
    const prims: Primitives
    var connections: seq<DispatcherSession>     // the vector
    ghost var accepted: seq<DispatcherSession>  // every session ever accepted
    ghost var history: seq<ServerEvent>         // everything that has happened

    // No two sessions share an object, each is where a run of the protocol has taken it, and the server as a whole is
    // where its history has taken it.
    ghost predicate Valid()
      reads this, AllObjects(accepted)
    {
      && Separate(accepted)
      && (forall i :: 0 <= i < |accepted| ==> accepted[i].id == i && LinkValid(accepted[i]))
      && (forall s :: s in connections ==> s.id < |accepted| && accepted[s.id] == s)
      && RunServer(prims, history) == Some(Abs())
    }

    ghost predicate LinkValid(s: DispatcherSession)
      reads s.Objects()
    {
      s.link.prims == prims && s.link.Valid()
    }

    ghost function Abs(): ServerState
      reads this, AllObjects(accepted)
    {
      ServerState(Conns(accepted), Ids(connections))
    }

    constructor (prims: Primitives)
      ensures Valid() && Abs() == EMPTY && history == [] && this.prims == prims
    {
      this.prims := prims;
      connections, accepted, history := [], [], [];
      new;
      assert Conns([]) == [] && Ids([]) == [];
    }

    // The completion handler of do_accept, which then waits for the next connection.
    method DoAccept(failed: bool)
      requires Valid()
      modifies this
      ensures Valid() && history == old(history) + [Accept(failed)]
      ensures failed ==> accepted == old(accepted) && connections == old(connections)
      ensures !failed ==> |accepted| == |old(accepted)| + 1 && accepted[..|old(accepted)|] == old(accepted)
      ensures !failed ==> connections == old(connections) + [accepted[|old(accepted)|]]
    {
      hide Step, Run, RunServer, Conns;
      if !failed {
        SetupNewConnection();
      } else {
        ghost var before := Abs();
        RunServerOne(prims, history, Accept(true));
        history := history + [Accept(true)];
        assert Conns(accepted) == before.accepted;
      }
    }

    method SetupNewConnection()
      requires Valid()
      modifies this
      ensures Valid() && history == old(history) + [Accept(false)]
      ensures |accepted| == |old(accepted)| + 1 && accepted[..|old(accepted)|] == old(accepted)
      ensures connections == old(connections) + [accepted[|old(accepted)|]]
      ensures fresh(accepted[|old(accepted)|].Objects())
    {
      hide Step, Run, RunServer, Conns;
      ghost var before := Abs();
      RunServerOne(prims, history, Accept(false));
      var session := new DispatcherSession(prims, |accepted|);
      forall s | s in accepted
        ensures s.Abs() == old(s.Abs()) && LinkValid(s) && s.Apart(session) && session.Apart(s)
      {
      }
      SeparateMore(accepted, session);
      accepted := accepted + [session];
      connections := connections + [session];
      history := history + [Accept(false)];
      assert Conns(accepted) == before.accepted + [Conn(START, false)];
      assert Ids(connections) == before.table + [session.id];
    }

    // A step of one open session: its objects move, and those of every other session stay as they are.
    method Deliver(session: DispatcherSession, event: Event)
      requires Valid() && prims.Commutes() && prims.KeysMatch()
      requires session in accepted && !session.closed && Step(prims, session.link.Abs(), event).Some?
      modifies this`history, session.link, session.link.client, session.link.server
      ensures Valid() && history == old(history) + [ServerEvent.Deliver(session.id, event)]
      ensures session.link.events == old(session.link.events) + [event]
      ensures Step(prims, old(session.link.Abs()), event) == Some(session.link.Abs())
      ensures forall s :: s in accepted && s != session ==>
                s.Abs() == old(s.Abs()) && s.link.events == old(s.link.events)
    {
      hide Step, Run, RunServer, Conns;
      ghost var before := Abs();
      RunServerOne(prims, history, ServerEvent.Deliver(session.id, event));
      session.link.Resume(event);
      forall s | s in accepted && s != session
        ensures s.Abs() == old(s.Abs()) && s.link.events == old(s.link.events) && LinkValid(s)
      {
        assert s.Apart(session);
      }
      history := history + [ServerEvent.Deliver(session.id, event)];
      assert Conns(accepted) == before.accepted[session.id := Conn(session.link.Abs(), false)];
    }

    method Close(session: DispatcherSession)
      requires Valid() && session in accepted
      modifies this`history, session`closed
      ensures Valid() && history == old(history) + [ServerEvent.Close(session.id)]
      ensures session.closed
    {
      hide Step, Run, RunServer, Conns;
      ghost var before := Abs();
      RunServerOne(prims, history, ServerEvent.Close(session.id));
      session.closed := true;
      history := history + [ServerEvent.Close(session.id)];
      assert Conns(accepted) == before.accepted[session.id := Conn(session.link.Abs(), true)];
    }

    // One round of cleanup_task: std::erase_if on the vector. Open entries move forward over closed ones, then the
    // vector is cut behind the last of them.
    method CleanupTask()
      requires Valid()
      modifies this`connections, this`history
      ensures Valid() && history == old(history) + [Cleanup]
      ensures connections == Open(old(connections))
    {
      hide Step, Run, RunServer, Conns;
      ghost var before := connections;
      ghost var conns := Conns(accepted);
      RunServerOne(prims, history, Cleanup);
      EraseClosed();
      history := history + [Cleanup];
      assert Conns(accepted) == conns;
      OpenIds(before, accepted);
    }

    method EraseClosed()
      modifies this`connections
      ensures connections == Open(old(connections))
    {
      ghost var before := connections;
      var write := 0;
      for read := 0 to |connections|
        invariant |connections| == |before| && write <= read
        invariant connections[..write] == Open(before[..read])
        invariant connections[read..] == before[read..]
      {
        assert connections[read] == connections[read..][0] == before[read];
        assert before[..read + 1][..read] == before[..read];
        if !connections[read].closed {
          ghost var kept := connections[..write];
          connections := connections[write := connections[read]];
          write := write + 1;
          assert connections[..write] == kept + [before[read]];
        }
        assert connections[read + 1..] == before[read..][1..];
      }
      assert before[..|before|] == before;
      connections := connections[..write];
    }
  }

  // Whatever has happened to a server, the objects of each of its sessions satisfy the invariant of the protocol:
  // neither end has met a frame it cannot decode, and once both encrypt they do so with the same cipher.
  lemma SessionObjectsAreSafe(server: TcpServer, s: DispatcherSession)
    requires server.Valid() && s in server.accepted
    requires server.prims.Commutes() && server.prims.KeysMatch()
    ensures Inv(server.prims, s.link.Abs())
    ensures !s.link.serverHandler.ServerGarbled? && !s.link.clientHandler.ClientGarbled? && !s.link.task.Destroyed?
    ensures s.link.client.encryption.Aes256? && s.link.server.encryption.Aes256? ==>
              s.link.client.encryption == s.link.server.encryption
    ensures |s.link.events| == |Project(s.id, server.history)|
  {
    EverySessionIsSafe(server.prims, server.history, s.id);
    RunKeepsInv(server.prims, s.link.events);
  }

  // The vector is in accept order without duplicates and lacks no open session; right after a cleanup it holds the
  // open sessions only.
  lemma VectorIsRight(server: TcpServer)
    requires server.Valid()
    ensures forall i, j :: 0 <= i < j < |server.connections| ==>
              server.connections[i].id < server.connections[j].id
    ensures forall s :: s in server.accepted && !s.closed ==> s in server.connections
    ensures server.history != [] && server.history[|server.history| - 1].Cleanup? ==>
              forall s :: s in server.connections ==> !s.closed
  {
    hide Step, Run, RunServer, Conns, Link.Abs;
    TableRefinesFilter(server.prims, server.history);
    VectorSpells(server.connections, server.accepted, server.Abs());
  }

  lemma VectorSpells(connections: seq<DispatcherSession>, accepted: seq<DispatcherSession>, s: ServerState)
    requires s.accepted == Conns(accepted) && s.table == Ids(connections) && TableInv(s)
    requires forall i :: 0 <= i < |accepted| ==> accepted[i].id == i
    requires forall s :: s in connections ==> s.id < |accepted| && accepted[s.id] == s
    ensures forall i, j :: 0 <= i < j < |connections| ==> connections[i].id < connections[j].id
    ensures forall s :: s in accepted && !s.closed ==> s in connections
    ensures HoldsOpen(s) ==> forall s :: s in connections ==> !s.closed
  {
    hide Conns, Link.Abs;
    var table := s.table;
    assert forall i :: 0 <= i < |table| ==> connections[i].id == table[i];
    forall c | c in accepted && !c.closed
      ensures c in connections
    {
      assert s.accepted[c.id] == c.Abs() && c.id in table;
      var i :| 0 <= i < |table| && table[i] == c.id;
    }
    forall c | c in connections
      ensures HoldsOpen(s) ==> !c.closed
    {
      var i :| 0 <= i < |connections| && connections[i] == c;
      assert table[i] in table && s.accepted[c.id] == c.Abs();
    }
  }
}
