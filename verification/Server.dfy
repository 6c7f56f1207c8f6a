/** The whole server on values: every connection ever accepted with the state of its session, and the table of
    connections the server holds. Accepts, steps of sessions, closes and cleanups interleave in any order. */
module Server {
  import opened Wrappers
  import opened Crypto
  import opened Protocol
  import opened ProtocolTheorems

  datatype Conn = Conn(link: State, closed: bool)

  // Connections are numbered in the order in which they are accepted; the table holds their numbers.
  datatype ServerState = ServerState(accepted: seq<Conn>, table: seq<nat>)

  const EMPTY: ServerState := ServerState([], [])

  datatype ServerEvent =
    | Accept(failed: bool)              // async_accept completes, with or without an error code
    | Deliver(id: nat, event: Event)    // a step of one session
    | Close(id: nat)
    | Cleanup                           // one round of cleanup_task

  function ServerStep(prims: Primitives, s: ServerState, ev: ServerEvent): Option<ServerState> {
    match ev
    case Accept(failed) =>
      if failed then Some(s)
      else Some(ServerState(s.accepted + [Conn(START, false)], s.table + [|s.accepted|]))
    case Deliver(id, event) =>
      if id < |s.accepted| && !s.accepted[id].closed then
        match Step(prims, s.accepted[id].link, event)
        case Some(link) => Some(s.(accepted := s.accepted[id := Conn(link, false)]))
        case None => None
      else None
    case Close(id) =>
      if id < |s.accepted| then Some(s.(accepted := s.accepted[id := Conn(s.accepted[id].link, true)])) else None
    case Cleanup => Some(s.(table := OpenOnly(s.accepted, s.table)))
  }

  // The entries of a table whose connections are open, in the order of the table.
  function OpenOnly(accepted: seq<Conn>, table: seq<nat>): seq<nat> {
    if table == [] then []
    else
      var last := table[|table| - 1];
      OpenOnly(accepted, table[..|table| - 1]) + (if last < |accepted| && !accepted[last].closed then [last] else [])
  }

  function RunServer(prims: Primitives, evs: seq<ServerEvent>): Option<ServerState> {
    if evs == [] then Some(EMPTY)
    else match RunServer(prims, evs[..|evs| - 1])
      case None => None
      case Some(before) => ServerStep(prims, before, evs[|evs| - 1])
  }

  lemma RunServerOne(prims: Primitives, evs: seq<ServerEvent>, ev: ServerEvent)
    ensures RunServer(prims, evs + [ev]) ==
            match RunServer(prims, evs)
            case None => None
            case Some(s) => ServerStep(prims, s, ev)
  {
    assert (evs + [ev])[..|evs + [ev]| - 1] == evs;
  }

  // The events of one session within a run of the server.
  function Project(id: nat, evs: seq<ServerEvent>): seq<Event> {
    if evs == [] then []
    else
      var last := evs[|evs| - 1];
      Project(id, evs[..|evs| - 1]) + (if last.Deliver? && last.id == id then [last.event] else [])
  }

  // What an event does to one connection: nothing but its own steps move its session, nothing but its own close
  // closes it, and no step or close touches the table.
  lemma StepLink(prims: Primitives, s: ServerState, ev: ServerEvent, id: nat)
    requires ServerStep(prims, s, ev).Some?
    ensures var t := ServerStep(prims, s, ev).value;
            && |s.accepted| <= |t.accepted|
            && (id < |s.accepted| ==>
                  Some(t.accepted[id].link) ==
                  if ev.Deliver? && ev.id == id then Step(prims, s.accepted[id].link, ev.event)
                  else Some(s.accepted[id].link))
            && (id < |s.accepted| && !(ev.Close? && ev.id == id) ==> t.accepted[id].closed == s.accepted[id].closed)
            && (!ev.Accept? && !ev.Cleanup? ==> t.table == s.table)
            && (|s.accepted| <= id ==> !(ev.Deliver? && ev.id == id))
            && (|s.accepted| <= id < |t.accepted| ==> t.accepted[id].link == START)
  {
    hide Step;
  }

  // Sessions do not touch each other: in any run of the server, each session is where its own events alone would
  // have taken it.
  lemma {:induction false} SessionsAreIndependent(prims: Primitives, evs: seq<ServerEvent>, id: nat)
    requires RunServer(prims, evs).Some?
    ensures var accepted := RunServer(prims, evs).value.accepted;
            if id < |accepted| then Run(prims, START, Project(id, evs)) == Some(accepted[id].link)
            else Project(id, evs) == []
  {
    hide Step, ServerStep, Run;
    if evs == [] {
    } else {
      var before, last := evs[..|evs| - 1], evs[|evs| - 1];
      SessionsAreIndependent(prims, before, id);
      StepLink(prims, RunServer(prims, before).value, last, id);
      EmptyRun(prims);
      if last.Deliver? && last.id == id {
        assert Project(id, evs) == Project(id, before) + [last.event];
        RunOne(prims, Project(id, before), last.event);
      } else {
        assert Project(id, evs) == Project(id, before) + [] == Project(id, before);
      }
    }
  }

  lemma EmptyRun(prims: Primitives)
    ensures Run(prims, START, []) == Some(START)
  {
  }

  // Every session of every run satisfies the invariant of the protocol, whatever the others do.
  lemma EverySessionIsSafe(prims: Primitives, evs: seq<ServerEvent>, id: nat)
    requires prims.Commutes() && prims.KeysMatch()
    requires RunServer(prims, evs).Some? && id < |RunServer(prims, evs).value.accepted|
    ensures var st := RunServer(prims, evs).value.accepted[id].link;
            && Inv(prims, st)
            && !st.serverHandler.ServerGarbled? && !st.clientHandler.ClientGarbled? && !st.task.Destroyed?
            && (Secured(st) ==> st.clientCipher == st.serverCipher)
            && Clock(st) == |Project(id, evs)|
  {
    hide Inv, Clock, Step;
    SessionsAreIndependent(prims, evs, id);
    RunKeepsInv(prims, Project(id, evs));
    NoHonestSessionFails(prims, Project(id, evs));
    if Secured(RunServer(prims, evs).value.accepted[id].link) {
      KeyAgreement(prims, Project(id, evs));
    }
  }

  ghost predicate Increasing(table: seq<nat>) {
    forall i, j :: 0 <= i < j < |table| ==> table[i] < table[j]
  }

  // A table in accept order, without duplicates, that lacks no open connection.
  ghost predicate TableInv(s: ServerState) {
    && Increasing(s.table)
    && (forall id :: id in s.table ==> id < |s.accepted|)
    && (forall id :: 0 <= id < |s.accepted| && !s.accepted[id].closed ==> id in s.table)
  }

  ghost predicate HoldsOpen(s: ServerState) {
    forall id: nat :: id in s.table <==> id < |s.accepted| && !s.accepted[id].closed
  }

  lemma {:induction false} OpenOnlyIsFilter(accepted: seq<Conn>, table: seq<nat>)
    ensures forall id: nat :: id in OpenOnly(accepted, table) <==>
              id in table && id < |accepted| && !accepted[id].closed
    ensures Increasing(table) ==> Increasing(OpenOnly(accepted, table))
  {
    if table == [] {
    } else {
      var front, last := table[..|table| - 1], table[|table| - 1];
      OpenOnlyIsFilter(accepted, front);
      assert table == front + [last];
      var kept := OpenOnly(accepted, front);
      if Increasing(table) {
        assert forall i :: 0 <= i < |front| ==> front[i] == table[i];
        forall i, j | 0 <= i < j < |OpenOnly(accepted, table)|
          ensures OpenOnly(accepted, table)[i] < OpenOnly(accepted, table)[j]
        {
          assert kept[i] in kept;
        }
      }
    }
  }

  lemma StepKeepsTable(prims: Primitives, s: ServerState, ev: ServerEvent)
    requires TableInv(s) && ServerStep(prims, s, ev).Some?
    ensures TableInv(ServerStep(prims, s, ev).value)
    ensures ev.Cleanup? ==> HoldsOpen(ServerStep(prims, s, ev).value)
  {
    hide Step;
    OpenOnlyIsFilter(s.accepted, s.table);
    if ev == Accept(false) {
      var t := ServerStep(prims, s, ev).value;
      assert forall i :: 0 <= i < |s.table| ==> s.table[i] in s.table;
      assert t.table[|s.table|] == |s.accepted|;
      assert forall id :: id in t.table <==> id in s.table || id == |s.accepted|;
    }
  }

  // After any run the table is a subsequence, in accept order, of the connections ever accepted, and holds every
  // open one; right after a cleanup it holds the open ones only.
  lemma {:induction false} TableRefinesFilter(prims: Primitives, evs: seq<ServerEvent>)
    requires RunServer(prims, evs).Some?
    ensures TableInv(RunServer(prims, evs).value)
    ensures evs != [] && evs[|evs| - 1].Cleanup? ==>
              HoldsOpen(RunServer(prims, evs).value)
  {
    hide ServerStep;
    if evs == [] {
    } else {
      TableRefinesFilter(prims, evs[..|evs| - 1]);
      StepKeepsTable(prims, RunServer(prims, evs[..|evs| - 1]).value, evs[|evs| - 1]);
    }
  }
}
