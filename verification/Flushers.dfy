/** Who drains a JSON client's backlog: the wake, the write-ready sources and the
    lingering of dropped clients (`src/ipc.rs`, `arm_ipc_flushers`,
    `flush_ipc_client`, `check_ipc_linger`, `drop_ipc_client`). */
module Flushers {
  import opened Connections
  import opened OutQueue

  const LINGER_TIMEOUT := 30_000

  /** A client and whether a write-ready source is draining it. */
  datatype Entry = Entry(conn: Conn, armed: bool)

  datatype TimeoutAction = Drop | ToDuration(ms: nat)

  /** What keeps a single entry in order, whoever its server is: a source is armed
      only for a client that asked, and a JSON client the socket has not failed
      asks as soon as it has a backlog. */
  predicate EntryOk(e: Entry) {
    && WellFormed(e.conn)
    && (e.armed ==> e.conn.wantsFlush)
    && (Backlog(e.conn) > 0 && !e.conn.failed && !e.conn.capture ==> e.conn.wantsFlush)
  }

  lemma SendKeepsEntry(e: Entry, line: seq<Byte>, script: seq<Outcome>, now: nat)
    requires EntryOk(e)
    ensures var (d, ok, ping) := AfterSendLine(e.conn, line, script, now);
      && EntryOk(e.(conn := d))
      && (ping <==> !e.conn.wantsFlush && d.wantsFlush)
      && (e.conn.wantsFlush ==> d.wantsFlush)
      && d.capture == e.conn.capture
    ensures var (d, ok, ping) := AfterSendSubscribed(e.conn, line, script, now);
      && EntryOk(e.(conn := d))
      && (ping <==> !e.conn.wantsFlush && d.wantsFlush)
      && (e.conn.wantsFlush ==> d.wantsFlush)
      && d.capture == e.conn.capture
  {
    var q := Enqueue(e.conn, line + [NEWLINE]);
    FlushMoves(q, script, now);
    FlushReports(q, script, now);
  }

  /** The exact exception: a client that had asked for nothing yet is left with a
      backlog nobody will drain precisely when the socket failed this write. */
  lemma UnattendedIffFailed(c: Conn, line: seq<Byte>, script: seq<Outcome>, now: nat)
    requires WellFormed(c) && !c.wantsFlush
    ensures var (d, ok, _) := AfterSendLine(c, line, script, now);
      WellFormed(d) && (Backlog(d) > 0 && !d.wantsFlush <==> !ok)
  {
    var q := Enqueue(c, line + [NEWLINE]);
    FlushMoves(q, script, now);
    FlushReports(q, script, now);
  }

  /** A client that is to be drained and has no source doing it. */
  predicate Unarmed(e: Entry) {
    e.conn.wantsFlush && !e.armed
  }

  function Armed(e: Entry, refuse: bool): Entry {
    if e.armed || !e.conn.wantsFlush || refuse then e else e.(armed := true)
  }

  function UnarmedIn(entries: map<ClientId, Entry>): set<ClientId> {
    set id | id in entries && Unarmed(entries[id])
  }

  function ArmAll(entries: map<ClientId, Entry>, refusing: set<ClientId>): map<ClientId, Entry> {
    map id | id in entries :: Armed(entries[id], id in refusing)
  }

  /** Only the refused stay unarmed. */
  lemma ArmAllLeaves(entries: map<ClientId, Entry>, refusing: set<ClientId>)
    requires forall id :: id in entries ==> EntryOk(entries[id])
    ensures UnarmedIn(ArmAll(entries, refusing)) == UnarmedIn(entries) * refusing
    ensures forall id :: id in entries ==>
              EntryOk(ArmAll(entries, refusing)[id]) && ArmAll(entries, refusing)[id].conn == entries[id].conn
  {
  }

  class Server {
    var clients: map<ClientId, Entry>
    var lingering: map<ClientId, Entry>
    /** The ping has been sent and `ArmFlushers` has yet to run. */
    var wakePending: bool
    var lingerTimers: set<ClientId>
    /** Clients that are to be drained, have no source, and were passed over when the
        loop last woke, their source being refused. */
    ghost var refused: set<ClientId>
    /** Clients whose linger timer could not be set. */
    ghost var untimed: set<ClientId>

    constructor ()
      ensures Valid() && clients == map[] && lingering == map[] && !wakePending && refused == {} && untimed == {}
    {
      clients, lingering, wakePending, lingerTimers := map[], map[], false, {};
      refused, untimed := {}, {};
    }

    ghost predicate Valid()
      reads this
    {
      && clients.Keys !! lingering.Keys
      && (forall id :: id in clients ==> EntryOk(clients[id]))
      && (forall id :: id in lingering ==> EntryOk(lingering[id]) && !lingering[id].conn.capture)
      && lingering.Keys <= lingerTimers + untimed
      && refused <= Waiting() && (Waiting() <= refused || wakePending)
    }

    /** The clients, live or lingering, to be drained and without a source. */
    ghost function Waiting(): set<ClientId>
      reads this
    {
      UnarmedIn(clients) + UnarmedIn(lingering)
    }

    /** The promise, exact: once the loop has woken, a JSON client with a backlog, live
        or lingering, whose socket has not failed is being drained if and only if its
        source was not refused; until then the wake is on its way. */
    lemma BacklogIsAttended(id: ClientId)
      requires Valid() && (id in clients || id in lingering)
      ensures var e := if id in clients then clients[id] else lingering[id];
        WellFormed(e.conn) &&
        (Backlog(e.conn) > 0 && !e.conn.failed && !e.conn.capture && !wakePending ==> (e.armed <==> id !in refused))
    {
      assert id in Waiting() <==> Unarmed(if id in clients then clients[id] else lingering[id]);
    }

    method Accept(id: ClientId, now: nat)
      requires Valid() && id !in clients && id !in lingering
      modifies this`clients
      ensures Valid()
      ensures clients == old(clients)[id := Entry(NewConn(now), false)]
    {
      clients := clients[id := Entry(NewConn(now), false)];
    }

    method SendLine(id: ClientId, line: seq<Byte>, script: seq<Outcome>, now: nat) returns (ok: bool)
      requires Valid() && id in clients
      modifies this`clients, this`wakePending
      ensures Valid()
      ensures var (c, good, ping) := AfterSendLine(old(clients[id]).conn, line, script, now);
        && ok == good
        && clients == old(clients)[id := old(clients[id]).(conn := c)]
        && wakePending == (old(wakePending) || ping)
    {
      SendKeepsEntry(clients[id], line, script, now);
      var (c, good, ping) := AfterSendLine(clients[id].conn, line, script, now);
      clients := clients[id := clients[id].(conn := c)];
      wakePending := wakePending || ping;
      ok := good;
    }

    method SendSubscribed(id: ClientId, line: seq<Byte>, script: seq<Outcome>, now: nat) returns (ok: bool)
      requires Valid() && id in clients
      modifies this`clients, this`wakePending
      ensures Valid()
      ensures var (c, good, ping) := AfterSendSubscribed(old(clients[id]).conn, line, script, now);
        && ok == good
        && clients == old(clients)[id := old(clients[id]).(conn := c)]
        && wakePending == (old(wakePending) || ping)
    {
      SendKeepsEntry(clients[id], line, script, now);
      var (c, good, ping) := AfterSendSubscribed(clients[id].conn, line, script, now);
      clients := clients[id := clients[id].(conn := c)];
      wakePending := wakePending || ping;
      ok := good;
    }

    /** The connection becomes a binary capture stream. */
    method Upgrade(id: ClientId)
      requires Valid() && id in clients
      modifies this`clients
      ensures Valid()
      ensures clients == old(clients)[id := old(clients[id]).(conn := old(clients[id]).conn.(capture := true))]
    {
      clients := clients[id := clients[id].(conn := clients[id].conn.(capture := true))];
    }

    method QueueFrames(id: ClientId, bytes: seq<Byte>, script: seq<Outcome>, now: nat) returns (ok: bool)
      requires Valid() && id in clients && clients[id].conn.capture
      modifies this`clients
      ensures Valid()
      ensures var (c, good) := AfterQueueFrames(old(clients[id]).conn, bytes, script, now);
        ok == good && clients == old(clients)[id := old(clients[id]).(conn := c)]
    {
      FlushMoves(Enqueue(clients[id].conn, bytes), script, now);
      var (c, good) := AfterQueueFrames(clients[id].conn, bytes, script, now);
      clients := clients[id := clients[id].(conn := c)];
      ok := good;
    }

    /** The wake arrives: try to arm a source for every client that is to be drained
        and has none, those refused before included. `refusing` are the ones whose
        source the loop will not take. */
    method ArmFlushers(refusing: set<ClientId>)
      requires Valid()
      modifies this
      ensures Valid() && !wakePending
      ensures clients == ArmAll(old(clients), refusing) && lingering == ArmAll(old(lingering), refusing)
      ensures refused == old(Waiting()) * refusing
      ensures untimed == old(untimed) && lingerTimers == old(lingerTimers)
    {
      ArmAllLeaves(clients, refusing);
      ArmAllLeaves(lingering, refusing);
      refused := Waiting() * refusing;
      clients, lingering := ArmAll(clients, refusing), ArmAll(lingering, refusing);
      wakePending := false;
    }

    /** `id`'s socket is writable. Once the queue is empty the source goes and a
        lingering client is closed; a failed client is closed at once. */
    method FlushClient(id: ClientId, script: seq<Outcome>, now: nat) returns (keep: bool)
      requires Valid()
      modifies this`clients, this`lingering, this`refused
      ensures Valid() && refused == old(refused) * Waiting()
      ensures id !in old(clients) && id !in old(lingering) ==>
                !keep && clients == old(clients) && lingering == old(lingering)
      ensures id in old(clients) ==>
        var (c, r) := Flushed(old(clients[id]).conn, script, now);
        && lingering == old(lingering)
        && (keep <==> r == Blocked)
        && clients == match r
             case Blocked => old(clients)[id := old(clients[id]).(conn := c)]
             case Drained => old(clients)[id := Entry(c.(wantsFlush := false), false)]
             case Failed => old(clients) - {id}
      ensures id in old(lingering) ==>
        var (c, r) := Flushed(old(lingering[id]).conn, script, now);
        && clients == old(clients)
        && (keep <==> r == Blocked)
        && lingering == match r
             case Blocked => old(lingering)[id := old(lingering[id]).(conn := c)]
             case Drained => old(lingering) - {id}
             case Failed => old(lingering) - {id}
    {
      if id !in clients && id !in lingering {
        assert refused * Waiting() == refused;
        return false;
      }
      var live := id in clients;
      var entry := if live then clients[id] else lingering[id];
      FlushMoves(entry.conn, script, now);
      FlushReports(entry.conn, script, now);
      var (c, r) := Flushed(entry.conn, script, now);
      keep := false;
      match r {
        case Blocked =>
          if live {
            clients := clients[id := entry.(conn := c)];
          } else {
            lingering := lingering[id := entry.(conn := c)];
          }
          keep := true;
        case Drained =>
          if live {
            clients := clients[id := Entry(c.(wantsFlush := false), false)];
          } else {
            lingering := lingering - {id};
          }
        case Failed =>
          // The queue is cleared first, so the drop below never lingers on it.
          if live {
            clients := clients - {id};
          } else {
            lingering := lingering - {id};
          }
      }
      refused := refused * Waiting();
    }

    /** A lingering client is closed once the socket has taken nothing for the
        timeout, and otherwise looked at again when that could first be so. */
    method CheckLinger(id: ClientId, now: nat) returns (action: TimeoutAction)
      requires Valid()
      modifies this`lingering, this`lingerTimers, this`refused
      ensures Valid() && clients == old(clients) && refused == old(refused) * Waiting()
      ensures lingerTimers == if action == Drop then old(lingerTimers) - {id} else old(lingerTimers)
      ensures id !in old(lingering) ==> action == Drop && lingering == old(lingering)
      ensures id in old(lingering) ==>
        var last := old(lingering[id]).conn.lastProgress;
        var idle := if now >= last then now - last else 0;
        if idle < LINGER_TIMEOUT then
          action == ToDuration(LINGER_TIMEOUT - idle) && lingering == old(lingering)
        else action == Drop && lingering == old(lingering) - {id}
    {
      action := Drop;
      if id in lingering {
        var last := lingering[id].conn.lastProgress;
        var idle := if now >= last then now - last else 0;
        if idle < LINGER_TIMEOUT {
          action := ToDuration(LINGER_TIMEOUT - idle);
        } else {
          lingering := lingering - {id};
        }
      }
      lingerTimers := if action == Drop then lingerTimers - {id} else lingerTimers;
      refused := refused * Waiting();
    }

    /** Drop a live client. A reply still queued keeps the socket, under a timer,
        with whatever source was draining it; a capture stream's frames do not. */
    method DropClient(id: ClientId, timerOk: bool)
      requires Valid()
      modifies this`clients, this`lingering, this`lingerTimers, this`untimed, this`refused
      ensures Valid() && clients == old(clients) - {id} && refused == old(refused) * Waiting()
      ensures id in old(clients) && Backlog(old(clients[id]).conn) > 0 && !old(clients[id]).conn.capture ==>
                && lingering == old(lingering)[id := old(clients[id])]
                && (timerOk ==> id in lingerTimers)
      ensures id !in old(clients) || Backlog(old(clients[id]).conn) == 0 || old(clients[id]).conn.capture ==>
                lingering == old(lingering)
    {
      if id in clients {
        var entry := clients[id];
        clients := clients - {id};
        if Backlog(entry.conn) > 0 && !entry.conn.capture {
          lingering := lingering[id := entry];
          if timerOk {
            lingerTimers := lingerTimers + {id};
          } else {
            untimed := untimed + {id};
          }
        }
      }
      refused := refused * Waiting();
    }
  }

  /** A client whose source was refused wakes the loop for itself no more: it still
      wants a flush, so no later line of its own does. */
  lemma OwnLineDoesNotWake(e: Entry, line: seq<Byte>, script: seq<Outcome>, now: nat)
    requires EntryOk(e) && Unarmed(e)
    ensures !AfterSendLine(e.conn, line, script, now).2
    ensures AfterSendLine(e.conn, line, script, now).0.wantsFlush
  {
    SendKeepsEntry(e, line, script, now);
  }

  /** It is tried again when any other client wakes the loop, and only then. Here
      client 0 is refused, its next line changes nothing, and client 1's line gets
      it armed. */
  method RetriedByAnother() returns (server: Server)
    ensures fresh(server) && server.Valid() && 0 in server.clients && server.clients[0].armed && 0 !in server.refused
  {
    server := new Server();
    server.Accept(0, 0);
    server.Accept(1, 0);
    var _ := server.SendLine(0, [7], [], 0);
    server.ArmFlushers({0});
    assert 0 in server.refused && !server.wakePending;
    OwnLineDoesNotWake(server.clients[0], [7], [], 0);
    var _ := server.SendLine(0, [7], [], 0);
    assert !server.wakePending && Unarmed(server.clients[0]);
    var _ := server.SendLine(1, [7], [], 0);
    server.ArmFlushers({});
  }

  /** A reply whose socket failed as it was written lingers with nothing armed and
      no wake coming; only the linger timer ends it. */
  method FailedReplyLingers() returns (server: Server)
    ensures fresh(server) && server.Valid()
    ensures 0 in server.lingering && Backlog(server.lingering[0].conn) > 0
    ensures !server.lingering[0].armed && !server.wakePending && server.refused == {}
  {
    server := new Server();
    server.Accept(0, 0);
    var ok := server.SendLine(0, [7], [Broken], 0);
    assert Flushed(Enqueue(NewConn(0), [7] + [NEWLINE]), [Broken], 0).1 == Failed;
    server.DropClient(0, true);
  }
}
