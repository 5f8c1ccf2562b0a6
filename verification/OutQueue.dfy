/** A client's output queue over a socket that may take any part of a write,
    refuse it, be interrupted or fail (`src/ipc.rs`, `Client`). */
module OutQueue {
  import opened Connections

  /** How far behind a subscriber may fall. */
  const SUBSCRIBER_BACKLOG := 1024 * 1024

  /** What one `write` call comes back with. The environment picks; `Took(0)` is
      the end-of-file answer. */
  datatype Outcome = Took(n: nat) | WouldBlock | Interrupted | Broken

  /** A connection's queue, with its whole history beside it: every byte ever
      queued, and every byte the socket took. */
  datatype Conn = Conn(
    outBuf: seq<Byte>,
    outPos: nat,
    wantsFlush: bool,
    lastProgress: nat,
    capture: bool,
    failed: bool,
    queued: seq<Byte>,
    received: seq<Byte>)

  predicate WellFormed(c: Conn) {
    c.outPos <= |c.outBuf|
  }

  function Unsent(c: Conn): seq<Byte>
    requires WellFormed(c)
  {
    c.outBuf[c.outPos..]
  }

  function Backlog(c: Conn): nat
    requires WellFormed(c)
  {
    |c.outBuf| - c.outPos
  }

  /** Nothing lost, nothing doubled, nothing out of order. */
  predicate Whole(c: Conn) {
    WellFormed(c) && c.received + Unsent(c) == c.queued
  }

  // ----- what the operations do -----

  function Enqueue(c: Conn, bytes: seq<Byte>): Conn {
    c.(outBuf := c.outBuf + bytes, queued := c.queued + bytes)
  }

  function Cleared(c: Conn): Conn {
    c.(outBuf := [], outPos := 0)
  }

  /** The socket takes the next `k` bytes. */
  function Wrote(c: Conn, k: nat, now: nat): Conn
    requires WellFormed(c) && k <= Backlog(c)
  {
    c.(outPos := c.outPos + k, lastProgress := now, received := c.received + Unsent(c)[..k])
  }

  /** Write until the queue is empty or the socket stops taking, one outcome of
      `script` per call; a script that runs out blocks. */
  function Flushed(c: Conn, script: seq<Outcome>, now: nat): (r: (Conn, FlushResult))
    requires WellFormed(c)
    decreases |script|
  {
    if c.outPos >= |c.outBuf| then (Cleared(c), Drained)
    else if script == [] then (c, Blocked)
    else match script[0]
      case Took(n) =>
        if n == 0 then (c.(failed := true), Failed)
        else Flushed(Wrote(c, if n < Backlog(c) then n else Backlog(c), now), script[1..], now)
      case WouldBlock => (c, Blocked)
      case Interrupted => Flushed(c, script[1..], now)
      case Broken => (c.(failed := true), Failed)
  }

  /** A flush moves bytes from the unsent to the received end and nothing else. */
  predicate Moved(c: Conn, d: Conn)
    requires WellFormed(c)
  {
    && WellFormed(d)
    && d.received + Unsent(d) == c.received + Unsent(c)
    && c.received <= d.received
    && d.queued == c.queued && d.wantsFlush == c.wantsFlush && d.capture == c.capture
  }

  lemma WroteMoves(c: Conn, k: nat, now: nat)
    requires WellFormed(c) && k <= Backlog(c)
    ensures Moved(c, Wrote(c, k, now))
  {
  }

  lemma MovedTransitive(c: Conn, m: Conn, d: Conn)
    requires WellFormed(c) && Moved(c, m) && Moved(m, d)
    ensures Moved(c, d)
  {
  }

  /** Whatever the socket does, a flush only moves bytes. */
  lemma {:induction false} FlushMoves(c: Conn, script: seq<Outcome>, now: nat)
    requires WellFormed(c)
    ensures Moved(c, Flushed(c, script, now).0)
    decreases |script|
  {
    if c.outPos >= |c.outBuf| {
      assert Unsent(c) == [] == Unsent(Cleared(c));
    } else if script != [] && script[0].Took? && script[0].n > 0 {
      var k := if script[0].n < Backlog(c) then script[0].n else Backlog(c);
      WroteMoves(c, k, now);
      FlushMoves(Wrote(c, k, now), script[1..], now);
      MovedTransitive(c, Wrote(c, k, now), Flushed(c, script, now).0);
    } else if script != [] && script[0].Interrupted? {
      FlushMoves(c, script[1..], now);
    }
  }

  /** It reports `Drained` exactly when nothing is left, `Failed` exactly when the
      socket failed it, and notes progress exactly when a byte went out. */
  lemma {:induction false} FlushReports(c: Conn, script: seq<Outcome>, now: nat)
    requires WellFormed(c)
    ensures var (d, r) := Flushed(c, script, now);
      && WellFormed(d)
      && (r == Drained <==> Backlog(d) == 0)
      && (d.failed <==> c.failed || r == Failed)
      && d.lastProgress == if |d.received| == |c.received| then c.lastProgress else now
    decreases |script|
  {
    if c.outPos < |c.outBuf| && script != [] {
      match script[0]
      case Took(n) =>
        if n > 0 {
          var m := Wrote(c, if n < Backlog(c) then n else Backlog(c), now);
          FlushReports(m, script[1..], now);
          FlushMoves(m, script[1..], now);
        }
      case Interrupted => FlushReports(c, script[1..], now);
      case WouldBlock =>
      case Broken =>
    }
  }

  /** The bytes a script of outcomes is ready to take before it stops taking. */
  function Willing(script: seq<Outcome>): nat
    decreases |script|
  {
    if script == [] then 0
    else match script[0]
      case Took(n) => if n == 0 then 0 else n + Willing(script[1..])
      case Interrupted => Willing(script[1..])
      case WouldBlock => 0
      case Broken => 0
  }

  /** Whether it stops because the socket fails. */
  predicate Breaks(script: seq<Outcome>)
    decreases |script|
  {
    script != [] &&
    match script[0]
    case Took(n) => n == 0 || Breaks(script[1..])
    case Interrupted => Breaks(script[1..])
    case WouldBlock => false
    case Broken => true
  }

  /** A flush goes on after a short or an interrupted write, and hands over as much as
      the socket is willing to take. */
  lemma {:induction false} FlushTakes(c: Conn, script: seq<Outcome>, now: nat)
    requires WellFormed(c)
    ensures var (d, r) := Flushed(c, script, now);
      && |d.received| == |c.received| + (if Willing(script) < Backlog(c) then Willing(script) else Backlog(c))
      && r == if Willing(script) >= Backlog(c) then Drained else if Breaks(script) then Failed else Blocked
    decreases |script|
  {
    if c.outPos < |c.outBuf| && script != [] {
      match script[0]
      case Took(n) =>
        if n > 0 {
          FlushTakes(Wrote(c, if n < Backlog(c) then n else Backlog(c), now), script[1..], now);
        }
      case Interrupted => FlushTakes(c, script[1..], now);
      case WouldBlock =>
      case Broken =>
    }
  }

  /** A JSON line behind whatever is queued. The flag says whether the write went
      through; the loop is woken the first time bytes are left behind. */
  function AfterSendLine(c: Conn, line: seq<Byte>, script: seq<Outcome>, now: nat): (r: (Conn, bool, bool))
    requires WellFormed(c)
  {
    var (d, r) := Flushed(Enqueue(c, line + [NEWLINE]), script, now);
    match r
    case Failed => (d, false, false)
    case Drained => (d, true, false)
    case Blocked => (d.(wantsFlush := true), true, !c.wantsFlush)
  }

  function AfterSendSubscribed(c: Conn, line: seq<Byte>, script: seq<Outcome>, now: nat): (r: (Conn, bool, bool))
    requires WellFormed(c)
  {
    FlushMoves(Enqueue(c, line + [NEWLINE]), script, now);
    var (d, ok, ping) := AfterSendLine(c, line, script, now);
    if ok && Backlog(d) > SUBSCRIBER_BACKLOG then (Cleared(d), false, ping) else (d, ok, ping)
  }

  function AfterQueueFrames(c: Conn, bytes: seq<Byte>, script: seq<Outcome>, now: nat): (r: (Conn, bool))
    requires WellFormed(c)
  {
    var (d, r) := Flushed(Enqueue(c, bytes), script, now);
    (d, r != Failed)
  }

  // ----- runs -----

  datatype Op =
    | SendLine(bytes: seq<Byte>, script: seq<Outcome>)
    | SendSubscribed(bytes: seq<Byte>, script: seq<Outcome>)
    | QueueFrames(bytes: seq<Byte>, script: seq<Outcome>)
    | FlushOut(script: seq<Outcome>)

  function Step(c: Conn, op: Op, now: nat): Conn
    requires WellFormed(c)
  {
    match op
    case SendLine(b, s) => AfterSendLine(c, b, s, now).0
    case SendSubscribed(b, s) => AfterSendSubscribed(c, b, s, now).0
    case QueueFrames(b, s) => AfterQueueFrames(c, b, s, now).0
    case FlushOut(s) => Flushed(c, s, now).0
  }

  function Added(op: Op): seq<Byte> {
    match op
    case SendLine(b, _) => b + [NEWLINE]
    case SendSubscribed(b, _) => b + [NEWLINE]
    case QueueFrames(b, _) => b
    case FlushOut(_) => []
  }

  /** The subscriber is more than the limit behind after this push. */
  predicate CutsLoose(c: Conn, op: Op, now: nat)
    requires WellFormed(c)
  {
    op.SendSubscribed? &&
    var (d, ok, _) := AfterSendLine(c, op.bytes, op.script, now);
    ok && WellFormed(d) && Backlog(d) > SUBSCRIBER_BACKLOG
  }

  lemma EnqueueWhole(c: Conn, bytes: seq<Byte>)
    requires Whole(c)
    ensures Whole(Enqueue(c, bytes))
  {
  }

  lemma FlushWhole(c: Conn, bytes: seq<Byte>, script: seq<Outcome>, now: nat)
    requires Whole(c)
    ensures var d := Flushed(Enqueue(c, bytes), script, now).0;
      && Whole(d)
      && d.queued == c.queued + bytes
      && c.received <= d.received <= d.queued
  {
    EnqueueWhole(c, bytes);
    FlushMoves(Enqueue(c, bytes), script, now);
  }

  /** What one operation that queues `bytes` may leave: the peer's bytes stay a
      prefix of what was queued, and nothing goes missing unless a subscriber is
      cut loose; then all it had not read is gone, more than the limit. */
  predicate Accounted(c: Conn, d: Conn, bytes: seq<Byte>, cut: bool) {
    && WellFormed(d)
    && d.queued == c.queued + bytes
    && c.received <= d.received <= d.queued
    && (!cut ==> Whole(d))
    && (cut ==> Backlog(d) == 0 && |d.received| + SUBSCRIBER_BACKLOG < |d.queued|)
  }

  lemma LineAccounted(c: Conn, line: seq<Byte>, script: seq<Outcome>, now: nat)
    requires Whole(c)
    ensures var d := AfterSendLine(c, line, script, now).0;
      Accounted(c, d, line + [NEWLINE], false) && |d.queued| == |d.received| + Backlog(d)
  {
    FlushWhole(c, line + [NEWLINE], script, now);
  }

  lemma StepWhole(c: Conn, op: Op, now: nat)
    requires Whole(c)
    ensures Accounted(c, Step(c, op, now), Added(op), CutsLoose(c, op, now))
  {
    match op
    case SendLine(b, s) => LineAccounted(c, b, s, now);
    case SendSubscribed(b, s) => LineAccounted(c, b, s, now);
    case QueueFrames(b, s) => FlushWhole(c, b, s, now);
    case FlushOut(s) =>
      FlushWhole(c, [], s, now);
      assert Enqueue(c, []) == c;
  }

  /** How many bytes have been queued that are neither received nor still to go. */
  function Lost(c: Conn): int
    requires WellFormed(c)
  {
    |c.queued| - |c.received| - Backlog(c)
  }

  lemma FlushLosesNothing(c: Conn, bytes: seq<Byte>, script: seq<Outcome>, now: nat)
    requires WellFormed(c)
    ensures var d := Flushed(Enqueue(c, bytes), script, now).0;
      WellFormed(d) && Lost(d) == Lost(c) && d.queued == c.queued + bytes
  {
    var e := Enqueue(c, bytes);
    var d := Flushed(e, script, now).0;
    FlushMoves(e, script, now);
    assert |d.received + Unsent(d)| == |e.received + Unsent(e)|;
  }

  /** From any state, an operation queues its bytes and loses none unless it cuts the
      subscriber loose, and then some. */
  lemma StepLoses(c: Conn, op: Op, now: nat)
    requires WellFormed(c)
    ensures var d := Step(c, op, now);
      && WellFormed(d) && d.queued == c.queued + Added(op)
      && (CutsLoose(c, op, now) ==> Lost(d) > Lost(c))
      && (!CutsLoose(c, op, now) ==> Lost(d) == Lost(c))
  {
    match op
    case SendLine(b, s) => FlushLosesNothing(c, b + [NEWLINE], s, now);
    case SendSubscribed(b, s) => FlushLosesNothing(c, b + [NEWLINE], s, now);
    case QueueFrames(b, s) => FlushLosesNothing(c, b, s, now);
    case FlushOut(s) =>
      FlushLosesNothing(c, [], s, now);
      assert Enqueue(c, []) == c;
  }

  function Run(c: Conn, ops: seq<Op>, times: seq<nat>): (r: Conn)
    requires WellFormed(c) && |times| == |ops|
    ensures WellFormed(r)
    decreases |ops|
  {
    if ops == [] then c
    else
      StepLoses(c, ops[0], times[0]);
      Run(Step(c, ops[0], times[0]), ops[1..], times[1..])
  }

  function AllAdded(ops: seq<Op>): seq<Byte> {
    if ops == [] then [] else Added(ops[0]) + AllAdded(ops[1..])
  }

  /** No push of the run cuts the subscriber loose. */
  predicate KeepsUp(c: Conn, ops: seq<Op>, times: seq<nat>)
    requires WellFormed(c) && |times| == |ops|
    decreases |ops|
  {
    ops != [] ==>
      && !CutsLoose(c, ops[0], times[0])
      && (StepLoses(c, ops[0], times[0]); KeepsUp(Step(c, ops[0], times[0]), ops[1..], times[1..]))
  }

  /** For any socket and any run, cuts and what comes after them included: all the
      bytes are queued, and none is lost exactly when no push cuts the subscriber
      loose. */
  lemma {:induction false} RunLoses(c: Conn, ops: seq<Op>, times: seq<nat>)
    requires WellFormed(c) && |times| == |ops|
    ensures var d := Run(c, ops, times);
      && d.queued == c.queued + AllAdded(ops)
      && Lost(d) >= Lost(c)
      && (Lost(d) == Lost(c) <==> KeepsUp(c, ops, times))
    decreases |ops|
  {
    if ops != [] {
      StepLoses(c, ops[0], times[0]);
      RunLoses(Step(c, ops[0], times[0]), ops[1..], times[1..]);
      Associate(c.queued, Added(ops[0]), AllAdded(ops[1..]));
    }
  }

  lemma Extends(a: seq<Byte>, b: seq<Byte>, c: seq<Byte>)
    requires a <= b <= c
    ensures a <= c
  {
  }

  /** While nothing is lost, what the peer has is a prefix of what was queued, and
      with what is still unsent it is all of it. */
  lemma {:induction false} RunDelivers(c: Conn, ops: seq<Op>, times: seq<nat>)
    requires Whole(c) && |times| == |ops| && KeepsUp(c, ops, times)
    ensures var d := Run(c, ops, times);
      Whole(d) && d.queued == c.queued + AllAdded(ops) && c.received <= d.received <= d.queued
    decreases |ops|
  {
    if ops != [] {
      StepWhole(c, ops[0], times[0]);
      StepLoses(c, ops[0], times[0]);
      var d := Step(c, ops[0], times[0]);
      RunDelivers(d, ops[1..], times[1..]);
      Associate(c.queued, Added(ops[0]), AllAdded(ops[1..]));
      Extends(c.received, d.received, Run(c, ops, times).received);
    }
  }

  /** Once bytes are lost, a line the socket takes leaves the peer with a stream that
      has a hole in it, unless it happens to begin as the lost bytes do. */
  lemma HoleAfterLoss(c: Conn, line: seq<Byte>, now: nat)
    requires WellFormed(c) && Lost(c) > 0
    requires (line + [NEWLINE])[0] != c.queued[|c.received| + Backlog(c)]
    ensures var d := AfterSendLine(c, line, [Took(Backlog(c) + |line| + 1)], now).0;
      !(d.received <= d.queued)
  {
    var bytes, hole := line + [NEWLINE], |c.received| + Backlog(c);
    var e := Enqueue(c, bytes);
    var script := [Took(Backlog(c) + |bytes|)];
    var m := Wrote(e, Backlog(e), now);
    assert Unsent(e) == Unsent(c) + bytes;
    assert script[1..] == [];
    assert Flushed(e, script, now) == Flushed(m, [], now);
    assert m.received == c.received + Unsent(c) + bytes;
    assert m.received[hole] == bytes[0] && m.queued[hole] == c.queued[hole];
  }

  predicate PrefixAfter(c: Conn, line: seq<Byte>, script: seq<Outcome>, now: nat)
    requires WellFormed(c)
  {
    var d := AfterSendLine(c, line, script, now).0;
    d.received <= d.queued
  }

  /** The exact condition. After a run from a connection that has lost nothing, the
      peer's bytes stay a prefix of those queued whatever line is sent next and
      whatever the socket does with it, if and only if no push of the run cut the
      subscriber loose. */
  lemma PrefixSafeIff(c: Conn, ops: seq<Op>, times: seq<nat>)
    requires Whole(c) && |times| == |ops|
    ensures var d := Run(c, ops, times);
      (forall line, script, now :: PrefixAfter(d, line, script, now)) <==> KeepsUp(c, ops, times)
  {
    var d := Run(c, ops, times);
    assert |c.received + Unsent(c)| == |c.queued|;
    RunLoses(c, ops, times);
    if KeepsUp(c, ops, times) {
      RunDelivers(c, ops, times);
      forall line, script, now ensures PrefixAfter(d, line, script, now) {
        LineAccounted(d, line, script, now);
      }
    } else {
      var line: seq<Byte> := if d.queued[|d.received| + Backlog(d)] == NEWLINE then [0] else [];
      HoleAfterLoss(d, line, 0);
      assert !PrefixAfter(d, line, [Took(Backlog(d) + |line| + 1)], 0);
    }
  }

  /** A connection as it is accepted. */
  function NewConn(now: nat): Conn {
    Conn([], 0, false, now, false, false, [], [])
  }

  /** The hole is reached from a new connection: an event too long for a socket that
      takes nothing, then a line before the drop, which a cascade of drops can
      bring about. */
  lemma HoleFromNew(event: seq<Byte>, line: seq<Byte>)
    requires |event| >= SUBSCRIBER_BACKLOG && line != [] && line[0] != event[0]
    ensures var ops := [SendSubscribed(event, []), SendLine(line, [Took(|line| + 1)])];
      var d := Run(NewConn(0), ops, [0, 0]);
      !KeepsUp(NewConn(0), ops, [0, 0]) && !(d.received <= d.queued)
  {
    var ops := [SendSubscribed(event, []), SendLine(line, [Took(|line| + 1)])];
    var c, cut := NewConn(0), Step(NewConn(0), ops[0], 0);
    assert ops[1..] == [ops[1]] && ops[1..][1..] == [] && [0, 0][1..] == [0] && [0][1..] == [];
    assert Unsent(Enqueue(c, event + [NEWLINE])) == event + [NEWLINE];
    assert CutsLoose(c, ops[0], 0) && Backlog(cut) == 0 && cut.received == [] && cut.queued == event + [NEWLINE];
    HoleAfterLoss(cut, line, 0);
    assert Run(c, ops, [0, 0]) == Run(cut, ops[1..], [0]) == Step(cut, ops[1], 0);
  }

  // ----- the connection object -----

  class Socket {
    /** What its `write` calls will come back with, in order. */
    var script: seq<Outcome>
    var received: seq<Byte>

    constructor (script: seq<Outcome>)
      ensures this.script == script && received == []
    {
      this.script := script;
      received := [];
    }

    method Write(bytes: seq<Byte>) returns (o: Outcome)
      requires bytes != []
      modifies this
      ensures o == if old(script) == [] then WouldBlock
                   else if old(script)[0].Took? && old(script)[0].n > |bytes| then Took(|bytes|) else old(script)[0]
      ensures script == if old(script) == [] then [] else old(script)[1..]
      ensures o.Took? ==> received == old(received) + bytes[..o.n]
      ensures !o.Took? || o.n == 0 ==> received == old(received)
    {
      o := WouldBlock;
      if script != [] {
        o := script[0];
        script := script[1..];
        if o.Took? {
          if o.n > |bytes| {
            o := Took(|bytes|);
          }
          received := received + bytes[..o.n];
        }
      }
    }
  }

  class Client {
    const socket: Socket
    var outBuf: seq<Byte>
    var outPos: nat
    var wantsFlush: bool
    var lastProgress: nat
    var capture: bool
    ghost var failed: bool
    ghost var queued: seq<Byte>
    /** Times the loop has been woken for this client. */
    var pings: nat

    constructor (socket: Socket, now: nat)
      requires socket.received == []
      ensures this.socket == socket
      ensures Value() == NewConn(now) && Whole(Value()) && pings == 0
    {
      this.socket := socket;
      outBuf, outPos, wantsFlush, lastProgress, capture := [], 0, false, now, false;
      failed, queued, pings := false, [], 0;
    }

    ghost function Value(): Conn
      reads this, socket
    {
      Conn(outBuf, outPos, wantsFlush, lastProgress, capture, failed, queued, socket.received)
    }

    method FlushOut(now: nat) returns (r: FlushResult)
      requires WellFormed(Value())
      modifies this`outBuf, this`outPos, this`lastProgress, this`failed, socket
      ensures (Value(), r) == Flushed(old(Value()), old(socket.script), now)
    {
      while outPos < |outBuf|
        invariant WellFormed(Value())
        invariant Flushed(old(Value()), old(socket.script), now) == Flushed(Value(), socket.script, now)
        decreases |socket.script|, |outBuf| - outPos
      {
        ghost var before, script := Value(), socket.script;
        var o := socket.Write(outBuf[outPos..]);
        match o {
          case Took(n) =>
            if n == 0 {
              failed := true;
              assert Flushed(before, script, now) == (Value(), Failed);
              return Failed;
            }
            outPos := outPos + n;
            lastProgress := now;
            assert Value() == Wrote(before, n, now);
            assert Flushed(before, script, now) == Flushed(Value(), socket.script, now);
          case WouldBlock => return Blocked;
          case Interrupted =>
          case Broken =>
            failed := true;
            return Failed;
        }
      }
      outBuf := [];
      outPos := 0;
      return Drained;
    }

    method SendLine(line: seq<Byte>, now: nat) returns (ok: bool)
      requires WellFormed(Value())
      modifies this, socket
      ensures var (c, good, ping) := AfterSendLine(old(Value()), line, old(socket.script), now);
        Value() == c && ok == good && pings == old(pings) + (if ping then 1 else 0)
    {
      FlushMoves(Enqueue(Value(), line + [NEWLINE]), socket.script, now);
      outBuf := outBuf + line;
      outBuf := outBuf + [NEWLINE];
      queued := queued + line + [NEWLINE];
      assert Value() == Enqueue(old(Value()), line + [NEWLINE]) by {
        assert old(outBuf) + line + [NEWLINE] == old(outBuf) + (line + [NEWLINE]);
        assert old(queued) + line + [NEWLINE] == old(queued) + (line + [NEWLINE]);
      }
      var r := FlushOut(now);
      if r == Failed {
        return false;
      }
      if r == Blocked && !wantsFlush {
        wantsFlush := true;
        pings := pings + 1;
      }
      return true;
    }

    method SendSubscribed(line: seq<Byte>, now: nat) returns (ok: bool)
      requires WellFormed(Value())
      modifies this, socket
      ensures var (c, good, ping) := AfterSendSubscribed(old(Value()), line, old(socket.script), now);
        Value() == c && ok == good && pings == old(pings) + (if ping then 1 else 0)
    {
      FlushMoves(Enqueue(Value(), line + [NEWLINE]), socket.script, now);
      ok := SendLine(line, now);
      if ok && |outBuf| - outPos > SUBSCRIBER_BACKLOG {
        outBuf := [];
        outPos := 0;
        ok := false;
      }
    }

    method QueueFrames(frames: seq<seq<Byte>>, now: nat) returns (ok: bool)
      requires WellFormed(Value())
      modifies this, socket
      ensures (Value(), ok) == AfterQueueFrames(old(Value()), Flat(frames), old(socket.script), now)
      ensures pings == old(pings)
    {
      for i := 0 to |frames|
        invariant Value() == Enqueue(old(Value()), Flat(frames[..i]))
        invariant socket.script == old(socket.script) && pings == old(pings)
      {
        FlatNext(frames, i);
        Associate(old(outBuf), Flat(frames[..i]), frames[i]);
        Associate(old(queued), Flat(frames[..i]), frames[i]);
        outBuf := outBuf + frames[i];
        queued := queued + frames[i];
      }
      assert frames[..|frames|] == frames;
      var r := FlushOut(now);
      return r != Failed;
    }
  }
}
