/** Commands run for a client (`src/remote_command.rs`): two output pipes, the child's
    exit, a timeout and a grace period arrive in any order, and one reply goes out. */
module Command {
  import opened Wrappers
  import opened Connections

  const OUTPUT_CAP: nat := 64 * 1024
  /** In milliseconds. */
  const OUTPUT_GRACE: nat := 500

  type Id = nat

  datatype Pipe = Stdout | Stderr
  /** A child killed by a signal has no code. */
  datatype ExitStatus = ExitStatus(code: Option<int>)

  datatype Pending = Pending(
    client: ClientId, pid: int, exit: Option<ExitStatus>,
    stdoutBuf: seq<Byte>, stderrBuf: seq<Byte>, stdoutOpen: bool, stderrOpen: bool, truncated: bool,
    stdoutToken: bool, stderrToken: bool, timerToken: bool, graceToken: Option<int>)

  /** What is registered on the loop for a command. */
  datatype Source = PipeSource(id: Id, pipe: Pipe) | Timeout(id: Id) | Grace(id: Id, due: int)

  datatype Reply =
    | CommandResult(client: ClientId, id: Id, at: int, exitCode: int, stdout: seq<Byte>, stderr: seq<Byte>,
      truncated: bool)
    | SpawnFailed(client: ClientId)

  /** What goes wrong while a command is started. */
  datatype Fault = NoFault | CannotSpawn | CannotWatchStdout | CannotWatchStderr | CannotArmTimer

  /** What really happened to a command, in whatever order it did. `fault`: what went
      wrong at its start. `half`: it was recorded although its client was refused.
      `graceless`: its grace timer could not be registered. */
  datatype Past = Past(client: ClientId, stdout: seq<Byte>, stderr: seq<Byte>, stdoutEof: bool, stderrEof: bool,
                       exit: Option<ExitStatus>, exitAt: int, half: bool, fault: Fault, graceless: bool)

  /** Both pipes are watched, and the tokens to stop that are kept with the entry. */
  predicate Watchable(fault: Fault) {
    fault == NoFault || fault == CannotArmTimer
  }

  function Capped(s: seq<Byte>): seq<Byte> {
    if |s| <= OUTPUT_CAP then s else s[..OUTPUT_CAP]
  }

  /** One chunk arriving at a buffer that may be full. */
  function Taken(buf: seq<Byte>, bytes: seq<Byte>): seq<Byte> {
    var room := if |buf| <= OUTPUT_CAP then OUTPUT_CAP - |buf| else 0;
    buf + bytes[..if |bytes| < room then |bytes| else room]
  }

  /** Capping chunk by chunk is capping the whole. */
  lemma CappedByChunks(all: seq<Byte>, bytes: seq<Byte>)
    ensures Taken(Capped(all), bytes) == Capped(all + bytes)
    ensures |all + bytes| > OUTPUT_CAP <==> |all| > OUTPUT_CAP || |bytes| > OUTPUT_CAP - |Capped(all)|
  {
  }

  function Eof(h: Past, pipe: Pipe): Past {
    if pipe == Stdout then h.(stdoutEof := true) else h.(stderrEof := true)
  }

  ghost predicate TruncationShown(truncated: bool, h: Past) {
    truncated <==> |h.stdout| > OUTPUT_CAP || |h.stderr| > OUTPUT_CAP
  }

  /** A command in flight: its buffers hold the capped output so far. */
  ghost predicate EntryOk(p: Pending, h: Past) {
    && p.client == h.client && h.fault != CannotSpawn
    && p.stdoutBuf == Capped(h.stdout) && p.stderrBuf == Capped(h.stderr) && TruncationShown(p.truncated, h)
    && p.stdoutOpen == !h.stdoutEof && p.stderrOpen == !h.stderrEof && p.exit == h.exit
    && (p.graceToken.Some? ==> h.exit.Some? && p.graceToken.value == h.exitAt + OUTPUT_GRACE)
    && (h.graceless ==> h.exit.Some? && p.graceToken.None?)
    && p.stdoutToken == p.stderrToken == Watchable(h.fault) && (p.timerToken ==> h.fault == NoFault)
  }

  predicate Finished(p: Pending) {
    !p.stdoutOpen && !p.stderrOpen && p.exit.Some?
  }

  /** A result is sent for a child that has exited, once both pipes have closed or the
      grace is over, with all the output that came, capped. */
  ghost predicate ResultOk(r: Reply, h: Past)
    requires r.CommandResult?
  {
    && r.client == h.client
    && h.exit.Some? && r.exitCode == GetOr(h.exit.value.code, -1)
    && ((h.stdoutEof && h.stderrEof) || r.at >= h.exitAt + OUTPUT_GRACE)
    && r.stdout == Capped(h.stdout) && r.stderr == Capped(h.stderr) && TruncationShown(r.truncated, h)
  }

  ghost predicate ReplyOk(r: Reply, pending: map<Id, Pending>, past: map<Id, Past>, spent: map<ClientId, Option<Id>>) {
    && r.client in spent
    && (r.CommandResult? ==> r.id in past && r.id !in pending && ResultOk(r, past[r.id]))
    && (r.SpawnFailed? ==> spent[r.client].None? || (spent[r.client].value in past && past[spent[r.client].value].half))
  }

  ghost predicate RepliesOk(replies: seq<Reply>, pending: map<Id, Pending>, past: map<Id, Past>,
                            spent: map<ClientId, Option<Id>>) {
    && (forall i :: 0 <= i < |replies| ==> ReplyOk(replies[i], pending, past, spent))
    && (forall i, j :: 0 <= i < j < |replies| && replies[i].client == replies[j].client ==>
          replies[i].SpawnFailed? && replies[j].CommandResult?)
  }

  /** The client of every command that could not be watched has been told so. */
  ghost predicate HalfTold(past: map<Id, Past>, replies: seq<Reply>) {
    forall id {:trigger past[id].half} :: id in past && past[id].half ==> SpawnFailed(past[id].client) in replies
  }

  ghost predicate PastsOk(past: map<Id, Past>, spent: map<ClientId, Option<Id>>, nextId: Id, now: int) {
    forall id :: id in past ==>
      && id < nextId && past[id].exitAt <= now
      && past[id].client in spent && spent[past[id].client] == Some(id)
  }

  ghost predicate EntriesOk(pending: map<Id, Pending>, past: map<Id, Past>) {
    && pending.Keys <= past.Keys
    && forall id {:trigger EntryOk(pending[id], past[id])} :: id in pending && id in past ==>
       EntryOk(pending[id], past[id])
  }

  /** The standard output of a replied command is still watched: the token to stop
      that was not kept, and the pipe has not closed. */
  ghost predicate Stray(h: Past) {
    h.fault == CannotWatchStderr && !h.stdoutEof
  }

  ghost predicate SourceOk(s: Source, pending: map<Id, Pending>, past: map<Id, Past>) {
    && s.id in past
    && match s
       case PipeSource(id, Stdout) =>
         if id in pending then pending[id].stdoutOpen && past[id].fault != CannotWatchStdout else Stray(past[id])
       case PipeSource(id, Stderr) => id in pending && pending[id].stderrOpen && Watchable(past[id].fault)
       case Timeout(id) => id in pending && pending[id].timerToken
       case Grace(id, due) => id in pending && pending[id].graceToken == Some(due)
  }

  ghost predicate SourcesOk(armed: set<Source>, pending: map<Id, Pending>, past: map<Id, Past>) {
    forall s {:trigger SourceOk(s, pending, past)} :: s in armed ==> SourceOk(s, pending, past)
  }

  /** The loop still watches everything a pending command waits for. */
  ghost predicate Awaited(id: Id, p: Pending, h: Past, armed: set<Source>) {
    && (h.fault != CannotWatchStdout && p.stdoutOpen ==> PipeSource(id, Stdout) in armed)
    && (Watchable(h.fault) && p.stderrOpen ==> PipeSource(id, Stderr) in armed)
    && (p.timerToken ==> Timeout(id) in armed)
    && (p.graceToken.Some? ==> Grace(id, p.graceToken.value) in armed)
    && (p.exit.Some? ==> p.graceToken.Some? || h.graceless)
  }

  /** The same, the grace not yet begun. */
  ghost predicate Watched(id: Id, p: Pending, h: Past, armed: set<Source>) {
    Awaited(id, p.(exit := None), h, armed)
  }

  ghost predicate Settled(pending: map<Id, Pending>, past: map<Id, Past>, armed: set<Source>, besides: set<Id>) {
    && pending.Keys <= past.Keys
    && forall id {:trigger Awaited(id, pending[id], past[id], armed)} ::
         id in pending && id in past && id !in besides ==>
      Awaited(id, pending[id], past[id], armed) && !Finished(pending[id])
  }

  ghost predicate StraysKept(pending: map<Id, Pending>, past: map<Id, Past>, armed: set<Source>) {
    forall id {:trigger Stray(past[id])} :: id in past && id !in pending && Stray(past[id]) ==>
      PipeSource(id, Stdout) in armed
  }

  /** The sources a command holds tokens for. */
  function Tokens(id: Id, p: Pending): set<Source> {
    (if p.stdoutToken then {PipeSource(id, Stdout)} else {})
    + (if p.stderrToken then {PipeSource(id, Stderr)} else {})
    + (if p.timerToken then {Timeout(id)} else {})
    + if p.graceToken.Some? then {Grace(id, p.graceToken.value)} else {}
  }

  lemma TokensBut(id: Id, p: Pending)
    requires p.graceToken.Some?
    ensures Tokens(id, p) == {Grace(id, p.graceToken.value)} + Tokens(id, p.(graceToken := None))
  {
  }

  lemma SourcesRemoved(armed: set<Source>, pending: map<Id, Pending>, past: map<Id, Past>, id: Id)
    requires SourcesOk(armed, pending, past) && EntriesOk(pending, past) && id in pending
    ensures SourcesOk(armed - Tokens(id, pending[id]), pending - {id}, past)
  {
    assert EntryOk(pending[id], past[id]);
    forall s | s in armed - Tokens(id, pending[id]) ensures SourceOk(s, pending - {id}, past) {
      assert SourceOk(s, pending, past);
    }
  }

  lemma StraysRemoved(armed: set<Source>, pending: map<Id, Pending>, past: map<Id, Past>, id: Id)
    requires StraysKept(pending, past, armed) && EntriesOk(pending, past) && id in pending
    requires Stray(past[id]) ==> PipeSource(id, Stdout) in armed
    ensures StraysKept(pending - {id}, past, armed - Tokens(id, pending[id]))
  {
    assert EntryOk(pending[id], past[id]);
  }

  /** The one source a replied command may still have goes when its pipe closes. */
  lemma StrayGone(armed: set<Source>, pending: map<Id, Pending>, past: map<Id, Past>, id: Id, pipe: Pipe)
    requires SourcesOk(armed, pending, past) && Settled(pending, past, armed, {}) && id in past && id !in pending
    requires StraysKept(pending, past, armed) && PipeSource(id, pipe) in armed
    ensures pipe == Stdout
    ensures var left, after := armed - {PipeSource(id, pipe)}, past[id := Eof(past[id], pipe)];
      SourcesOk(left, pending, after) && Settled(pending, after, left, {}) && StraysKept(pending, after, left)
  {
    assert SourceOk(PipeSource(id, pipe), pending, past);
    var left, after := armed - {PipeSource(id, pipe)}, past[id := Eof(past[id], pipe)];
    forall s | s in left ensures SourceOk(s, pending, after) {
      assert SourceOk(s, pending, past);
    }
    forall k | k in pending ensures Awaited(k, pending[k], after[k], left) && !Finished(pending[k]) {
      assert Awaited(k, pending[k], past[k], armed);
    }
    forall k | k in after && k !in pending && Stray(after[k]) ensures PipeSource(k, Stdout) in left {
      assert Stray(past[k]);
    }
  }

  lemma StrayRecorded(replies: seq<Reply>, pending: map<Id, Pending>, past: map<Id, Past>,
                      spent: map<ClientId, Option<Id>>, id: Id, pipe: Pipe)
    requires RepliesOk(replies, pending, past, spent) && EntriesOk(pending, past) && HalfTold(past, replies)
    requires id in past && id !in pending
    ensures var after := past[id := Eof(past[id], pipe)];
      RepliesOk(replies, pending, after, spent) && EntriesOk(pending, after) && HalfTold(after, replies)
  {
    var after := past[id := Eof(past[id], pipe)];
    forall i | 0 <= i < |replies| ensures ReplyOk(replies[i], pending, after, spent) {
      assert ReplyOk(replies[i], pending, past, spent);
    }
    forall k | k in pending && k in after ensures EntryOk(pending[k], after[k]) {
      assert EntryOk(pending[k], past[k]);
    }
    forall k | k in after && after[k].half ensures SpawnFailed(after[k].client) in replies {
      assert past[k].half;
    }
  }

  lemma SettledRemoved(pending: map<Id, Pending>, past: map<Id, Past>, armed: set<Source>, id: Id)
    requires Settled(pending, past, armed, {id}) && id in pending
    ensures Settled(pending - {id}, past, armed - Tokens(id, pending[id]), {})
  {
    forall k | k in pending - {id} ensures Awaited(k, pending[k], past[k], armed - Tokens(id, pending[id]))
      && !Finished(pending[k]) {
      assert Awaited(k, pending[k], past[k], armed);
    }
  }

  lemma SettledAdded(pending: map<Id, Pending>, past: map<Id, Past>, armed: set<Source>, more: set<Source>,
                     id: Id, p: Pending, h: Past)
    requires Settled(pending, past, armed, {}) && id !in pending && id !in past
    requires !Finished(p) && Awaited(id, p, h, armed + more)
    ensures Settled(pending[id := p], past[id := h], armed + more, {})
  {
    forall k | k in pending ensures Awaited(k, pending[k], past[k], armed + more) && !Finished(pending[k]) {
      assert Awaited(k, pending[k], past[k], armed);
    }
  }

  lemma SettledBut(pending: map<Id, Pending>, past: map<Id, Past>, armed: set<Source>, id: Id)
    requires Settled(pending, past, armed, {})
    ensures Settled(pending, past, armed, {id})
    ensures id in pending ==> Awaited(id, pending[id], past[id], armed) && !Finished(pending[id])
  {
    forall k | k in pending ensures Awaited(k, pending[k], past[k], armed) && !Finished(pending[k]) {
      assert k !in {};
    }
  }

  lemma SettledAgain(pending: map<Id, Pending>, past: map<Id, Past>, armed: set<Source>, id: Id)
    requires Settled(pending, past, armed, {id})
    requires id in pending ==> Awaited(id, pending[id], past[id], armed) && !Finished(pending[id])
    ensures Settled(pending, past, armed, {})
  {
    forall k | k in pending ensures Awaited(k, pending[k], past[k], armed) && !Finished(pending[k]) {
      assert k in past && (k == id || k !in {id});
    }
  }

  // ----- one entry changes -----

  /** A later account of the same command. */
  ghost predicate Later(h: Past, was: Past) {
    h.client == was.client && h.half == was.half && h.fault == was.fault
  }

  lemma EntriesUpdated(pending: map<Id, Pending>, past: map<Id, Past>, id: Id, p: Pending, h: Past)
    requires EntriesOk(pending, past) && id in pending && EntryOk(p, h)
    ensures EntriesOk(pending[id := p], past[id := h])
  {
  }

  lemma PastsUpdated(past: map<Id, Past>, spent: map<ClientId, Option<Id>>, nextId: Id, now: int, id: Id, h: Past)
    requires PastsOk(past, spent, nextId, now) && id in past && Later(h, past[id]) && h.exitAt <= now
    ensures PastsOk(past[id := h], spent, nextId, now)
  {
  }

  lemma RepliesUpdated(replies: seq<Reply>, pending: map<Id, Pending>, past: map<Id, Past>,
                       spent: map<ClientId, Option<Id>>, id: Id, p: Pending, h: Past)
    requires RepliesOk(replies, pending, past, spent) && id in pending && id in past && Later(h, past[id])
    ensures RepliesOk(replies, pending[id := p], past[id := h], spent)
  {
  }

  lemma SettledUpdated(armed: set<Source>, kept: set<Source>, pending: map<Id, Pending>, past: map<Id, Past>,
                       id: Id, p: Pending, h: Past)
    requires Settled(pending, past, armed, {id}) && id in pending
    requires forall s: Source :: s.id != id ==> (s in kept <==> s in armed)
    ensures Settled(pending[id := p], past[id := h], kept, {id})
  {
    forall k | k in pending && k != id ensures Awaited(k, pending[k], past[k], kept) && !Finished(pending[k]) {
      assert Awaited(k, pending[k], past[k], armed);
    }
  }

  /** Sources other than the command's own are not touched by a change to it. */
  lemma SourcesUpdated(armed: set<Source>, kept: set<Source>, pending: map<Id, Pending>, past: map<Id, Past>,
                       id: Id, p: Pending, h: Past)
    requires SourcesOk(armed, pending, past)
    requires forall s :: s in kept && s.id == id ==> SourceOk(s, pending[id := p], past[id := h])
    requires forall s :: s in kept && s.id != id ==> s in armed
    ensures SourcesOk(kept, pending[id := p], past[id := h])
  {
    forall s | s in kept ensures SourceOk(s, pending[id := p], past[id := h]) {
      if s.id != id {
        assert SourceOk(s, pending, past);
      }
    }
  }

  // ----- an entry comes or goes -----

  lemma EntriesRemoved(pending: map<Id, Pending>, past: map<Id, Past>, id: Id)
    requires EntriesOk(pending, past)
    ensures EntriesOk(pending - {id}, past)
  {
  }

  lemma EntryAdded(pending: map<Id, Pending>, past: map<Id, Past>, id: Id, p: Pending, h: Past)
    requires EntriesOk(pending, past) && id !in pending && EntryOk(p, h)
    ensures EntriesOk(pending[id := p], past[id := h])
  {
  }

  lemma RepliesKept(replies: seq<Reply>, pending: map<Id, Pending>, past: map<Id, Past>,
                    spent: map<ClientId, Option<Id>>, id: Id, p: Pending, h: Past)
    requires RepliesOk(replies, pending, past, spent) && id !in past && h.client !in spent && id !in pending
    ensures RepliesOk(replies, pending[id := p], past[id := h], spent[h.client := Some(id)])
  {
  }

  lemma PastAdded(past: map<Id, Past>, spent: map<ClientId, Option<Id>>, nextId: Id, now: int, h: Past)
    requires PastsOk(past, spent, nextId, now) && h.client !in spent && h.exitAt <= now
    ensures nextId !in past && PastsOk(past[nextId := h], spent[h.client := Some(nextId)], nextId + 1, now)
  {
  }

  /** The entry of a command just spawned, its tokens those that registering gave. */
  function Fresh(client: ClientId, pid: int, timeout: bool, fault: Fault): Pending {
    var kept := Watchable(fault);
    Pending(client, pid, None, [], [], true, true, false, kept, kept, timeout && fault == NoFault, None)
  }

  /** The account once the child has exited: with a pipe still open the grace begins, if
      it can. */
  ghost function Reaped(h: Past, status: ExitStatus, now: int, graceOk: bool): Past {
    h.(exit := Some(status), exitAt := now, graceless := !graceOk && !(h.stdoutEof && h.stderrEof))
  }

  lemma ReapedEntry(id: Id, p: Pending, h: Past, status: ExitStatus, now: int, graceOk: bool, armed: set<Source>)
    requires EntryOk(p, h) && p.exit.None? && Awaited(id, p, h, armed)
    ensures var q, g := p.(exit := Some(status)), Reaped(h, status, now, graceOk);
      && EntryOk(q, g) && Later(g, h) && Watched(id, q, g, armed) && q.graceToken.None?
      && g.graceless == (!graceOk && !Finished(q))
  {
    assert p.graceToken.None?;
  }

  /** What is registered for it: the pipes one after the other, then the timer. */
  function Watching(id: Id, timeout: bool, fault: Fault): set<Source> {
    (if fault == CannotWatchStdout then {} else {PipeSource(id, Stdout)})
    + (if Watchable(fault) then {PipeSource(id, Stderr)} else {})
    + if timeout && fault == NoFault then {Timeout(id)} else {}
  }

  lemma SourcesAdded(armed: set<Source>, pending: map<Id, Pending>, past: map<Id, Past>, id: Id, p: Pending, h: Past,
                     timeout: bool, fault: Fault)
    requires SourcesOk(armed, pending, past) && id !in past && p.stdoutOpen && p.stderrOpen
    requires p == Fresh(p.client, p.pid, timeout, fault) && h.fault == fault
    ensures SourcesOk(armed + Watching(id, timeout, fault), pending[id := p], past[id := h])
  {
    forall s | s in armed + Watching(id, timeout, fault) ensures SourceOk(s, pending[id := p], past[id := h]) {
      assert s in armed ==> SourceOk(s, pending, past);
    }
  }

  lemma RefusalAdded(replies: seq<Reply>, pending: map<Id, Pending>, past: map<Id, Past>,
                     spent: map<ClientId, Option<Id>>, client: ClientId)
    requires RepliesOk(replies, pending, past, spent) && client in spent
    requires forall i :: 0 <= i < |replies| ==> replies[i].client != client
    requires spent[client].None? || (spent[client].value in past && past[spent[client].value].half)
    ensures RepliesOk(replies + [SpawnFailed(client)], pending, past, spent)
  {
  }

  lemma RefusedAtOnce(replies: seq<Reply>, pending: map<Id, Pending>, past: map<Id, Past>,
                      spent: map<ClientId, Option<Id>>, client: ClientId)
    requires RepliesOk(replies, pending, past, spent) && client !in spent
    ensures RepliesOk(replies, pending, past, spent[client := None])
    ensures RepliesOk(replies + [SpawnFailed(client)], pending, past, spent[client := None])
  {
  }

  lemma ResultAdded(replies: seq<Reply>, pending: map<Id, Pending>, past: map<Id, Past>,
                    spent: map<ClientId, Option<Id>>, nextId: Id, now: int, r: Reply)
    requires RepliesOk(replies, pending, past, spent) && PastsOk(past, spent, nextId, now)
    requires r.CommandResult? && r.id in pending && r.id in past && ResultOk(r, past[r.id])
    ensures RepliesOk(replies + [r], pending - {r.id}, past, spent)
  {
  }

  // ----- a command is recorded -----

  lemma RecordAdded(pending: map<Id, Pending>, past: map<Id, Past>, spent: map<ClientId, Option<Id>>, nextId: Id,
                    now: int, p: Pending, h: Past)
    requires EntriesOk(pending, past) && EntryOk(p, h)
    requires PastsOk(past, spent, nextId, now) && h.client !in spent && h.exitAt <= now
    ensures EntriesOk(pending[nextId := p], past[nextId := h])
    ensures PastsOk(past[nextId := h], spent[h.client := Some(nextId)], nextId + 1, now)
  {
    PastAdded(past, spent, nextId, now, h);
    EntryAdded(pending, past, nextId, p, h);
  }

  lemma RecordWatched(armed: set<Source>, pending: map<Id, Pending>, past: map<Id, Past>, id: Id, p: Pending, h: Past,
                      timeout: bool, fault: Fault)
    requires SourcesOk(armed, pending, past) && StraysKept(pending, past, armed) && Settled(pending, past, armed, {})
    requires id !in past && p == Fresh(p.client, p.pid, timeout, fault) && h.fault == fault != CannotSpawn
    requires EntryOk(p, h)
    ensures var more := armed + Watching(id, timeout, fault);
      && SourcesOk(more, pending[id := p], past[id := h]) && StraysKept(pending[id := p], past[id := h], more)
      && Settled(pending[id := p], past[id := h], more, {})
  {
    SourcesAdded(armed, pending, past, id, p, h, timeout, fault);
    SettledAdded(pending, past, armed, Watching(id, timeout, fault), id, p, h);
  }

  lemma RecordTold(replies: seq<Reply>, pending: map<Id, Pending>, past: map<Id, Past>,
                   spent: map<ClientId, Option<Id>>, id: Id, now: int, p: Pending, h: Past)
    requires RepliesOk(replies, pending, past, spent) && HalfTold(past, replies)
    requires PastsOk(past, spent, id, now) && id !in pending && h.client !in spent
    ensures RepliesOk(replies, pending[id := p], past[id := h], spent[h.client := Some(id)])
    ensures HalfTold(past[id := h], if h.half then replies + [SpawnFailed(h.client)] else replies)
    ensures h.half ==> RepliesOk(replies + [SpawnFailed(h.client)], pending[id := p], past[id := h],
                       spent[h.client := Some(id)])
  {
    RepliesKept(replies, pending, past, spent, id, p, h);
    if h.half {
      assert forall i :: 0 <= i < |replies| ==> ReplyOk(replies[i], pending, past, spent);
      RefusalAdded(replies, pending[id := p], past[id := h], spent[h.client := Some(id)], h.client);
    }
  }

  function Shut(p: Pending, pipe: Pipe): Pending {
    if pipe == Stdout then p.(stdoutOpen := false) else p.(stderrOpen := false)
  }

  lemma ShutEntry(p: Pending, h: Past, pipe: Pipe)
    requires EntryOk(p, h)
    ensures EntryOk(Shut(p, pipe), Eof(h, pipe))
  {
    var q, g := Shut(p, pipe), Eof(h, pipe);
    assert q.stdoutBuf == p.stdoutBuf && q.stderrBuf == p.stderrBuf && q.truncated == p.truncated;
    assert g.stdout == h.stdout && g.stderr == h.stderr;
  }

  lemma ShutOk(id: Id, p: Pending, h: Past, pipe: Pipe, armed: set<Source>)
    requires EntryOk(p, h) && Awaited(id, p, h, armed)
    ensures var q, g := Shut(p, pipe), Eof(h, pipe);
      && EntryOk(q, g) && Later(g, h) && g.exitAt == h.exitAt
      && Awaited(id, q, g, armed - {PipeSource(id, pipe)})
      && (Finished(q) <==> g.stdoutEof && g.stderrEof && g.exit.Some?)
  {
    ShutEntry(p, h, pipe);
    if pipe == Stdout {
      assert Awaited(id, Shut(p, Stdout), Eof(h, Stdout), armed - {PipeSource(id, Stdout)});
    } else {
      assert Awaited(id, Shut(p, Stderr), Eof(h, Stderr), armed - {PipeSource(id, Stderr)});
    }
  }

  function Heard(h: Past, pipe: Pipe, bytes: seq<Byte>): Past {
    if pipe == Stdout then h.(stdout := h.stdout + bytes) else h.(stderr := h.stderr + bytes)
  }

  /** A chunk into its buffer: as much as there is room for. */
  method Append(p: Pending, pipe: Pipe, bytes: seq<Byte>, ghost h: Past) returns (q: Pending)
    requires EntryOk(p, h)
    ensures EntryOk(q, Heard(h, pipe, bytes))
    ensures q == p.(stdoutBuf := q.stdoutBuf, stderrBuf := q.stderrBuf, truncated := q.truncated)
  {
    q := p;
    var target := if pipe == Stdout then p.stdoutBuf else p.stderrBuf;
    var room := if |target| <= OUTPUT_CAP then OUTPUT_CAP - |target| else 0;
    if |bytes| > room {
      q := q.(truncated := true);
    }
    if pipe == Stdout {
      CappedByChunks(h.stdout, bytes);
      q := q.(stdoutBuf := Taken(target, bytes));
    } else {
      CappedByChunks(h.stderr, bytes);
      q := q.(stderrBuf := Taken(target, bytes));
    }
  }

  lemma Overwritten<V>(m: map<Id, V>, id: Id, v: V, u: V)
    ensures m[id := v][id := u] == m[id := u]
    ensures m[id := v] - {id} == m - {id}
  {
  }

  lemma SourcesStayBut(armed: set<Source>, pending: map<Id, Pending>, past: map<Id, Past>,
                       id: Id, p: Pending, h: Past, gone: Source)
    requires SourcesOk(armed, pending, past) && id in pending && id in past && Later(h, past[id]) && gone.id == id
             && gone in armed
    requires gone != PipeSource(id, Stdout) ==> p.stdoutOpen == pending[id].stdoutOpen
    requires gone != PipeSource(id, Stderr) ==> p.stderrOpen == pending[id].stderrOpen
    requires !gone.Timeout? ==> p.timerToken == pending[id].timerToken
    requires !gone.Grace? ==> p.graceToken == pending[id].graceToken
    ensures forall s :: s in armed - {gone} && s.id == id ==> SourceOk(s, pending[id := p], past[id := h])
  {
    forall s | s in armed - {gone} && s.id == id ensures SourceOk(s, pending[id := p], past[id := h]) {
      assert SourceOk(s, pending, past);
      assert gone.Grace? ==> SourceOk(gone, pending, past);
    }
  }

  lemma SourcesShut(armed: set<Source>, pending: map<Id, Pending>, past: map<Id, Past>, id: Id, pipe: Pipe)
    requires SourcesOk(armed, pending, past) && id in pending && id in past && PipeSource(id, pipe) in armed
    ensures forall s :: s in armed - {PipeSource(id, pipe)} && s.id == id ==>
              SourceOk(s, pending[id := Shut(pending[id], pipe)], past[id := Eof(past[id], pipe)])
  {
    SourcesStayBut(armed, pending, past, id, Shut(pending[id], pipe), Eof(past[id], pipe), PipeSource(id, pipe));
  }

  lemma SourcesStayWith(armed: set<Source>, pending: map<Id, Pending>, past: map<Id, Past>,
                        id: Id, p: Pending, h: Past, added: Source)
    requires SourcesOk(armed, pending, past) && id in pending && id in past && h == past[id]
    requires added.Grace? && added.id == id && pending[id].graceToken.None?
             && p == pending[id].(graceToken := Some(added.due))
    ensures forall s :: s in armed + {added} && s.id == id ==> SourceOk(s, pending[id := p], past[id := h])
  {
    forall s | s in armed + {added} && s.id == id ensures SourceOk(s, pending[id := p], past[id := h]) {
      assert s != added ==> SourceOk(s, pending, past);
    }
  }

  /** Its sources stay right while an entry keeps its tokens and its pipes open. */
  lemma SourcesStay(armed: set<Source>, pending: map<Id, Pending>, past: map<Id, Past>, id: Id, p: Pending, h: Past)
    requires SourcesOk(armed, pending, past) && id in pending && id in past && Later(h, past[id])
    requires p.stdoutOpen == pending[id].stdoutOpen && p.stderrOpen == pending[id].stderrOpen
    requires p.timerToken == pending[id].timerToken && p.graceToken == pending[id].graceToken
    ensures forall s :: s in armed && s.id == id ==> SourceOk(s, pending[id := p], past[id := h])
  {
    forall s | s in armed && s.id == id ensures SourceOk(s, pending[id := p], past[id := h]) {
      assert SourceOk(s, pending, past);
    }
  }

  class Commands {
    var now: int
    var pending: map<Id, Pending>
    var nextId: Id
    var armed: set<Source>
    var replies: seq<Reply>
    /** The process groups killed. */
    var killed: seq<int>
    ghost var past: map<Id, Past>
    /** Clients that have made their one request. */
    ghost var spent: map<ClientId, Option<Id>>

    constructor ()
      ensures Valid() && pending == map[] && replies == [] && spent == map[] && nextId == 0 && armed == {}
    {
      now, pending, nextId, armed, replies, killed := 0, map[], 0, {}, [], [];
      past, spent := map[], map[];
    }

    ghost predicate Steady()
      reads this
    {
      && EntriesOk(pending, past) && PastsOk(past, spent, nextId, now)
      && RepliesOk(replies, pending, past, spent)
      && SourcesOk(armed, pending, past) && StraysKept(pending, past, armed)
    }

    /** Everything but that no finished command is still pending. */
    ghost predicate Sound()
      reads this
    {
      Steady() && HalfTold(past, replies)
    }

    ghost predicate Valid()
      reads this
    {
      Sound() && Settled(pending, past, armed, {})
    }

    /** At most one reply goes to a client, unless watching its child failed after
        the command was already recorded. */
    lemma AtMostOneReply(i: nat, j: nat)
      requires Valid() && i < j < |replies| && replies[i].client == replies[j].client
      ensures replies[i].SpawnFailed? && replies[j].CommandResult? && past[replies[j].id].half
    {
    }

    /** And then it always does get both: the result of a command that was recorded but
        could not be watched follows the refusal of the same client. */
    lemma HalfAnsweredTwice(j: nat)
      requires Valid() && j < |replies| && replies[j].CommandResult?
      requires replies[j].id in past && past[replies[j].id].half
      ensures exists i :: 0 <= i < j && replies[i] == SpawnFailed(replies[j].client)
    {
      assert ReplyOk(replies[j], pending, past, spent);
      var i :| 0 <= i < |replies| && replies[i] == SpawnFailed(replies[j].client);
    }

    /** Where both pipes could be watched, a pending command whose child has exited
        still has an open pipe watched. And whatever could be watched, the wait then
        ends at the latest with the grace, unless that could not be arranged. */
    lemma StillAwaited(id: Id)
      requires Valid() && id in pending && past[id].exit.Some?
      ensures Watchable(past[id].fault) ==>
                || (!past[id].stdoutEof && PipeSource(id, Stdout) in armed)
                || (!past[id].stderrEof && PipeSource(id, Stderr) in armed)
      ensures !past[id].graceless ==> Grace(id, past[id].exitAt + OUTPUT_GRACE) in armed
    {
      SettledBut(pending, past, armed, id);
      assert EntryOk(pending[id], past[id]);
    }

    /** A command whose child has exited stays pending with nothing left on the loop to
        end that exactly when the grace could not be arranged and an unwatched pipe is
        waited for: standard output never was watched, or was and has closed, and
        standard error never was. */
    lemma AbandonedIff(id: Id)
      requires Valid() && id in pending && past[id].exit.Some?
      ensures (forall s :: s in armed ==> s.id != id) <==>
              past[id].graceless
              && (past[id].fault == CannotWatchStdout || (past[id].fault == CannotWatchStderr && past[id].stdoutEof))
    {
      SettledBut(pending, past, armed, id);
      assert EntryOk(pending[id], past[id]);
      forall s | s in armed && s.id == id ensures SourceOk(s, pending, past) {
      }
      StillAwaited(id);
    }

    /** Once the reply is out nothing of the command stays on the loop, with one
        exception: the watch on its standard output, when watching standard error had
        failed, until that pipe closes. */
    lemma NothingOutlivesTheReply(id: Id, s: Source)
      requires Valid() && id in past && id !in pending && s.id == id
      ensures s in armed <==> s == PipeSource(id, Stdout) && past[id].fault == CannotWatchStderr && !past[id].stdoutEof
    {
      assert s in armed ==> SourceOk(s, pending, past);
      assert Stray(past[id]) ==> PipeSource(id, Stdout) in armed;
    }

    /** Write the entry and the account of `id`, and the sources with them. */
    method Update(id: Id, p: Pending, ghost h: Past, kept: set<Source>)
      requires Sound() && id in pending && EntryOk(p, h)
      requires id in past && Later(h, past[id]) && h.exitAt <= now
      requires forall s :: s in kept && s.id == id ==> SourceOk(s, pending[id := p], past[id := h])
      requires forall s: Source :: s.id != id ==> (s in kept <==> s in armed)
      requires Settled(pending, past, armed, {id})
      modifies this`pending, this`past, this`armed
      ensures Sound() && pending == old(pending)[id := p] && past == old(past)[id := h] && armed == kept
      ensures Settled(pending, past, armed, {id})
    {
      EntriesUpdated(pending, past, id, p, h);
      PastsUpdated(past, spent, nextId, now, id, h);
      RepliesUpdated(replies, pending, past, spent, id, p, h);
      SourcesUpdated(armed, kept, pending, past, id, p, h);
      SettledUpdated(armed, kept, pending, past, id, p, h);
      pending, past, armed := pending[id := p], past[id := h], kept;
    }

    /** The same with the sources as they are. */
    method UpdateInPlace(id: Id, p: Pending, ghost h: Past)
      requires Valid() && id in pending && EntryOk(p, h)
      requires id in past && Later(h, past[id]) && h.exitAt <= now
      requires p.stdoutOpen == pending[id].stdoutOpen && p.stderrOpen == pending[id].stderrOpen
      requires p.timerToken == pending[id].timerToken && p.graceToken == pending[id].graceToken
      modifies this`pending, this`past, this`armed
      ensures Sound() && pending == old(pending)[id := p] && past == old(past)[id := h] && armed == old(armed)
      ensures Settled(pending, past, armed, {id})
    {
      SettledBut(pending, past, armed, id);
      SourcesStay(armed, pending, past, id, p, h);
      Update(id, p, h, armed);
    }

    /** The same with the account unchanged. */
    method UpdateEntry(id: Id, p: Pending, kept: set<Source>)
      requires Sound() && id in pending && EntryOk(p, past[id])
      requires forall s :: s in kept && s.id == id ==> SourceOk(s, pending[id := p], past[id := past[id]])
      requires forall s: Source :: s.id != id ==> (s in kept <==> s in armed)
      requires Settled(pending, past, armed, {id})
      modifies this`pending, this`past, this`armed
      ensures Sound() && pending == old(pending)[id := p] && past == old(past) && armed == kept
      ensures Settled(pending, past, armed, {id})
    {
      assert past[id := past[id]] == past;
      Update(id, p, past[id], kept);
    }

    /** Start a command and, when that fails, say so at once. The entry is made before
        the pipes and the timer are registered, and stays when one of those fails. */
    method RunCommand(client: ClientId, emptyArgv: bool, pid: int, timeout: bool, fault: Fault) returns (started: bool)
      requires Valid() && client !in spent
      modifies this
      ensures Valid() && now == old(now) && killed == old(killed) && spent.Keys == old(spent).Keys + {client}
      ensures var spawned := !emptyArgv && fault != CannotSpawn;
        && (started <==> spawned && (fault == NoFault || (fault == CannotArmTimer && !timeout)))
        && replies == old(replies) + (if started then [] else [SpawnFailed(client)])
        && nextId == old(nextId) + (if spawned then 1 else 0)
        && pending == (if spawned then old(pending)[old(nextId) := Fresh(client, pid, timeout, fault)]
           else old(pending))
        && past == (if spawned then old(past)[old(nextId) :=
           Past(client, [], [], false, false, None, now, !started, fault, false)] else old(past))
        && armed == old(armed) + (if spawned then Watching(old(nextId), timeout, fault) else {})
    {
      started := !emptyArgv && (fault == NoFault || (fault == CannotArmTimer && !timeout));
      if !emptyArgv && fault != CannotSpawn {
        Record(client, pid, timeout, fault, !started);
      } else {
        Spend(client);
      }
      if !started {
        replies := replies + [SpawnFailed(client)];
      }
    }

    /** A request that gets no entry. */
    ghost method Spend(client: ClientId)
      requires Valid() && client !in spent
      modifies this`spent
      ensures Valid() && spent == old(spent)[client := None]
      ensures RepliesOk(replies + [SpawnFailed(client)], pending, past, spent)
    {
      RefusedAtOnce(replies, pending, past, spent, client);
      spent := spent[client := None];
    }

    method Record(client: ClientId, pid: int, timeout: bool, fault: Fault, ghost half: bool)
      requires Valid() && client !in spent && fault != CannotSpawn
      modifies this`pending, this`past, this`armed, this`nextId, this`spent
      ensures Steady() && Settled(pending, past, armed, {})
      ensures HalfTold(past, if half then replies + [SpawnFailed(client)] else replies)
      ensures spent == old(spent)[client := Some(old(nextId))] && nextId == old(nextId) + 1
      ensures pending == old(pending)[old(nextId) := Fresh(client, pid, timeout, fault)]
      ensures past == old(past)[old(nextId) := Past(client, [], [], false, false, None, now, half, fault, false)]
      ensures armed == old(armed) + Watching(old(nextId), timeout, fault)
      ensures half ==> RepliesOk(replies + [SpawnFailed(client)], pending, past, spent)
    {
      var id := nextId;
      var p := Fresh(client, pid, timeout, fault);
      ghost var h := Past(client, [], [], false, false, None, now, half, fault, false);
      RecordAdded(pending, past, spent, id, now, p, h);
      RecordWatched(armed, pending, past, id, p, h, timeout, fault);
      RecordTold(replies, pending, past, spent, id, now, p, h);
      nextId := nextId + 1;
      pending, past, spent := pending[id := p], past[id := h], spent[client := Some(id)];
      armed := armed + Watching(id, timeout, fault);
    }

    /** A chunk arrives. With the reply gone it is discarded. */
    method Output(id: Id, pipe: Pipe, bytes: seq<Byte>)
      requires Valid() && PipeSource(id, pipe) in armed
      modifies this`pending, this`past, this`armed
      ensures Valid() && armed == old(armed)
      ensures id !in old(pending) ==> pending == old(pending) && past == old(past)
      ensures id in old(pending) ==>
        && past == old(past)[id := Heard(old(past)[id], pipe, bytes)]
        && id in pending
        && pending == old(pending)[id := old(pending)[id].(stdoutBuf := pending[id].stdoutBuf,
           stderrBuf := pending[id].stderrBuf, truncated := pending[id].truncated)]
    {
      if id in pending {
        SettledBut(pending, past, armed, id);
        var p := Append(pending[id], pipe, bytes, past[id]);
        UpdateInPlace(id, p, Heard(past[id], pipe, bytes));
        SettledAgain(pending, past, armed, id);
      }
    }

    /** A pipe reports end of file, and leaves the loop. */
    method PipeClosed(id: Id, pipe: Pipe)
      requires Valid() && PipeSource(id, pipe) in armed
      modifies this`pending, this`past, this`armed, this`replies
      ensures Valid() && id in old(past) && past == old(past)[id := Eof(old(past)[id], pipe)]
      ensures id !in old(pending) ==>
                pending == old(pending) && replies == old(replies) && armed == old(armed) - {PipeSource(id, pipe)}
      ensures id in old(pending) ==>
        var h, left := Eof(old(past)[id], pipe), old(armed) - {PipeSource(id, pipe)};
        var done := h.stdoutEof && h.stderrEof && h.exit.Some?;
        && Outcome(old(pending), old(replies), id, done, Shut(old(pending)[id], pipe))
        && armed == if done then left - Tokens(id, old(pending)[id]) else left
    {
      assert SourceOk(PipeSource(id, pipe), pending, past);
      if id !in pending {
        CloseStray(id, pipe);
      } else {
        MarkClosed(id, pipe);
        ghost var p := pending[id];
        MaybeFinalize(id);
        Overwritten(old(pending), id, p, p);
      }
    }

    method CloseStray(id: Id, pipe: Pipe)
      requires Valid() && PipeSource(id, pipe) in armed && id in past && id !in pending
      modifies this`armed, this`past
      ensures Valid() && past == old(past)[id := Eof(old(past)[id], pipe)]
      ensures armed == old(armed) - {PipeSource(id, pipe)}
    {
      StrayGone(armed, pending, past, id, pipe);
      StrayRecorded(replies, pending, past, spent, id, pipe);
      PastsUpdated(past, spent, nextId, now, id, Eof(past[id], pipe));
      armed, past := armed - {PipeSource(id, pipe)}, past[id := Eof(past[id], pipe)];
    }

    method MarkClosed(id: Id, pipe: Pipe)
      requires Valid() && PipeSource(id, pipe) in armed && id in pending
      modifies this`pending, this`past, this`armed
      ensures Sound() && Settled(pending, past, armed, {id}) && id in pending
              && Awaited(id, pending[id], past[id], armed)
      ensures armed == old(armed) - {PipeSource(id, pipe)}
      ensures past == old(past)[id := Eof(old(past)[id], pipe)]
      ensures pending == old(pending)[id := Shut(old(pending)[id], pipe)]
      ensures Finished(pending[id]) <==> past[id].stdoutEof && past[id].stderrEof && past[id].exit.Some?
    {
      SettledBut(pending, past, armed, id);
      ShutOk(id, pending[id], past[id], pipe, armed);
      var p := Shut(pending[id], pipe);
      ghost var h := Eof(past[id], pipe);
      SourcesShut(armed, pending, past, id, pipe);
      Update(id, p, h, armed - {PipeSource(id, pipe)});
    }

    /** `id` was answered if `done` and is still pending, as `p`, if not; nothing else
        changed. */
    ghost predicate Outcome(was: map<Id, Pending>, sent: seq<Reply>, id: Id, done: bool, p: Pending)
      reads this
    {
      && (done ==> |replies| == |sent| + 1 && replies[..|sent|] == sent
                   && replies[|sent|].CommandResult? && replies[|sent|].id == id)
      && (!done ==> replies == sent)
      && pending == if done then was - {id} else was[id := p]
    }

    method MaybeFinalize(id: Id)
      requires Sound() && id in pending && Settled(pending, past, armed, {id})
      requires Awaited(id, pending[id], past[id], armed)
      modifies this`pending, this`armed, this`replies
      ensures Valid() && Outcome(old(pending), old(replies), id, old(Finished(pending[id])), old(pending[id]))
      ensures armed == if old(Finished(pending[id])) then old(armed) - Tokens(id, old(pending[id])) else old(armed)
    {
      assert EntryOk(pending[id], past[id]);
      if Finished(pending[id]) {
        Finalize(id);
      } else {
        SettledAgain(pending, past, armed, id);
      }
    }

    /** Reply with what has arrived, and stop watching. */
    method Finalize(id: Id)
      requires Sound() && id in pending && Settled(pending, past, armed, {id})
      requires pending[id].exit.Some? && (Finished(pending[id]) || now >= past[id].exitAt + OUTPUT_GRACE)
      requires Stray(past[id]) ==> PipeSource(id, Stdout) in armed
      modifies this`pending, this`armed, this`replies
      ensures Valid() && armed == old(armed) - Tokens(id, old(pending[id]))
      ensures Outcome(old(pending), old(replies), id, true, old(pending[id]))
    {
      var p := pending[id];
      var r := CommandResult(p.client, id, now, GetOr(p.exit.value.code, -1), p.stdoutBuf, p.stderrBuf, p.truncated);
      assert EntryOk(p, past[id]);
      ResultAdded(replies, pending, past, spent, nextId, now, r);
      SourcesRemoved(armed, pending, past, id);
      StraysRemoved(armed, pending, past, id);
      SettledRemoved(pending, past, armed, id);
      EntriesRemoved(pending, past, id);
      pending := pending - {id};
      armed := armed - Tokens(id, p);
      replies := replies + [r];
    }

    method FindByPid(pid: int) returns (found: Option<Id>)
      ensures found.None? ==> forall id :: id in pending ==> pending[id].pid != pid
      ensures found.Some? ==> found.value in pending && pending[found.value].pid == pid
    {
      var ids := set id | id in pending && pending[id].pid == pid;
      if ids == {} {
        assert forall id :: id in pending && pending[id].pid == pid ==> id in ids;
        found := None;
      } else {
        var id :| id in ids;
        found := Some(id);
      }
    }

    /** The reaper delivers a status: for a command's child, the reply goes out or the
        grace begins. Without the grace's timer the reply waits for the pipes. */
    method NoteReaped(pid: int, status: ExitStatus, graceOk: bool) returns (matched: Option<Id>)
      requires Valid() && forall id :: id in pending && pending[id].pid == pid ==> pending[id].exit.None?
      modifies this`pending, this`past, this`armed, this`replies
      ensures Valid()
      ensures matched.None? ==> forall id :: id in old(pending) ==> old(pending)[id].pid != pid
      ensures matched.None? ==>
                pending == old(pending) && past == old(past) && replies == old(replies) && armed == old(armed)
      ensures matched.Some? ==>
                var id := matched.value;
                && id in old(pending) && old(pending)[id].pid == pid && id in old(past)
                && past == old(past)[id := Reaped(old(past)[id], status, now, graceOk)]
                && Concluded(old(pending), old(replies), old(armed), id,
                   old(pending)[id].(exit := Some(status)), graceOk)
    {
      matched := FindByPid(pid);
      if matched.Some? {
        Reap(matched.value, status, graceOk);
      }
    }

    /** What becomes of a command whose child has exited, its entry then `p`. */
    ghost predicate Concluded(was: map<Id, Pending>, sent: seq<Reply>, watched: set<Source>, id: Id, p: Pending,
                              graceOk: bool)
      reads this
    {
      var due := now + OUTPUT_GRACE;
      if Finished(p) then Outcome(was, sent, id, true, p) && armed == watched - Tokens(id, p)
      else if graceOk then
        Outcome(was, sent, id, false, p.(graceToken := Some(due))) && armed == watched + {Grace(id, due)}
      else
        Outcome(was, sent, id, false, p) && armed == watched
    }

    lemma ConcludedFrom(was: map<Id, Pending>, sent: seq<Reply>, watched: set<Source>, id: Id, p: Pending,
                        graceOk: bool)
      requires Concluded(was[id := p], sent, watched, id, p, graceOk)
      ensures Concluded(was, sent, watched, id, p, graceOk)
    {
      Overwritten(was, id, p, p);
      Overwritten(was, id, p, p.(graceToken := Some(now + OUTPUT_GRACE)));
    }

    method Reap(id: Id, status: ExitStatus, graceOk: bool)
      requires Valid() && id in pending && pending[id].exit.None?
      modifies this`pending, this`past, this`armed, this`replies
      ensures Valid() && id in old(past) && past == old(past)[id := Reaped(old(past)[id], status, now, graceOk)]
      ensures Concluded(old(pending), old(replies), old(armed), id, old(pending)[id].(exit := Some(status)), graceOk)
    {
      ghost var p := pending[id].(exit := Some(status));
      SetExit(id, status, graceOk);
      Conclude(id, graceOk);
      ConcludedFrom(old(pending), old(replies), old(armed), id, p, graceOk);
    }

    method SetExit(id: Id, status: ExitStatus, ghost graceOk: bool)
      requires Valid() && id in pending && pending[id].exit.None?
      modifies this`pending, this`past, this`armed
      ensures Sound() && Settled(pending, past, armed, {id}) && id in pending && armed == old(armed)
      ensures id in old(past) && past == old(past)[id := Reaped(old(past)[id], status, now, graceOk)]
      ensures pending == old(pending)[id := old(pending)[id].(exit := Some(status))]
      ensures Watched(id, pending[id], past[id], armed) && pending[id].graceToken.None?
      ensures past[id].graceless == (!graceOk && !Finished(pending[id]))
    {
      SettledBut(pending, past, armed, id);
      ReapedEntry(id, pending[id], past[id], status, now, graceOk, armed);
      UpdateInPlace(id, pending[id].(exit := Some(status)), Reaped(past[id], status, now, graceOk));
    }

    /** The child has exited: reply, or begin the grace. */
    method Conclude(id: Id, graceOk: bool)
      requires Sound() && id in pending && Settled(pending, past, armed, {id})
      requires pending[id].exit.Some? && past[id].exitAt == now && pending[id].graceToken.None?
      requires Watched(id, pending[id], past[id], armed)
      requires past[id].graceless == (!graceOk && !Finished(pending[id]))
      modifies this`pending, this`past, this`armed, this`replies
      ensures Valid() && past == old(past)
      ensures Concluded(old(pending), old(replies), old(armed), id, old(pending)[id], graceOk)
    {
      assert EntryOk(pending[id], past[id]);
      if Finished(pending[id]) {
        Finalize(id);
      } else if graceOk {
        BeginGrace(id);
      } else {
        SettledAgain(pending, past, armed, id);
      }
    }

    method BeginGrace(id: Id)
      requires Sound() && id in pending && Settled(pending, past, armed, {id})
      requires pending[id].exit.Some? && !Finished(pending[id]) && past[id].exitAt == now
               && pending[id].graceToken.None?
      requires Watched(id, pending[id], past[id], armed) && !past[id].graceless
      modifies this`pending, this`past, this`armed
      ensures Valid() && pending == old(pending)[id := old(pending)[id].(graceToken := Some(now + OUTPUT_GRACE))]
      ensures past == old(past) && armed == old(armed) + {Grace(id, now + OUTPUT_GRACE)}
    {
      assert EntryOk(pending[id], past[id]);
      var due := now + OUTPUT_GRACE;
      var p := pending[id].(graceToken := Some(due));
      SourcesStayWith(armed, pending, past, id, p, past[id], Grace(id, due));
      UpdateEntry(id, p, armed + {Grace(id, due)});
      SettledAgain(pending, past, armed, id);
    }

    /** The grace is over: kill what is left of the group and reply. */
    method GraceOver(id: Id, due: int)
      requires Valid() && Grace(id, due) in armed && now >= due
      modifies this`pending, this`past, this`armed, this`replies, this`killed
      ensures Valid() && id in old(pending) && past == old(past)
      ensures killed == old(killed) + [old(pending)[id].pid]
      ensures Outcome(old(pending), old(replies), id, true, old(pending)[id])
      ensures armed == old(armed) - Tokens(id, old(pending)[id])
    {
      assert SourceOk(Grace(id, due), pending, past) && EntryOk(pending[id], past[id]);
      killed := killed + [pending[id].pid];
      ghost var p := pending[id];
      GraceSpent(id, due);
      Overwritten(old(pending), id, pending[id], p);
      TokensBut(id, p);
      Finalize(id);
    }

    /** The grace's source is gone with its token. */
    method GraceSpent(id: Id, due: int)
      requires Valid() && Grace(id, due) in armed && id in pending && pending[id].graceToken == Some(due)
      modifies this`pending, this`past, this`armed
      ensures Sound() && Settled(pending, past, armed, {id}) && past == old(past)
      ensures pending == old(pending)[id := old(pending)[id].(graceToken := None)]
      ensures armed == old(armed) - {Grace(id, due)}
      ensures Stray(past[id]) ==> PipeSource(id, Stdout) in armed
    {
      assert EntryOk(pending[id], past[id]);
      SettledBut(pending, past, armed, id);
      var p := pending[id].(graceToken := None);
      SourcesStayBut(armed, pending, past, id, p, past[id], Grace(id, due));
      UpdateEntry(id, p, armed - {Grace(id, due)});
    }

    /** The timeout kills the group and leaves the rest to the pipes and the reaper. */
    method TimedOut(id: Id)
      requires Valid() && Timeout(id) in armed
      modifies this`pending, this`past, this`armed, this`killed
      ensures Valid() && id in old(pending) && past == old(past)
      ensures killed == old(killed) + [old(pending)[id].pid]
      ensures pending == old(pending)[id := old(pending)[id].(timerToken := false)]
              && armed == old(armed) - {Timeout(id)}
    {
      assert SourceOk(Timeout(id), pending, past) && EntryOk(pending[id], past[id]);
      killed := killed + [pending[id].pid];
      SettledBut(pending, past, armed, id);
      var p := pending[id].(timerToken := false);
      SourcesStayBut(armed, pending, past, id, p, past[id], Timeout(id));
      UpdateEntry(id, p, armed - {Timeout(id)});
      SettledAgain(pending, past, armed, id);
    }

    method Advance(t: int)
      requires Valid() && now <= t
      modifies this`now
      ensures Valid() && now == t
    {
      now := t;
    }
  }

  /** A command that could not be watched, its child exited and the grace begun. */
  method HalfReaped(fault: Fault) returns (c: Commands)
    requires fault == CannotWatchStdout || fault == CannotWatchStderr
    ensures fresh(c) && c.Valid() && c.replies == [SpawnFailed(5)] && c.pending.Keys == {0}
    ensures 0 in c.past && c.past[0].client == 5
    ensures c.armed == Watching(0, false, fault) + {Grace(0, c.now + OUTPUT_GRACE)}
    ensures Tokens(0, c.pending[0]) == {Grace(0, c.now + OUTPUT_GRACE)}
  {
    c := new Commands();
    var _ := c.RunCommand(5, false, 100, false, fault);
    assert c.pending[0] == Fresh(5, 100, false, fault);
    var _ := c.NoteReaped(100, ExitStatus(Some(0)), true);
  }

  /** Where watching the child fails after it was recorded, its client is told so and
      later gets the result as well. Where it was standard error that could not be
      watched, standard output still is after that. */
  method TwoReplies(fault: Fault) returns (c: Commands)
    requires fault == CannotWatchStdout || fault == CannotWatchStderr
    ensures fresh(c) && c.Valid() && |c.replies| == 2 && c.pending == map[]
    ensures c.replies[0] == SpawnFailed(5) && c.replies[1].CommandResult? && c.replies[1].client == 5
    ensures c.armed == if fault == CannotWatchStderr then {PipeSource(0, Stdout)} else {}
  {
    c := HalfReaped(fault);
    var due := c.now + OUTPUT_GRACE;
    c.Advance(due);
    c.GraceOver(0, due);
    assert ReplyOk(c.replies[1], c.pending, c.past, c.spent);
  }

  /** With no grace either, the command stays pending for good. */
  method NeverConcluded() returns (c: Commands)
    ensures fresh(c) && c.Valid() && 0 in c.pending && c.pending[0].exit.Some? && c.armed == {}
  {
    c := new Commands();
    var _ := c.RunCommand(5, false, 100, false, CannotWatchStdout);
    assert c.pending[0].pid == 100;
    var _ := c.NoteReaped(100, ExitStatus(Some(0)), false);
  }
}
