/** The remote gate's lease (`src/remote_lease.rs`, `src/ipc.rs`, `src/state.rs`): a
    time limit and an idle limit, one timer at the earlier deadline, and a gate that
    goes off rather than stay on without one. Times are nanoseconds. */
module Lease {
  import opened Wrappers
  import opened Connections

  const SECOND: nat := 1_000_000_000
  const MAX_SECS: nat := 30 * 86_400

  function Min(a: int, b: int): int {
    if a < b then a else b
  }

  function Max(a: int, b: int): int {
    if a < b then b else a
  }

  /** `until`: the time limit's end. `idle`: how long nobody may be connected.
      `idleSince`: when the last viewer left, or the lease began with none. */
  datatype Lease = Lease(until: Option<int>, idle: Option<nat>, idleSince: Option<int>)

  function Clamped(limit: Option<nat>): Option<nat> {
    if limit.None? then None else Some(Min(limit.value, MAX_SECS * SECOND) as nat)
  }

  function After(start: int, d: Option<nat>): Option<int> {
    if d.None? then None else Some(start + d.value)
  }

  function NewLease(now: int, limit: Option<nat>, idle: Option<nat>, viewers: nat): Option<Lease> {
    if limit.None? && idle.None? then None
    else Some(Lease(After(now, Clamped(limit)), Clamped(idle), if viewers == 0 then Some(now) else None))
  }

  function ViewersChanged(l: Lease, now: int, viewers: nat): Lease {
    if viewers == 0 && l.idleSince.None? then l.(idleSince := Some(now))
    else if viewers > 0 && l.idleSince.Some? then l.(idleSince := None)
    else l
  }

  function IdleEnd(l: Lease): Option<int> {
    if l.idleSince.Some? then After(l.idleSince.value, l.idle) else None
  }

  function Deadline(l: Lease): Option<int> {
    if l.until.Some? && IdleEnd(l).Some? then Some(Min(l.until.value, IdleEnd(l).value))
    else if l.until.Some? then l.until
    else IdleEnd(l)
  }

  function DeadlineOf(l: Option<Lease>): Option<int> {
    if l.None? then None else Deadline(l.value)
  }

  /** What `remote_status` reports. */
  datatype Status = Status(expiresInSecs: Option<nat>, idleSecs: Option<nat>, idleExpiresInSecs: Option<nat>)

  function SecsCeil(d: nat): nat {
    d / SECOND + if d % SECOND > 0 then 1 else 0
  }

  function Left(end: int, now: int): nat {
    SecsCeil(Max(end - now, 0))
  }

  function LeftOf(end: Option<int>, now: int): Option<nat> {
    if end.None? then None else Some(Left(end.value, now))
  }

  function StatusAt(l: Lease, now: int): Status {
    Status(LeftOf(l.until, now), if l.idle.None? then None else Some(l.idle.value / SECOND), LeftOf(IdleEnd(l), now))
  }

  /** The number reported is the time left rounded up: `s` whole seconds exactly when
      more than `s - 1` of them and at most `s` remain. */
  lemma LeftRoundsUp(end: int, now: int, s: nat)
    ensures Left(end, now) == s <==> if s == 0 then now >= end else (s - 1) * SECOND < end - now <= s * SECOND
  {
  }

  /** A lease reads as having no time left only once its limit has passed. */
  lemma ZeroOnlyWhenOver(l: Lease, now: int)
    ensures StatusAt(l, now).expiresInSecs == Some(0) <==> l.until.Some? && now >= l.until.value
    ensures StatusAt(l, now).idleExpiresInSecs == Some(0) <==> IdleEnd(l).Some? && now >= IdleEnd(l).value
  {
  }

  /** The deadline is the first moment at which either report reads 0. */
  lemma DeadlineIsFirstZero(l: Lease, now: int)
    ensures (Deadline(l).Some? && now >= Deadline(l).value) <==>
              StatusAt(l, now).expiresInSecs == Some(0) || StatusAt(l, now).idleExpiresInSecs == Some(0)
  {
  }

  datatype LeaseError = NoServer | NeedsEnabled | MustBePositive | TooLong | NoTimer

  function CheckLease(enabled: bool, forSecs: Option<nat>, idleSecs: Option<nat>): Option<LeaseError> {
    if !enabled && (forSecs.Some? || idleSecs.Some?) then Some(NeedsEnabled)
    else if forSecs == Some(0) || idleSecs == Some(0) then Some(MustBePositive)
    else if GetOr(forSecs, 0) > MAX_SECS || GetOr(idleSecs, 0) > MAX_SECS then Some(TooLong)
    else None
  }

  /** Which requests are refused, and for what first. */
  lemma CheckedIff(enabled: bool, forSecs: Option<nat>, idleSecs: Option<nat>)
    ensures var e, asked := CheckLease(enabled, forSecs, idleSecs), forSecs.Some? || idleSecs.Some?;
      && (e.None? <==>
            && (asked ==> enabled)
            && (forSecs.Some? ==> 1 <= forSecs.value <= MAX_SECS)
            && (idleSecs.Some? ==> 1 <= idleSecs.value <= MAX_SECS))
      && (e == Some(NeedsEnabled) <==> asked && !enabled)
      && (e == Some(MustBePositive) <==> enabled && (forSecs == Some(0) || idleSecs == Some(0)))
      && e != Some(NoServer) && e != Some(NoTimer)
  {
  }

  function Secs(s: Option<nat>): Option<nat> {
    if s.None? then None else Some(s.value * SECOND)
  }

  /** What passes the check is granted in full: the clamp never shortens it. */
  lemma CheckedIsNotClamped(enabled: bool, forSecs: Option<nat>, idleSecs: Option<nat>)
    requires CheckLease(enabled, forSecs, idleSecs).None?
    ensures Clamped(Secs(forSecs)) == Secs(forSecs) && Clamped(Secs(idleSecs)) == Secs(idleSecs)
  {
  }

  /** What was asked for is what is reported at once, the idle limit's end only while
      nobody is connected; and without a limit there is no lease. */
  lemma GrantReadsAsAsked(forSecs: Option<nat>, idleSecs: Option<nat>, now: int, viewers: nat)
    requires CheckLease(true, forSecs, idleSecs).None?
    ensures var l := NewLease(now, Secs(forSecs), Secs(idleSecs), viewers);
      && (l.None? <==> forSecs.None? && idleSecs.None?)
      && (l.Some? ==> StatusAt(l.value, now) == Status(forSecs, idleSecs, if viewers == 0 then idleSecs else None))
  {
    CheckedIsNotClamped(true, forSecs, idleSecs);
    if forSecs.Some? {
      LeftRoundsUp(now + forSecs.value * SECOND, now, forSecs.value);
    }
    if idleSecs.Some? {
      LeftRoundsUp(now + idleSecs.value * SECOND, now, idleSecs.value);
    }
  }

  /** A longer one, were it to come that far, ends after the longest there is. */
  lemma LongestLease(now: int, limit: nat, idle: nat)
    requires limit >= MAX_SECS * SECOND && idle >= MAX_SECS * SECOND
    ensures var l := NewLease(now, Some(limit), Some(idle), 0);
      l.Some? && Deadline(l.value) == Some(now + MAX_SECS * SECOND)
  {
  }

  /** The lease after a run of viewer counts, each with its moment. */
  function AfterReports(l: Lease, reports: seq<(int, nat)>): Lease {
    if reports == [] then l
    else
      var (now, viewers) := reports[|reports| - 1];
      ViewersChanged(AfterReports(l, reports[..|reports| - 1]), now, viewers)
  }

  /** However often a count is repeated, the idle clock stands at the first report of
      the unbroken stretch of zeros that reaches to the end, and stands still while
      somebody is connected. */
  lemma {:induction false} IdleClock(l: Lease, reports: seq<(int, nat)>, k: nat)
    requires k <= |reports| && forall i :: k <= i < |reports| ==> reports[i].1 == 0
    requires k == 0 || reports[k - 1].1 > 0
    ensures var m := AfterReports(l, reports);
      && m.until == l.until && m.idle == l.idle
      && m.idleSince == if k == 0 && (l.idleSince.Some? || reports == []) then l.idleSince
                        else if k < |reports| then Some(reports[k].0) else None
    decreases |reports|
  {
    if reports != [] {
      var init := reports[..|reports| - 1];
      if k == |reports| {
        UntilAndIdleStay(l, init);
      } else {
        IdleClock(l, init, k);
      }
    }
  }

  lemma {:induction false} UntilAndIdleStay(l: Lease, reports: seq<(int, nat)>)
    ensures AfterReports(l, reports).until == l.until && AfterReports(l, reports).idle == l.idle
  {
    if reports != [] {
      UntilAndIdleStay(l, reports[..|reports| - 1]);
    }
  }

  /** A `remote_changed` event; its lease status is that of `lease` when it was sent. */
  datatype Event = RemoteChanged(enabled: bool, serverAvailable: bool, viewers: nat, lease: Option<Lease>)

  /** The lease asked for has a deadline to begin with, and its timer was refused. */
  predicate TimerMissing(on: bool, forSecs: Option<nat>, idleSecs: Option<nat>, viewers: nat, timerOk: bool) {
    on && !timerOk && (forSecs.Some? || (idleSecs.Some? && viewers == 0))
  }

  /** When an accepted `set_remote` resets a viewer count without a word: the gate was
      off, the count was not zero, and the gate ends off, because that was asked or
      because the time limit's timer was refused. */
  predicate GoesStale(on: bool, wasEnabled: bool, viewers: nat, forSecs: Option<nat>, timerOk: bool) {
    !wasEnabled && viewers > 0 && (!on || (forSecs.Some? && !timerOk))
  }

  /** The gate, its lease and its timer. The loop runs a timer at most `lateness`
      after it is due. */
  class RemoteGate {
    const lateness: nat
    var now: int
    var enabled: bool
    var server: Option<ClientId>
    var viewers: nat
    var lease: Option<Lease>
    var timer: Option<int>
    var events: seq<Event>

    /** When the gate was last turned on over IPC and what was asked then, and since
        when nobody has been connected: kept apart from the lease, to judge it by. */
    ghost var grantedAt: int
    ghost var askedLimit: Option<nat>
    ghost var askedIdle: Option<nat>
    ghost var emptySince: int

    constructor (start: int, lateness: nat)
      ensures Valid() && !enabled && server.None? && now == start && events == [] && viewers == 0
      ensures this.lateness == lateness
    {
      this.lateness := lateness;
      now, grantedAt, emptySince := start, start, start;
      enabled, server, viewers, lease, timer, events := false, None, 0, None, None, [];
      askedLimit, askedIdle := None, None;
    }

    /** The lease in force is the one asked for, its idle clock following the
        viewers. */
    ghost predicate Honoured()
      reads this
    {
      && (lease.Some? ==> enabled)
      && (enabled ==> server.Some? && (lease.None? <==> askedLimit.None? && askedIdle.None?))
      && (lease.Some? ==>
            && lease.value.until == After(grantedAt, askedLimit)
            && lease.value.idle == askedIdle
            && lease.value.idleSince == (if viewers == 0 then Some(Max(grantedAt, emptySince)) else None))
      && grantedAt <= now && emptySince <= now
    }

    /** One timer, due exactly at the lease's deadline, and not overdue. */
    ghost predicate Timed()
      reads this
    {
      && timer == DeadlineOf(lease)
      && (timer.Some? ==> now <= timer.value + lateness)
    }

    /** What subscribers were last told: nothing means the gate is off. */
    ghost predicate Told()
      reads this
    {
      if events == [] then !enabled
      else
        var e := events[|events| - 1];
        e.enabled == enabled && e.lease == lease && (enabled ==> e.viewers == viewers)
    }

    ghost predicate Valid()
      reads this
    {
      Honoured() && Timed() && Told()
    }

    /** The viewer count subscribers were last told is the current one. */
    ghost predicate CountTold()
      reads this
    {
      if events == [] then viewers == 0 else events[|events| - 1].viewers == viewers
    }

    /** The gate is never on past its time limit, nor past an unbroken stretch of the
        idle length with nobody connected, by more than the loop is late. */
    lemma NeverOverstays()
      requires Valid() && enabled
      ensures askedLimit.Some? ==> now <= grantedAt + askedLimit.value + lateness
      ensures askedIdle.Some? && viewers == 0 ==> now <= Max(grantedAt, emptySince) + askedIdle.value + lateness
    {
    }

    /** `arm_remote_lease`, the registration succeeding when `ok`. */
    method Arm(ok: bool) returns (armed: bool)
      modifies this`timer
      ensures armed <==> DeadlineOf(lease).None? || ok
      ensures timer == if armed then DeadlineOf(lease) else None
    {
      timer := None;
      var deadline := DeadlineOf(lease);
      if deadline.None? {
        return true;
      }
      if ok {
        timer := deadline;
      }
      return ok;
    }

    method SetRemoteLease(l: Option<Lease>, ok: bool) returns (armed: bool)
      modifies this`lease, this`timer
      ensures lease == l
      ensures armed <==> DeadlineOf(lease).None? || ok
      ensures timer == if armed then DeadlineOf(lease) else None
    {
      lease := l;
      armed := Arm(ok);
    }

    method SetRemote(on: bool)
      modifies this`enabled, this`lease, this`timer, this`viewers, this`emptySince
      ensures enabled == on && lease.None? && timer.None?
      ensures viewers == if on then old(viewers) else 0
      ensures emptySince == if !on && old(viewers) > 0 then now else old(emptySince)
    {
      enabled := on;
      var _ := SetRemoteLease(None, true);
      if !on {
        emptySince := if viewers > 0 then now else emptySince;
        viewers := 0;
      }
    }

    method EmitRemoteChanged()
      modifies this`events
      ensures events == old(events) + [RemoteChanged(enabled, server.Some?, viewers, lease)]
    {
      events := events + [RemoteChanged(enabled, server.Some?, viewers, lease)];
    }

    method TurnOff()
      requires Honoured()
      modifies this`enabled, this`lease, this`timer, this`viewers, this`emptySince, this`events
      ensures Honoured() && Timed() && !enabled && viewers == 0
      ensures old(enabled) ==> Told() && CountTold()
      ensures !old(enabled) ==> events == old(events)
    {
      var changed := enabled;
      SetRemote(false);
      if changed {
        EmitRemoteChanged();
      }
    }

    method RegisterServer(id: ClientId)
      requires Valid()
      modifies this`server, this`events
      ensures Valid() && server == Some(id)
      ensures events == old(events) + [RemoteChanged(enabled, true, viewers, lease)] && CountTold()
    {
      server := Some(id);
      EmitRemoteChanged();
    }

    function Refusal(on: bool, forSecs: Option<nat>, idleSecs: Option<nat>): Option<LeaseError>
      reads this
    {
      if on && server.None? then Some(NoServer) else CheckLease(on, forSecs, idleSecs)
    }

    /** `set_remote`. A refused request changes nothing. The viewer count subscribers
        know goes stale exactly when an accepted request resets it and the gate was
        off before and is off after. */
    method SetRemoteRequest(on: bool, forSecs: Option<nat>, idleSecs: Option<nat>, ok: bool)
      returns (error: Option<LeaseError>)
      requires Valid()
      modifies this
      ensures Valid() && now == old(now) && server == old(server)
      ensures error == Some(NoServer) <==> on && server.None?
      ensures error.None? || error == Some(NoTimer) <==>
              && (on ==> server.Some?) && (!on ==> forSecs.None? && idleSecs.None?)
              && (forSecs.Some? ==> 1 <= forSecs.value <= MAX_SECS)
              && (idleSecs.Some? ==> 1 <= idleSecs.value <= MAX_SECS)
      ensures var refused := old(Refusal(on, forSecs, idleSecs));
        if refused.Some? then
          && error == refused && enabled == old(enabled) && lease == old(lease) && viewers == old(viewers)
          && timer == old(timer) && events == old(events)
        else
          && error == (if TimerMissing(on, forSecs, idleSecs, old(viewers), ok) then Some(NoTimer) else None)
          && enabled == (on && error.None?)
          && viewers == (if enabled then old(viewers) else 0)
          && lease == (if enabled then NewLease(now, Secs(forSecs), Secs(idleSecs), viewers) else None)
          && (enabled ==> grantedAt == now && askedLimit == Secs(forSecs) && askedIdle == Secs(idleSecs))
          && events == if enabled != old(enabled) || old(lease).Some? || lease.Some?
                       then old(events) + [RemoteChanged(enabled, server.Some?, viewers, lease)] else old(events)
      ensures old(CountTold()) ==>
                (!CountTold() <==>
                   old(Refusal(on, forSecs, idleSecs)).None? && GoesStale(on, old(enabled), old(viewers), forSecs, ok))
    {
      error := Refusal(on, forSecs, idleSecs);
      if error.None? {
        var was, hadLease := enabled, lease.Some?;
        error := Flip(on, forSecs, idleSecs, ok);
        if enabled != was || hadLease || lease.Some? {
          EmitRemoteChanged();
        }
      }
    }

    /** Turn the gate, with its lease; one whose timer cannot be registered leaves the
        gate off, even if it was on. */
    method Flip(on: bool, forSecs: Option<nat>, idleSecs: Option<nat>, ok: bool) returns (error: Option<LeaseError>)
      requires Honoured() && Refusal(on, forSecs, idleSecs).None?
      modifies this`enabled, this`lease, this`timer, this`viewers, this`emptySince
      modifies this`grantedAt, this`askedLimit, this`askedIdle
      ensures Honoured() && Timed()
      ensures error == if TimerMissing(on, forSecs, idleSecs, old(viewers), ok) then Some(NoTimer) else None
      ensures enabled == (on && error.None?)
      ensures viewers == if enabled then old(viewers) else 0
      ensures lease == if enabled then NewLease(now, Secs(forSecs), Secs(idleSecs), viewers) else None
      ensures enabled ==> grantedAt == now && askedLimit == Secs(forSecs) && askedIdle == Secs(idleSecs)
    {
      CheckedIsNotClamped(on, forSecs, idleSecs);
      error := None;
      SetRemote(on);
      if on {
        grantedAt, askedLimit, askedIdle := now, Secs(forSecs), Secs(idleSecs);
        var armed := SetRemoteLease(NewLease(now, Secs(forSecs), Secs(idleSecs), viewers), ok);
        if !armed {
          SetRemote(false);
          error := Some(NoTimer);
        }
      }
    }

    /** The server reports how many are connected. */
    method ReportViewers(count: nat, ok: bool)
      requires Valid()
      modifies this
      ensures Valid() && now == old(now) && server == old(server)
      ensures grantedAt == old(grantedAt) && askedLimit == old(askedLimit) && askedIdle == old(askedIdle)
      ensures enabled || !old(enabled) ==> viewers == count && enabled == old(enabled)
      ensures old(enabled) && !enabled ==> !ok && viewers == 0
      ensures old(enabled) && (ok || count == old(viewers)) ==> enabled
      ensures events == if count == old(viewers) then old(events)
                        else old(events) + [RemoteChanged(enabled, server.Some?, viewers, lease)]
      ensures enabled ==> emptySince == if count == 0 && old(viewers) > 0 then now else old(emptySince)
      ensures old(CountTold()) ==> CountTold()
    {
      var changed := viewers != count;
      emptySince := if count == 0 && viewers > 0 then now else emptySince;
      viewers := count;
      if changed {
        var closed := LeaseViewersChanged(ok);
        if !closed {
          EmitRemoteChanged();
        }
      }
    }

    method LeaseViewersChanged(ok: bool) returns (closed: bool)
      requires lease.Some? ==> enabled
      requires enabled ==> server.Some?
      requires grantedAt <= now && emptySince <= now
      modifies this`enabled, this`lease, this`timer, this`viewers, this`emptySince, this`events
      ensures closed <==> old(lease).Some? && DeadlineOf(Some(ViewersChanged(old(lease).value, now,
              old(viewers)))).Some? && !ok
      ensures closed ==> Valid() && !enabled && viewers == 0
      ensures closed ==> events == old(events) + [RemoteChanged(enabled, server.Some?, viewers, lease)]
      ensures !closed ==>
                && enabled == old(enabled) && viewers == old(viewers)
                && emptySince == old(emptySince) && events == old(events)
      ensures !closed && old(lease).Some? ==>
                lease == Some(ViewersChanged(old(lease).value, now, viewers)) && timer == DeadlineOf(lease)
      ensures !closed && old(lease).None? ==> lease == old(lease) && timer == old(timer)
    {
      if lease.None? {
        return false;
      }
      lease := Some(ViewersChanged(lease.value, now, viewers));
      var armed := Arm(ok);
      if armed {
        return false;
      }
      SetRemote(false);
      EmitRemoteChanged();
      return true;
    }

    /** Time passes, but not past a timer by more than the loop is late. */
    method Advance(t: int)
      requires Valid() && now <= t
      requires timer.Some? ==> t <= timer.value + lateness
      modifies this`now
      ensures Valid() && now == t
    {
      now := t;
    }

    /** The timer is due. */
    method TimerFires(ok: bool)
      requires Valid() && timer.Some? && now >= timer.value
      modifies this
      ensures Valid() && !enabled && now == old(now) && server == old(server)
      ensures old(CountTold()) ==> CountTold()
    {
      timer := None;
      Tick(ok);
    }

    /** Re-arms when it is not time yet, so it may be called at any moment. */
    method Tick(ok: bool)
      requires Honoured() && Told()
      requires timer.None? && (DeadlineOf(lease).Some? ==> now <= DeadlineOf(lease).value + lateness)
      modifies this`enabled, this`lease, this`timer, this`viewers, this`emptySince, this`events
      ensures Valid()
      ensures DeadlineOf(old(lease)).None? ==> enabled == old(enabled) && lease == old(lease)
      ensures DeadlineOf(old(lease)).Some? ==> (enabled <==> now < DeadlineOf(old(lease)).value && ok)
      ensures old(CountTold()) ==> CountTold()
    {
      var deadline := DeadlineOf(lease);
      if deadline.Some? {
        if now < deadline.value {
          var armed := Arm(ok);
          if !armed {
            TurnOff();
          }
        } else {
          TurnOff();
        }
      }
    }

    /** The server's connection goes away. */
    method DropClient(id: ClientId)
      requires Valid()
      modifies this
      ensures Valid() && now == old(now)
      ensures server == if old(server) == Some(id) then None else old(server)
      ensures emptySince == if old(server) == Some(id) && old(viewers) > 0 then now else old(emptySince)
      ensures old(server) == Some(id) ==> !enabled && viewers == 0 && CountTold()
      ensures old(server) != Some(id) ==> enabled == old(enabled) && lease == old(lease) && events == old(events)
    {
      if server == Some(id) {
        server := None;
        if enabled {
          SetRemote(false);
        }
        emptySince := if viewers > 0 then now else emptySince;
        viewers := 0;
        EmitRemoteChanged();
      }
    }
  }

  /** With the gate off, a viewer count reported before is forgotten by the next
      `set_remote` without a word to subscribers. */
  method StaleViewerCount() returns (gate: RemoteGate)
    ensures fresh(gate) && gate.Valid() && gate.events != []
    ensures gate.events[|gate.events| - 1].viewers == 3 && gate.viewers == 0
  {
    gate := new RemoteGate(0, 0);
    gate.RegisterServer(1);
    assert !gate.enabled && gate.viewers == 0;
    gate.ReportViewers(3, true);
    assert gate.events[|gate.events| - 1].viewers == 3 && gate.lease.None?;
    var _ := gate.SetRemoteRequest(false, None, None, true);
  }
}
