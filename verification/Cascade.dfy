/** The machine axis and the remote gates, and the re-entrant cascade between them:
    an event that cannot be written drops its subscriber, a dropped connection may
    be a machine, the server or a waiter, and each of those emits more events
    (`src/ipc.rs`, `src/remote.rs`, `src/capture_stream.rs`, `src/state.rs`). */
module Cascade {
  import opened Wrappers
  import opened Connections

  datatype Machine = Machine(id: ClientId, width: nat, height: nat)

  /** Where the view lands when the machine at axis index `removed` leaves. */
  function ViewAfterRemoval(view: nat, removed: nat): nat {
    if view == removed then 0 else if view > removed then view - 1 else view
  }

  function RemoveAt<T>(s: seq<T>, i: nat): seq<T>
    requires i < |s|
  {
    s[..i] + s[i + 1..]
  }

  function IndexOf(axis: seq<Machine>, id: ClientId): (r: nat)
    ensures r <= |axis| && forall k :: 0 <= k < r ==> axis[k].id != id
    ensures r < |axis| ==> axis[r].id == id
  {
    if axis == [] || axis[0].id == id then 0 else 1 + IndexOf(axis[1..], id)
  }

  /** The axis without the first machine of `id`. */
  function Without(axis: seq<Machine>, id: ClientId): seq<Machine> {
    if axis == [] then []
    else if axis[0].id == id then axis[1..]
    else [axis[0]] + Without(axis[1..], id)
  }

  /** The client in view: index 0 is the local machine. */
  function ViewId(axis: seq<Machine>, view: nat): Option<ClientId>
    requires view <= |axis|
  {
    if view == 0 then None else Some(axis[view - 1].id)
  }

  function Ids(axis: seq<Machine>): set<ClientId> {
    if axis == [] then {} else {axis[0].id} + Ids(axis[1..])
  }

  predicate OnAxis(axis: seq<Machine>, id: ClientId) {
    id in Ids(axis)
  }

  lemma {:induction false} OnAxisMeans(axis: seq<Machine>, id: ClientId)
    ensures OnAxis(axis, id) <==> exists k :: 0 <= k < |axis| && axis[k].id == id
    ensures OnAxis(axis, id) <==> IndexOf(axis, id) < |axis|
  {
    if axis != [] {
      OnAxisMeans(axis[1..], id);
      if OnAxis(axis[1..], id) {
        var k :| 0 <= k < |axis| - 1 && axis[1..][k].id == id;
        assert axis[k + 1].id == id;
      }
      if exists k :: 0 <= k < |axis| && axis[k].id == id {
        var k :| 0 <= k < |axis| && axis[k].id == id;
        assert k == 0 || axis[1..][k - 1].id == id;
      }
    }
  }

  ghost predicate DistinctIds(axis: seq<Machine>) {
    forall i, j :: 0 <= i < j < |axis| ==> axis[i].id != axis[j].id
  }

  /** The view still denotes the client it did, or that client is gone from the
      axis and the view is local. */
  ghost predicate Follows(before: Option<ClientId>, axis: seq<Machine>, view: nat) {
    view <= |axis| &&
    (ViewId(axis, view) == before || (view == 0 && before.Some? && !OnAxis(axis, before.value)))
  }

  /** One more machine keeps the ids distinct exactly when its client has none yet. */
  lemma DistinctWithOneMore(axis: seq<Machine>, m: Machine)
    requires DistinctIds(axis)
    ensures DistinctIds(axis + [m]) <==> !OnAxis(axis, m.id)
  {
    var more := axis + [m];
    OnAxisMeans(axis, m.id);
    if OnAxis(axis, m.id) {
      var k :| 0 <= k < |axis| && axis[k].id == m.id;
      assert more[k].id == more[|axis|].id;
    }
  }

  ghost predicate IdsShrink(before: seq<Machine>, after: seq<Machine>) {
    Ids(after) <= Ids(before) && |after| <= |before|
  }

  lemma RemoveAtTail<T>(s: seq<T>, i: nat)
    requires i + 1 < |s|
    ensures RemoveAt(s, i + 1) == [s[0]] + RemoveAt(s[1..], i)
  {
  }

  lemma {:induction false} WithoutRemoves(axis: seq<Machine>, id: ClientId)
    ensures var i := IndexOf(axis, id);
      Without(axis, id) == if i < |axis| then RemoveAt(axis, i) else axis
  {
    if axis != [] && axis[0].id != id {
      var tail := axis[1..];
      WithoutRemoves(tail, id);
      var i := IndexOf(tail, id);
      if i < |tail| {
        RemoveAtTail(axis, i);
      } else {
        assert axis == [axis[0]] + tail;
      }
    }
  }

  lemma WithoutShape(axis: seq<Machine>, id: ClientId)
    ensures var i, after := IndexOf(axis, id), Without(axis, id);
      i < |axis| ==>
        && |after| == |axis| - 1
        && forall k :: 0 <= k < |after| ==> after[k] == axis[if k < i then k else k + 1]
  {
  }

  lemma {:induction false} WithoutShrinks(axis: seq<Machine>, id: ClientId)
    ensures IdsShrink(axis, Without(axis, id))
    ensures IndexOf(axis, id) < |axis| <==> OnAxis(axis, id)
  {
    if axis != [] {
      WithoutShrinks(axis[1..], id);
      if axis[0].id != id {
        assert Without(axis, id)[1..] == Without(axis[1..], id);
      }
    }
  }

  lemma GoneFromAxis(axis: seq<Machine>, id: ClientId)
    requires DistinctIds(axis)
    ensures !OnAxis(Without(axis, id), id)
  {
    WithoutShrinks(axis, id);
    WithoutRemoves(axis, id);
    WithoutShape(axis, id);
    var i, after := IndexOf(axis, id), Without(axis, id);
    OnAxisMeans(after, id);
    if i < |axis| {
      forall k | 0 <= k < |after| ensures after[k].id != id {
        var j := if k < i then k else k + 1;
        if j < i {
          assert axis[j].id != axis[i].id;
        } else {
          assert axis[i].id != axis[j].id;
        }
      }
    }
  }

  /** The index arithmetic follows the machine: whatever leaves, the view denotes
      the same client, unless it was that client, and then it is local. */
  lemma RemovalFollows(axis: seq<Machine>, view: nat, id: ClientId)
    requires view <= |axis| && DistinctIds(axis) && OnAxis(axis, id)
    ensures var after := Without(axis, id);
            var view' := ViewAfterRemoval(view, IndexOf(axis, id) + 1);
      && Follows(ViewId(axis, view), after, view')
      && (view' == 0 <==> view == 0 || axis[view - 1].id == id)
      && (view' > 0 ==> after[view' - 1] == axis[view - 1])
  {
    WithoutShape(axis, id);
    WithoutShrinks(axis, id);
    GoneFromAxis(axis, id);
    var i := IndexOf(axis, id);
    if view > 0 && view - 1 != i {
      if view - 1 < i {
        assert axis[view - 1].id != axis[i].id;
      } else {
        assert axis[i].id != axis[view - 1].id;
      }
    }
  }

  /** The departure of a client leaves a machine of its behind exactly when it had
      two. */
  lemma StaleIffTwice(axis: seq<Machine>, id: ClientId)
    ensures OnAxis(Without(axis, id), id) <==> exists i, j :: 0 <= i < j < |axis| && axis[i].id == id == axis[j].id
  {
    var i, after := IndexOf(axis, id), Without(axis, id);
    OnAxisMeans(after, id);
    if i == |axis| {
      NotOnAxis(axis, {}, id);
    } else {
      WithoutShape(axis, id);
      if k :| 0 <= k < |after| && after[k].id == id {
        assert k >= i;
        assert axis[i].id == id == axis[k + 1].id;
      }
      if a, b :| 0 <= a < b < |axis| && axis[a].id == id == axis[b].id {
        assert i <= a;
        assert after[b - 1] == axis[b];
      }
    }
  }

  lemma WithoutDistinct(axis: seq<Machine>, id: ClientId)
    requires DistinctIds(axis)
    ensures DistinctIds(Without(axis, id))
  {
    WithoutRemoves(axis, id);
    WithoutShape(axis, id);
  }

  ghost predicate Live(axis: seq<Machine>, clients: set<ClientId>) {
    forall k :: 0 <= k < |axis| ==> axis[k].id in clients
  }

  /** What a removal does to the axis and the view, distinct ids or not. */
  lemma RemovalStep(axis: seq<Machine>, view: nat, id: ClientId)
    requires view <= |axis| && IndexOf(axis, id) < |axis|
    ensures var after, view' := Without(axis, id), ViewAfterRemoval(view, IndexOf(axis, id) + 1);
      && |after| == |axis| - 1 && view' <= |after|
      && (view' == view > 0 ==> after[view - 1] == axis[view - 1])
  {
    WithoutShape(axis, id);
  }

  lemma RemovalHealthy(axis: seq<Machine>, view: nat, clients: set<ClientId>, id: ClientId)
    requires view <= |axis| && IndexOf(axis, id) < |axis|
    requires DistinctIds(axis) && Live(axis, clients + {id})
    ensures var after, view' := Without(axis, id), ViewAfterRemoval(view, IndexOf(axis, id) + 1);
      DistinctIds(after) && Live(after, clients) && Follows(ViewId(axis, view), after, view')
  {
    WithoutShrinks(axis, id);
    RemovalFollows(axis, view, id);
    WithoutDistinct(axis, id);
    GoneFromAxis(axis, id);
    WithoutShape(axis, id);
    var after := Without(axis, id);
    forall k | 0 <= k < |after| ensures after[k].id in clients {
      OnAxisMeans(after, after[k].id);
    }
  }

  lemma ForgetLive(axis: seq<Machine>, clients: set<ClientId>, id: ClientId)
    ensures Live(axis, clients) ==> Live(axis, clients - {id} + {id})
    ensures |clients - {id}| <= |clients|
  {
  }

  lemma NotOnAxis(axis: seq<Machine>, clients: set<ClientId>, id: ClientId)
    requires IndexOf(axis, id) == |axis|
    ensures Without(axis, id) == axis
    ensures Live(axis, clients + {id}) ==> Live(axis, clients)
  {
  }

  /** The machines of the clients there are, in order. */
  function Kept(axis: seq<Machine>, clients: set<ClientId>): seq<Machine> {
    if axis == [] then []
    else (if axis[0].id in clients then [axis[0]] else []) + Kept(axis[1..], clients)
  }

  lemma {:induction false} KeptAll(axis: seq<Machine>, clients: set<ClientId>)
    requires Live(axis, clients)
    ensures Kept(axis, clients) == axis
  {
    if axis != [] {
      var tail := axis[1..];
      assert forall k :: 0 <= k < |tail| ==> tail[k] == axis[k + 1];
      KeptAll(tail, clients);
    }
  }

  lemma {:induction false} KeptTwice(axis: seq<Machine>, more: set<ClientId>, fewer: set<ClientId>)
    requires fewer <= more
    ensures Kept(Kept(axis, more), fewer) == Kept(axis, fewer)
  {
    if axis != [] {
      var m, tail := axis[0], axis[1..];
      KeptTwice(tail, more, fewer);
      if m.id in more {
        assert Kept(axis, more) == [m] + Kept(tail, more);
        assert Kept(axis, more)[1..] == Kept(tail, more);
      } else {
        assert Kept(axis, more) == Kept(tail, more) && Kept(axis, fewer) == Kept(tail, fewer);
      }
    }
  }

  /** A client's departure takes its machine and leaves the others as they stood. */
  lemma {:induction false} WithoutKept(axis: seq<Machine>, clients: set<ClientId>, id: ClientId)
    requires DistinctIds(axis) && Live(axis, clients + {id}) && id !in clients
    ensures Without(axis, id) == Kept(axis, clients)
  {
    if axis != [] {
      var m, tail := axis[0], axis[1..];
      assert forall k :: 0 <= k < |tail| ==> tail[k] == axis[k + 1];
      if m.id == id {
        assert Live(tail, clients) by {
          forall k | 0 <= k < |tail| ensures tail[k].id in clients {
            assert axis[0].id != axis[k + 1].id;
          }
        }
        KeptAll(tail, clients);
      } else {
        WithoutKept(tail, clients, id);
      }
    }
  }

  /** What a healthy axis and its view come to while clients only leave: the machines
      of those that stay, in order, and the view on the client it was on. */
  ghost predicate Stands(before: Option<ClientId>, was: seq<Machine>, clients: set<ClientId>, axis: seq<Machine>,
                         view: nat) {
    axis == Kept(was, clients) && Follows(before, axis, view)
  }

  lemma StandsOn(before: Option<ClientId>, was: seq<Machine>, clients1: set<ClientId>, axis1: seq<Machine>, view1: nat,
                 clients2: set<ClientId>, axis2: seq<Machine>, view2: nat)
    requires Stands(before, was, clients1, axis1, view1) && clients2 <= clients1
    requires Stands(ViewId(axis1, view1), axis1, clients2, axis2, view2) && IdsShrink(axis1, axis2)
    ensures Stands(before, was, clients2, axis2, view2)
  {
    KeptTwice(was, clients1, clients2);
  }

  /** Where a view asked for lands while clients may leave: on the client of the
      machine at that index, on the last one's beyond the end, at home below 1 or with
      no machines. */
  ghost predicate Lands(was: seq<Machine>, index: int, axis: seq<Machine>, view: nat) {
    && (index <= 0 || was == [] ==> view == 0)
    && (1 <= index <= |was| ==> Follows(Some(was[index - 1].id), axis, view))
    && (index > |was| > 0 ==> Follows(Some(was[|was| - 1].id), axis, view))
  }

  function Clamp(v: real, hi: real): real {
    if v < 0.0 then 0.0 else if v > hi then hi else v
  }

  /** `p` is to `size` as `v` is to `out`, and no further than either end. */
  ghost predicate SameFraction(p: real, size: nat, v: real, out: nat) {
    && 0.0 <= p <= size as real
    && (v <= 0.0 ==> p == 0.0) && (v >= out as real ==> p == size as real)
    && (0.0 <= v <= out as real ==> p * out as real == v * size as real)
  }

  function Scaled(v: real, out: nat, size: nat): real
    requires out > 0
  {
    Clamp(v / out as real, 1.0) * size as real
  }

  lemma Quotient(v: real, out: real)
    requires out > 0.0
    ensures var f := v / out;
      f * out == v && (v <= 0.0 ==> f <= 0.0) && (v >= out ==> f >= 1.0) && (0.0 <= v <= out ==> 0.0 <= f <= 1.0)
  {
  }

  lemma PartOf(f: real, size: real)
    requires 0.0 <= f <= 1.0 && size >= 0.0
    ensures 0.0 <= f * size <= size
  {
  }

  lemma CrossProduct(f: real, size: real, out: real)
    ensures f * size * out == f * out * size
  {
  }

  lemma Fraction(v: real, out: nat, size: nat)
    requires out > 0
    ensures SameFraction(Scaled(v, out, size), size, v, out)
  {
    var f := Clamp(v / out as real, 1.0);
    Quotient(v, out as real);
    PartOf(f, size as real);
    CrossProduct(f, size as real, out as real);
  }

  function Clamped(index: nat, axis: seq<Machine>): nat {
    if index <= |axis| then index else |axis|
  }

  /** The same two view changes in 8-bit indices, over `n` machines. */
  function ClampedByte(index: nat, n: nat): nat {
    if index <= n % 256 then index else n % 256
  }

  function ViewAfterRemovalByte(view: nat, pos: nat): nat {
    ViewAfterRemoval(view, (pos % 256 + 1) % 256)
  }

  /** With at most 255 machines the 8-bit indices are exact. With more, some removal
      moves the view wrongly, and some view cannot be switched to unless the count
      happens to wrap to 255. */
  lemma AxisFitsIff(n: nat)
    ensures (forall view: nat, pos: nat :: view <= 255 && view <= n && pos < n ==>
               ViewAfterRemovalByte(view, pos) == ViewAfterRemoval(view, pos + 1)) <==> n <= 255
    ensures (forall index: nat :: index <= 255 ==> ClampedByte(index, n) == if index <= n then index else n)
            <==> n <= 255 || n % 256 == 255
  {
    if n > 255 {
      assert ViewAfterRemovalByte(1, 255) != ViewAfterRemoval(1, 255 + 1);
      assert n % 256 != 255 ==> ClampedByte(255, n) != 255;
    }
  }

  datatype Event =
    | AutomationChanged
    | CaptureChanged
    | RemoteChanged
    | ViewChanged(view: nat)
    | WindowEvent
    | OtherEvent

  /** An event and the subscribers there were for it. */
  datatype Sent = Sent(event: Event, to: set<ClientId>)

  /** The compositor at one moment. */
  datatype State = State(
    clients: set<ClientId>, subscribers: set<ClientId>, captures: set<ClientId>, waiting: set<ClientId>,
    spent: set<ClientId>, axis: seq<Machine>, view: nat, pointer: (real, real), server: Option<ClientId>,
    remote: bool, automation: bool, capture: bool, viewers: nat, broken: set<ClientId>, emitted: seq<Sent>,
    clean: bool, once: bool)

  /** What the cascade holds at every moment an event goes out: the registered
      server is a live client, the gate is not on without one, and subscribers,
      capture streams and waits are live clients'. */
  ghost predicate CoreOf(s: State) {
    CoreButGateOf(s) && (s.remote ==> s.server.Some?)
  }

  ghost predicate CoreButGateOf(s: State) {
    && s.subscribers <= s.clients && s.captures <= s.clients && s.waiting <= s.clients
    && (s.server.Some? ==> s.server.value in s.clients)
    && |s.axis| <= 255
  }

  /** The view is within the axis, and the forwarded pointer within the remote in
      view. */
  ghost predicate ViewOkOf(s: State) {
    && s.view <= |s.axis|
    && (s.view > 0 ==>
          var m := s.axis[s.view - 1];
          0.0 <= s.pointer.0 <= m.width as real && 0.0 <= s.pointer.1 <= m.height as real)
  }

  /** No machine twice, none without its client, now or at any emit. */
  ghost predicate HealthyOf(s: State) {
    DistinctIds(s.axis) && Live(s.axis, s.clients) && s.clean
  }

  /** No stream outlives the consent to it. */
  ghost predicate ConsentOf(s: State) {
    s.capture || s.captures == {}
  }

  ghost function FuelOf(s: State): nat {
    |s.clients| + |s.axis| + if s.server.Some? then 1 else 0
  }

  function Centre(m: Machine): (real, real) {
    (m.width as real / 2.0, m.height as real / 2.0)
  }

  // ----- what the cascade may do between two moments -----

  /** It only takes away. Who has a role keeps it as long as the connection, and no
      longer. */
  ghost predicate Shrunk(s: State, t: State) {
    && FuelOf(t) <= FuelOf(s)
    && t.clients <= s.clients && t.captures == s.captures * t.clients && t.subscribers == s.subscribers * t.clients
    && t.waiting == s.waiting * t.clients && t.spent == s.spent && t.once == s.once
    && (t.server == None || t.server == s.server)
    && IdsShrink(s.axis, t.axis)
    && s.emitted <= t.emitted && s.broken <= t.broken
  }

  /** Who leaves: only `why`, subscribers whose socket is broken, and with the gate
      closed the capture streams. */
  ghost predicate Departed(s: State, t: State, why: set<ClientId>) {
    forall id :: id in s.clients && id !in t.clients ==>
      id in why || (id in s.subscribers && id in t.broken) || (id in s.captures && !t.capture)
  }

  /** After the last event sent, every subscriber left has taken it. */
  ghost predicate Heard(s: State, t: State) {
    if t.emitted == s.emitted then t.broken == s.broken else t.subscribers !! t.broken
  }

  /** The gates change only by the server's loss, which closes the remote gate and
      with it the two it couples. */
  ghost predicate GatesKept(s: State, t: State) {
    if t.server == s.server then
      t.remote == s.remote && t.automation == s.automation && t.capture == s.capture && t.viewers == s.viewers
    else
      && !t.remote && t.viewers == 0
      && t.automation == (!s.remote && s.automation) && t.capture == (!s.remote && s.capture)
  }

  /** The registration goes with the server's connection. */
  ghost predicate ServerKept(s: State, t: State) {
    t.server == if s.server.Some? && s.server.value in t.clients then s.server else None
  }

  /** The forwarded pointer stays put while the view does, and starts at the centre
      of a machine come into view. */
  ghost predicate PointerKept(s: State, t: State) {
    && s.view <= |s.axis| && t.view <= |t.axis|
    && (|| t.view == 0
        || t.pointer == Centre(t.axis[t.view - 1])
        || (t.view == s.view && t.pointer == s.pointer && t.axis[t.view - 1] == s.axis[s.view - 1]))
  }

  /** Of a healthy axis the machines of who is left stay, with the view on its client. */
  ghost predicate HealthKept(s: State, t: State) {
    HealthyOf(s) && s.view <= |s.axis| ==>
      HealthyOf(t) && Stands(ViewId(s.axis, s.view), s.axis, t.clients, t.axis, t.view)
  }

  /** The promise of every part of the cascade: the invariant at the end, nothing
      added, and nobody gone but for a reason. */
  ghost predicate Tidy(s: State, t: State, why: set<ClientId>) {
    CoreOf(t) && ViewOkOf(t) && Shrunk(s, t) && Departed(s, t, why) && Heard(s, t) && (ConsentOf(s) ==> ConsentOf(t))
  }

  ghost predicate Calm(s: State, t: State, why: set<ClientId>) {
    Tidy(s, t, why) && PointerKept(s, t) && HealthKept(s, t)
  }

  /** The whole promise of one call into the cascade. */
  ghost predicate Settled(s: State, t: State, why: set<ClientId>) {
    Calm(s, t, why) && GatesKept(s, t) && ServerKept(s, t)
  }

  /** `e` has been sent, and to none of `gone`. */
  ghost predicate Announced(s: State, t: State, e: Event, gone: set<ClientId>) {
    exists k :: |s.emitted| <= k < |t.emitted| && t.emitted[k].event == e && t.emitted[k].to !! gone
  }

  lemma HealthOn(s: State, t: State, u: State)
    requires HealthKept(s, t) && HealthKept(t, u) && t.view <= |t.axis|
    requires u.clients <= t.clients && IdsShrink(t.axis, u.axis)
    ensures HealthKept(s, u)
  {
    if HealthyOf(s) && s.view <= |s.axis| {
      StandsOn(ViewId(s.axis, s.view), s.axis, t.clients, t.axis, t.view, u.clients, u.axis, u.view);
    }
  }

  lemma DepartedOn(s: State, t: State, u: State, why1: set<ClientId>, why2: set<ClientId>)
    requires Departed(s, t, why1) && Departed(t, u, why2) && Shrunk(s, t) && Shrunk(t, u) && (u.capture ==> t.capture)
    ensures Departed(s, u, why1 + why2)
  {
  }

  lemma ShrunkOn(s: State, t: State, u: State)
    requires Shrunk(s, t) && Shrunk(t, u)
    ensures Shrunk(s, u)
  {
  }

  /** One part of the cascade after another. */
  lemma CalmOn(s: State, t: State, u: State, why1: set<ClientId>, why2: set<ClientId>)
    requires Calm(s, t, why1) && Calm(t, u, why2) && (u.capture ==> t.capture)
    ensures Calm(s, u, why1 + why2)
  {
    ShrunkOn(s, t, u);
    DepartedOn(s, t, u, why1, why2);
    HealthOn(s, t, u);
  }

  /** What switching the view to `target` comes to: nothing if it is there already, and
      else an event, and the pointer at the centre of the remote in view. */
  ghost predicate Viewed(s: State, t: State, target: nat) {
    if s.view == target then t == s
    else
      && |s.emitted| < |t.emitted| && t.emitted[|s.emitted|] == Sent(ViewChanged(target), s.subscribers)
      && (0 < t.view <= |t.axis| ==> t.pointer == Centre(t.axis[t.view - 1]))
  }

  /** A machine goes, the view not being on it or behind it. */
  lemma StayedOn(s: State, t: State)
    requires t == s.(axis := t.axis) && FuelOf(t) <= FuelOf(s) && IdsShrink(s.axis, t.axis)
    requires CoreOf(s) && ViewOkOf(s) && CoreOf(t) && ViewOkOf(t)
    requires s.view > 0 ==> t.axis[s.view - 1] == s.axis[s.view - 1]
    ensures Tidy(s, t, {}) && PointerKept(s, t) && GatesKept(s, t) && ServerKept(s, t)
  {
  }

  /** A machine goes, and then the view moves with the one it is on. */
  lemma ShiftedOn(s: State, t: State, u: State)
    requires t == s.(axis := t.axis) && FuelOf(t) <= FuelOf(s) && IdsShrink(s.axis, t.axis) && ViewOkOf(s)
    requires Tidy(t, u, {}) && GatesKept(t, u) && ServerKept(t, u)
    requires u.view > 0 ==> u.pointer == Centre(u.axis[u.view - 1])
    ensures Tidy(s, u, {}) && PointerKept(s, u) && GatesKept(s, u) && ServerKept(s, u)
  {
  }

  /** What asking for the view `index` comes to. */
  ghost predicate ViewSet(s: State, t: State, index: nat) {
    && Tidy(s, t, {}) && GatesKept(s, t) && ServerKept(s, t)
    && Viewed(s, t, if index <= |s.axis| then index else |s.axis|)
    && (HealthyOf(s) ==>
          && HealthyOf(t) && t.axis == Kept(s.axis, t.clients) && Lands(s.axis, index, t.axis, t.view)
          && (index <= |s.axis| ==> Follows(ViewId(s.axis, index), t.axis, t.view)))
  }

  lemma ViewStays(s: State, index: nat)
    requires CoreOf(s) && ViewOkOf(s) && Clamped(index, s.axis) == s.view
    ensures ViewSet(s, s, index)
  {
    NothingSettles(s);
  }

  /** The view turns, and the event about it goes out. */
  lemma ViewTurns(s: State, t: State, u: State, index: nat)
    requires t == s.(view := t.view, pointer := t.pointer) && t.view == Clamped(index, s.axis) != s.view
    requires t.view > 0 ==> t.pointer == Centre(t.axis[t.view - 1])
    requires Settled(t, u, {})
    requires |s.emitted| < |u.emitted| && u.emitted[|s.emitted|] == Sent(ViewChanged(t.view), s.subscribers)
    ensures ViewSet(s, u, index)
  {
    TurnedOn(s, t, u);
    if HealthyOf(s) {
      TurnedHealth(s, t, u, index);
    }
  }

  lemma TurnedOn(s: State, t: State, u: State)
    requires t == s.(view := t.view, pointer := t.pointer) && t.view <= |t.axis|
    requires t.view > 0 ==> t.pointer == Centre(t.axis[t.view - 1])
    requires Settled(t, u, {})
    ensures Tidy(s, u, {}) && GatesKept(s, u) && ServerKept(s, u)
    ensures u.view > 0 ==> u.pointer == Centre(u.axis[u.view - 1])
  {
  }

  lemma TurnedHealth(s: State, t: State, u: State, index: nat)
    requires t == s.(view := t.view, pointer := t.pointer) && t.view == Clamped(index, t.axis)
    requires HealthKept(t, u) && HealthyOf(s)
    ensures HealthyOf(u) && u.axis == Kept(s.axis, u.clients) && Lands(s.axis, index, u.axis, u.view)
    ensures index <= |s.axis| ==> Follows(ViewId(s.axis, index), u.axis, u.view)
  {
  }

  lemma WhyMore(s: State, t: State, why: set<ClientId>, more: set<ClientId>)
    requires Settled(s, t, why) && why <= more
    ensures Settled(s, t, more)
  {
  }

  /** An event goes out and those it cannot reach are dropped. */
  lemma SentOn(s: State, t: State, u: State, sent: Sent, newly: set<ClientId>)
    requires t == s.(clean := s.clean && Live(s.axis, s.clients), emitted := s.emitted + [sent],
                     broken := s.broken + newly)
    requires Settled(t, u, t.subscribers * t.broken) && u.subscribers !! u.broken
    ensures Settled(s, u, {})
  {
  }

  /** What a client's departure comes to once it is off the clients: its machine leaves,
      and the view follows the one it is on. */
  ghost predicate MachineDropped(s: State, t: State, id: ClientId) {
    && Tidy(s, t, {}) && PointerKept(s, t) && GatesKept(s, t) && ServerKept(s, t)
    && (s.view == 0 ==> t.clients == s.clients && t.axis == Without(s.axis, id) && t.view == 0)
    && (DistinctIds(s.axis) && s.clean && Live(s.axis, s.clients + {id}) ==>
          HealthyOf(t) && Stands(ViewId(s.axis, s.view), s.axis, t.clients, t.axis, t.view))
  }

  lemma NoMachine(s: State, id: ClientId)
    requires CoreOf(s) && ViewOkOf(s) && IndexOf(s.axis, id) == |s.axis|
    ensures MachineDropped(s, s, id)
  {
    NothingSettles(s);
    NotOnAxis(s.axis, s.clients, id);
    if Live(s.axis, s.clients) {
      KeptAll(s.axis, s.clients);
    }
  }

  /** The machine's leaving, the view yet to move. */
  ghost predicate MachineOff(s: State, t: State, id: ClientId, newView: nat) {
    && t == s.(axis := Without(s.axis, id)) && FuelOf(t) <= FuelOf(s) && IdsShrink(s.axis, t.axis)
    && CoreOf(s) && ViewOkOf(s) && CoreOf(t) && newView <= |t.axis| && (s.view == 0 ==> newView == 0)
    && (newView == s.view > 0 ==> t.axis[newView - 1] == s.axis[newView - 1])
    && (DistinctIds(s.axis) && s.clean && Live(s.axis, s.clients + {id}) ==>
          HealthyOf(t) && Stands(ViewId(s.axis, s.view), s.axis, t.clients, t.axis, newView))
  }

  lemma MachineGoes(s: State, id: ClientId)
    requires CoreOf(s) && ViewOkOf(s) && IndexOf(s.axis, id) < |s.axis| && id !in s.clients
    ensures var t, newView := s.(axis := Without(s.axis, id)), ViewAfterRemoval(s.view, IndexOf(s.axis, id) + 1);
      MachineOff(s, t, id, newView) && FuelOf(t) < FuelOf(s) && (newView == s.view ==> ViewOkOf(t))
  {
    WithoutShrinks(s.axis, id);
    RemovalStep(s.axis, s.view, id);
    if DistinctIds(s.axis) && s.clean && Live(s.axis, s.clients + {id}) {
      RemovalHealthy(s.axis, s.view, s.clients, id);
      WithoutKept(s.axis, s.clients, id);
    }
  }

  lemma MachineLeaves(s: State, t: State, id: ClientId)
    requires MachineOff(s, t, id, s.view) && ViewOkOf(t)
    ensures MachineDropped(s, t, id)
  {
    StayedOn(s, t);
  }

  lemma MachineShifts(s: State, t: State, u: State, id: ClientId, newView: nat)
    requires MachineOff(s, t, id, newView) && newView != s.view && ViewSet(t, u, newView)
    ensures MachineDropped(s, u, id)
  {
    ShiftedOn(s, t, u);
    if DistinctIds(s.axis) && s.clean && Live(s.axis, s.clients + {id}) {
      StandsOn(ViewId(s.axis, s.view), s.axis, t.clients, t.axis, newView, u.clients, u.axis, u.view);
    }
  }

  /** The gates and the viewers are nothing to the calm. */
  lemma CalmAside(s: State, t: State, u: State, v: State, why: set<ClientId>)
    requires t == s.(remote := t.remote, automation := t.automation, viewers := t.viewers) && Calm(t, u, why)
    requires v == u.(viewers := v.viewers)
    ensures Calm(s, v, why)
  {
  }

  /** A client goes, and then its machine. */
  lemma ForgottenOn(s: State, t: State, u: State, id: ClientId)
    requires t == s.(clients := s.clients - {id}, subscribers := s.subscribers - {id}, captures := s.captures - {id},
                     waiting := s.waiting - {id})
    requires FuelOf(t) <= FuelOf(s) && s.server != Some(id)
    requires MachineDropped(t, u, id) && id !in t.clients
    ensures Settled(s, u, {id})
  {
    ForgottenRoles(s, t, u, id);
    assert Departed(s, u, {id});
    ForgetLive(s.axis, s.clients, id);
  }

  lemma ForgottenRoles(s: State, t: State, u: State, id: ClientId)
    requires t == s.(clients := s.clients - {id}, subscribers := s.subscribers - {id}, captures := s.captures - {id},
                     waiting := s.waiting - {id})
    requires FuelOf(t) <= FuelOf(s) && Shrunk(t, u)
    ensures Shrunk(s, u)
  {
    assert id !in u.clients;
  }

  /** The consent to streams is withdrawn, and they go. */
  lemma RevokedOn(s: State, t: State, u: State)
    requires t == s.(capture := false) && Settled(t, u, t.captures) && u.clients !! t.captures
    ensures Calm(s, u, {}) && ServerKept(s, u) && u.captures == {} && !u.capture
  {
  }

  lemma GrantedOn(s: State, t: State)
    requires t == s.(capture := true) && CoreOf(s) && ViewOkOf(s)
    ensures Calm(s, t, {}) && ServerKept(s, t)
  {
    NothingSettles(s);
  }

  /** The server's registration goes, and the gates with it. */
  lemma ClearedOn(s: State, t: State, u: State, v: State)
    requires t == s.(server := None) && Calm(t, u, {}) && v == u.(viewers := 0) && s.server.Some?
    ensures Calm(s, v, {}) && FuelOf(v) < FuelOf(s)
  {
  }

  lemma ClearedIdle(s: State)
    requires CoreOf(s) && ViewOkOf(s) && !s.remote
    ensures var t := s.(server := None); Calm(t, t, {})
  {
    NothingSettles(s.(server := None));
  }

  /** What a connection's becoming the server comes to, whoever leaves over it. */
  ghost predicate Registered(s: State, t: State, id: ClientId) {
    && CoreOf(t) && ViewOkOf(t) && (ConsentOf(s) ==> ConsentOf(t))
    && t.server == (if id in t.clients then Some(id) else None)
    && t.subscribers == (s.subscribers + {id}) * t.clients
    && t.captures == s.captures * t.clients && t.waiting == s.waiting * t.clients && t.clients <= s.clients
    && PointerKept(s, t) && HealthKept(s, t) && IdsShrink(s.axis, t.axis) && t.once == s.once
  }

  /** A connection becomes the server, and the event about it goes out. */
  lemma RegisteredOn(s: State, t: State, u: State, id: ClientId)
    requires t == s.(server := Some(id), subscribers := s.subscribers + {id}, spent := t.spent)
    requires id in s.clients && Settled(t, u, {})
    ensures Registered(s, u, id) && u.spent == t.spent
  {
  }

  lemma SettledOn(s: State, t: State, u: State, why1: set<ClientId>, why2: set<ClientId>)
    requires Settled(s, t, why1) && Settled(t, u, why2)
    ensures Settled(s, u, why1 + why2)
  {
    CalmOn(s, t, u, why1, why2);
  }

  lemma AnnouncedOn(s: State, t: State, u: State, e: Event, gone: set<ClientId>)
    requires s.emitted <= t.emitted <= u.emitted
    ensures Announced(s, t, e, gone) || Announced(t, u, e, gone) ==> Announced(s, u, e, gone)
  {
    if Announced(s, t, e, gone) {
      var k :| |s.emitted| <= k < |t.emitted| && t.emitted[k].event == e && t.emitted[k].to !! gone;
      assert u.emitted[k] == t.emitted[k];
    }
  }

  /** Nothing having happened is a way to settle. */
  lemma NothingSettles(s: State)
    requires CoreOf(s) && ViewOkOf(s)
    ensures Settled(s, s, {})
  {
    if HealthyOf(s) {
      KeptAll(s.axis, s.clients);
    }
  }

  class Compositor {
    var clients: set<ClientId>
    var subscribers: set<ClientId>
    var captures: set<ClientId>
    /** Connections parked on a wait. */
    var waiting: set<ClientId>
    /** Connections whose one request has been answered: a further one is refused. */
    var spent: set<ClientId>

    var axis: seq<Machine>
    var viewIndex: nat
    var remotePointer: (real, real)

    var remoteServer: Option<ClientId>
    var remoteEnabled: bool
    var automationEnabled: bool
    var captureEnabled: bool
    var viewers: nat

    /** The environment's: sockets that have stopped taking bytes. */
    var broken: set<ClientId>
    /** The events sent so far. */
    ghost var emitted: seq<Sent>
    /** Every emit so far found the axis made of live clients. */
    ghost var clean: bool
    /** No connection has registered as a machine while one of its was on the axis. */
    ghost var once: bool

    constructor ()
      ensures Valid()
      ensures Now() == State({}, {}, {}, {}, {}, [], 0, (0.0, 0.0), None, false, false, false, 0, {}, [], true, true)
    {
      clients, subscribers, captures, waiting, spent := {}, {}, {}, {}, {};
      axis, viewIndex, remotePointer := [], 0, (0.0, 0.0);
      remoteServer, remoteEnabled, automationEnabled, captureEnabled, viewers := None, false, false, false, 0;
      broken := {};
      emitted, clean, once := [], true, true;
    }

    // ----- invariants -----

    ghost function Now(): State
      reads this
    {
      State(clients, subscribers, captures, waiting, spent, axis, viewIndex, remotePointer, remoteServer,
            remoteEnabled, automationEnabled, captureEnabled, viewers, broken, emitted, clean, once)
    }

    ghost predicate Core()
      reads this
    {
      CoreOf(Now())
    }

    ghost predicate ViewOk()
      reads this
    {
      ViewOkOf(Now())
    }

    ghost predicate Healthy()
      reads this
    {
      HealthyOf(Now())
    }

    ghost predicate Valid()
      reads this
    {
      Core() && ViewOk() && ConsentOf(Now()) && (once ==> Healthy())
    }

    /** What bounds the cascade: each emit or drop inside it has used up a client, a
        machine or the server registration. */
    ghost function Fuel(): nat
      reads this
    {
      FuelOf(Now())
    }

    /** The whole promise of one call into the cascade. */
    twostate predicate Settles(why: set<ClientId>)
      reads this
    {
      Settled(old(Now()), Now(), why)
    }

    twostate predicate Calms(why: set<ClientId>)
      reads this
    {
      Calm(old(Now()), Now(), why)
    }

    twostate predicate Announces(e: Event, gone: set<ClientId>)
      reads this
    {
      Announced(old(Now()), Now(), e, gone)
    }

    // ----- the cascade -----

    /** Send an event to every subscriber. Those whose socket takes no more are dropped.
        A window event may also answer parked waits, whose connections are dropped in
        turn. */
    method EmitIpc(e: Event)
      requires Core() && ViewOk()
      modifies this
      ensures Settles(if e.WindowEvent? then old(waiting) else {})
      ensures subscribers !! broken
      ensures |old(emitted)| < |emitted| && emitted[|old(emitted)|] == Sent(e, old(subscribers))
      ensures old(subscribers) == {} && !e.WindowEvent? ==>
                clients == old(clients) && axis == old(axis) && viewIndex == old(viewIndex)
      decreases Fuel(), 3, 2
    {
      ghost var s := Now();
      SendAll(e);
      if e.WindowEvent? {
        ghost var t := Now();
        AnswerWaits();
        SettledOn(s, t, Now(), {}, t.waiting);
        WhyMore(s, Now(), {} + t.waiting, s.waiting);
        assert emitted[|s.emitted|] == t.emitted[|s.emitted|];
      }
    }

    method SendAll(e: Event)
      requires Core() && ViewOk()
      modifies this
      ensures Settles({}) && subscribers !! broken
      ensures |old(emitted)| < |emitted| && emitted[|old(emitted)|] == Sent(e, old(subscribers))
      ensures old(subscribers) == {} ==>
                clients == old(clients) && axis == old(axis) && viewIndex == old(viewIndex)
      decreases Fuel(), 3, 1
    {
      ghost var s := Now();
      var newly := Write(e);
      ghost var t := Now();
      DropAll(subscribers * broken);
      SentOn(s, t, Now(), Sent(e, s.subscribers), newly);
      assert emitted[|s.emitted|] == t.emitted[|s.emitted|];
    }

    /** The event is written to every subscriber; some sockets may turn out broken. */
    method Write(e: Event) returns (newly: set<ClientId>)
      modifies this`clean, this`emitted, this`broken
      ensures newly <= subscribers
      ensures var s := old(Now());
              Now() == s.(clean := s.clean && Live(s.axis, s.clients),
                          emitted := s.emitted + [Sent(e, s.subscribers)], broken := s.broken + newly)
    {
      clean := clean && Live(axis, clients);
      emitted := emitted + [Sent(e, subscribers)];
      newly :| newly <= subscribers;
      broken := broken + newly;
    }

    method AnswerWaits()
      requires Core() && ViewOk()
      modifies this
      ensures Settles(old(waiting))
      decreases Fuel(), 3, 0
    {
      ghost var s := Now();
      var finished: set<ClientId> :| finished <= waiting;
      DropAll(finished);
      WhyMore(s, Now(), finished, s.waiting);
    }

    method DropAll(ids: set<ClientId>)
      requires Core() && ViewOk()
      modifies this
      ensures Settles(ids) && clients !! ids
      ensures ids == {} ==> clients == old(clients) && axis == old(axis) && viewIndex == old(viewIndex)
                            && emitted == old(emitted)
      ensures old(subscribers) * old(broken) <= ids ==> subscribers !! broken
      decreases Fuel(), 2, ids
    {
      ghost var s := Now();
      if ids == {} {
        NothingSettles(s);
        return;
      }
      var id :| id in ids;
      DropIpcClient(id);
      ghost var t := Now();
      DropAll(ids - {id});
      SettledOn(s, t, Now(), {id}, ids - {id});
      assert {id} + (ids - {id}) == ids;
    }

    method DropIpcClient(id: ClientId)
      requires Core() && ViewOk()
      modifies this
      ensures Settles({id}) && id !in clients
      ensures old(viewIndex) == 0 && old(remoteServer) != Some(id) ==>
                clients == old(clients) - {id} && axis == Without(old(axis), id) && viewIndex == 0
      ensures old(remoteServer) == Some(id) ==> Announces(RemoteChanged, {id})
      ensures old(remoteServer) == Some(id) && old(remoteEnabled) && old(automationEnabled) ==>
                Announces(AutomationChanged, {id})
      ensures old(remoteServer) == Some(id) && old(remoteEnabled) && old(captureEnabled) ==>
                Announces(CaptureChanged, {id})
      decreases Fuel(), 1, 1
    {
      if remoteServer == Some(id) {
        DropServerClient(id);
      } else {
        RemoveClient(id);
      }
    }

    /** The server's own connection: the registration and the gates go before the
        client does, the announcements come after. */
    method DropServerClient(id: ClientId)
      requires Core() && ViewOk() && remoteServer == Some(id)
      modifies this
      ensures Settles({id}) && id !in clients
      ensures Announces(RemoteChanged, {id})
      ensures old(remoteEnabled) && old(automationEnabled) ==> Announces(AutomationChanged, {id})
      ensures old(remoteEnabled) && old(captureEnabled) ==> Announces(CaptureChanged, {id})
      decreases Fuel(), 1, 0
    {
      ghost var s := Now();
      var autoChanged, captureChanged := ClearServer();
      ghost var t := Now();
      RemoveClient(id);
      ghost var u := Now();
      CalmOn(s, t, u, {}, {id});
      Announce(true, autoChanged, captureChanged, {id});
      CalmOn(s, u, Now(), {id}, {});
    }

    /** The registered server is going: no server, no remote access. */
    method ClearServer() returns (autoChanged: bool, captureChanged: bool)
      requires Core() && ViewOk() && remoteServer.Some?
      modifies this
      ensures Calms({}) && GatesKept(old(Now()), Now()) && remoteServer == None && Fuel() < old(Fuel())
      ensures autoChanged == (old(remoteEnabled) && old(automationEnabled))
      ensures captureChanged == (old(remoteEnabled) && old(captureEnabled))
      decreases Fuel(), 0
    {
      ghost var s := Now();
      remoteServer := None;
      ghost var t := Now();
      autoChanged, captureChanged := false, false;
      if remoteEnabled {
        autoChanged, captureChanged := SetRemote(false);
      } else {
        ClearedIdle(s);
      }
      ghost var u := Now();
      viewers := 0;
      ClearedOn(s, t, u, Now());
    }

    method RemoveClient(id: ClientId)
      requires Core() && ViewOk() && remoteServer != Some(id)
      modifies this
      ensures Settles({id}) && id !in clients
      ensures old(viewIndex) == 0 ==>
                clients == old(clients) - {id} && axis == Without(old(axis), id) && viewIndex == 0
      decreases Fuel(), 0, 1
    {
      ghost var s := Now();
      ForgetClient(id);
      ghost var t := Now();
      var _ := DropRemoteClient(id);
      ForgottenOn(s, t, Now(), id);
    }

    method ForgetClient(id: ClientId)
      requires Core() && ViewOk() && remoteServer != Some(id)
      modifies this`clients, this`subscribers, this`captures, this`waiting
      ensures Core() && ViewOk() && Fuel() <= old(Fuel())
      ensures clients == old(clients) - {id} && waiting == old(waiting) - {id}
      ensures captures == old(captures) - {id} && subscribers == old(subscribers) - {id}
    {
      ForgetLive(axis, clients, id);
      waiting := waiting - {id};
      clients := clients - {id};
      subscribers := subscribers - {id};
      captures := captures - {id};
    }

    /** Take a departed client's machine off the axis and move the view with the
        machine it is on. */
    method DropRemoteClient(id: ClientId) returns (removed: bool)
      requires Core() && ViewOk() && id !in clients
      modifies this
      ensures MachineDropped(old(Now()), Now(), id) && (removed <==> old(OnAxis(axis, id)))
      decreases Fuel(), 0, 0
    {
      ghost var s := Now();
      WithoutShrinks(axis, id);
      removed := IndexOf(axis, id) < |axis|;
      if !removed {
        NoMachine(s, id);
        return;
      }
      var newView := TakeOffAxis(id);
      ghost var t := Now();
      if newView == viewIndex {
        MachineLeaves(s, t, id);
      } else {
        SetView(newView);
        MachineShifts(s, t, Now(), id, newView);
      }
    }

    method TakeOffAxis(id: ClientId) returns (newView: nat)
      requires Core() && ViewOk() && IndexOf(axis, id) < |axis| && id !in clients
      modifies this`axis
      ensures MachineOff(old(Now()), Now(), id, newView) && Fuel() < old(Fuel())
      ensures newView == viewIndex ==> ViewOk()
    {
      MachineGoes(Now(), id);
      newView := ViewAfterRemoval(viewIndex, IndexOf(axis, id) + 1);
      axis := Without(axis, id);
    }

    /** Switch the view, clamped to the machines there are; a remote's pointer
        starts at its centre. */
    method SetView(index: nat)
      requires Core() && (ViewOk() || Clamped(index, axis) != viewIndex)
      modifies this
      ensures ViewSet(old(Now()), Now(), index)
      decreases Fuel(), 5
    {
      var target := Clamped(index, axis);
      if target == viewIndex {
        ViewStays(Now(), index);
      } else {
        Turn(target, index);
      }
    }

    method Turn(target: nat, ghost index: nat)
      requires Core() && target == Clamped(index, axis) != viewIndex
      modifies this
      ensures ViewSet(old(Now()), Now(), index)
      decreases Fuel(), 4
    {
      ghost var s := Now();
      LookAt(target);
      ghost var t := Now();
      EmitIpc(ViewChanged(target));
      ViewTurns(s, t, Now(), index);
    }

    method LookAt(target: nat)
      requires Core() && target <= |axis|
      modifies this`viewIndex, this`remotePointer
      ensures var s := old(Now());
              Now() == s.(view := target, pointer := if target > 0 then Centre(s.axis[target - 1]) else s.pointer)
      ensures Core() && ViewOk()
    {
      viewIndex := target;
      if viewIndex > 0 {
        var m := axis[viewIndex - 1];
        remotePointer := (m.width as real / 2.0, m.height as real / 2.0);
      }
    }

    // ----- the gates -----

    /** Flip the remote gate and the two it couples. Turning it off ends every
        capture stream. */
    method SetRemote(enabled: bool) returns (autoChanged: bool, captureChanged: bool)
      requires CoreButGateOf(Now()) && ViewOk() && (enabled ==> remoteServer.Some?)
      modifies this
      ensures Calms({}) && ServerKept(old(Now()), Now())
      ensures remoteEnabled == automationEnabled == captureEnabled == enabled
      ensures if !enabled then viewers == 0 && (captureChanged ==> captures == {}) else viewers == old(viewers)
      ensures enabled ==> clients == old(clients) && axis == old(axis) && viewIndex == old(viewIndex)
                          && emitted == old(emitted)
      ensures autoChanged == (old(automationEnabled) != enabled) && captureChanged == (old(captureEnabled) != enabled)
      decreases Fuel(), 6
    {
      ghost var s := Now();
      remoteEnabled := enabled;
      ghost var t := Now();
      autoChanged := automationEnabled != enabled;
      captureChanged := SetAutomation(enabled);
      ghost var u := Now();
      if !enabled {
        viewers := 0;
      }
      CalmAside(s, t, u, Now(), {});
    }

    method SetAutomation(enabled: bool) returns (captureChanged: bool)
      requires Core() && ViewOk()
      modifies this
      ensures Calms({}) && ServerKept(old(Now()), Now())
      ensures automationEnabled == captureEnabled == enabled
      ensures remoteEnabled == (old(remoteEnabled) && remoteServer == old(remoteServer))
      ensures viewers == if remoteServer == old(remoteServer) then old(viewers) else 0
      ensures !enabled && captureChanged ==> captures == {}
      ensures enabled ==> clients == old(clients) && axis == old(axis) && viewIndex == old(viewIndex)
                          && emitted == old(emitted)
      ensures captureChanged == (old(captureEnabled) != enabled)
      decreases Fuel(), 5
    {
      ghost var s := Now();
      automationEnabled := enabled;
      ghost var t := Now();
      captureChanged := captureEnabled != enabled;
      if captureChanged {
        SetScreenCapture(enabled);
      } else {
        NothingSettles(t);
      }
      CalmAside(s, t, Now(), Now(), {});
    }

    /** Closing the gate ends every capture stream at once. */
    method SetScreenCapture(enabled: bool)
      requires Core() && ViewOk()
      modifies this
      ensures Calms({}) && ServerKept(old(Now()), Now())
      ensures captureEnabled == enabled && (!enabled ==> captures == {})
      ensures remoteEnabled == (old(remoteEnabled) && remoteServer == old(remoteServer))
      ensures automationEnabled ==
              (old(automationEnabled) && (remoteServer == old(remoteServer) || !old(remoteEnabled)))
      ensures viewers == if remoteServer == old(remoteServer) then old(viewers) else 0
      ensures enabled ==> clients == old(clients) && axis == old(axis) && viewIndex == old(viewIndex)
                          && emitted == old(emitted)
      decreases Fuel(), 4
    {
      ghost var s := Now();
      captureEnabled := enabled;
      ghost var t := Now();
      if enabled {
        GrantedOn(s, t);
      } else {
        DropAll(captures);
        RevokedOn(s, t, Now());
      }
    }

    /** Tell subscribers what changed. `gone` are clients that are not there any more. */
    method Announce(changed: bool, autoChanged: bool, captureChanged: bool, ghost gone: set<ClientId>)
      requires Core() && ViewOk() && gone !! clients
      modifies this
      ensures Settles({})
      ensures changed ==> Announces(RemoteChanged, gone)
      ensures autoChanged ==> Announces(AutomationChanged, gone)
      ensures captureChanged ==> Announces(CaptureChanged, gone)
      decreases Fuel(), 5
    {
      ghost var s := Now();
      EmitIf(autoChanged, AutomationChanged, gone);
      ghost var t := Now();
      EmitIf(captureChanged, CaptureChanged, gone);
      ghost var u := Now();
      EmitIf(changed, RemoteChanged, gone);
      SettledOn(s, t, u, {}, {});
      SettledOn(s, u, Now(), {}, {});
      AnnouncedOn(s, t, Now(), AutomationChanged, gone);
      AnnouncedOn(s, t, u, CaptureChanged, gone);
      AnnouncedOn(s, u, Now(), CaptureChanged, gone);
      AnnouncedOn(s, u, Now(), RemoteChanged, gone);
    }

    method EmitIf(changed: bool, e: Event, ghost gone: set<ClientId>)
      requires Core() && ViewOk() && !e.WindowEvent? && gone !! clients
      modifies this
      ensures Settles({}) && (changed ==> Announces(e, gone))
      decreases Fuel(), 4
    {
      if changed {
        EmitIpc(e);
      } else {
        NothingSettles(Now());
      }
    }

    // ----- requests and input, from one valid state to the next -----

    method Connect(id: ClientId)
      requires Valid() && id !in clients && id !in spent
      modifies this`clients
      ensures Valid() && clients == old(clients) + {id}
    {
      clients := clients + {id};
    }

    /** The connection closes, for whatever reason. */
    method Disconnect(id: ClientId)
      requires Valid()
      modifies this
      ensures Valid() && Settles({id}) && id !in clients
      ensures old(Healthy()) ==> !OnAxis(axis, id)
    {
      DropIpcClient(id);
      OnAxisMeans(axis, id);
    }

    method Broadcast(e: Event)
      requires Valid()
      modifies this
      ensures Valid() && Settles(if e.WindowEvent? then old(waiting) else {}) && subscribers !! broken
      ensures |old(emitted)| < |emitted| && emitted[|old(emitted)|] == Sent(e, old(subscribers))
    {
      EmitIpc(e);
    }

    /** A client whose reply cannot be written is not subscribed but closed. */
    method SubscribeEvents(id: ClientId, written: bool) returns (kept: bool)
      requires Valid() && id in clients && id !in spent
      modifies this`subscribers, this`spent
      ensures Valid() && kept == written
      ensures subscribers == if kept then old(subscribers) + {id} else old(subscribers)
      ensures spent == if kept then old(spent) + {id} else old(spent)
    {
      if written {
        subscribers := subscribers + {id};
        spent := spent + {id};
      }
      return written;
    }

    method CaptureStream(id: ClientId, written: bool) returns (kept: bool)
      requires Valid() && id in clients && id !in spent
      modifies this`captures, this`spent
      ensures Valid()
      ensures kept <==> captureEnabled && written
      ensures captures == if kept then old(captures) + {id} else old(captures)
      ensures spent == if kept then old(spent) + {id} else old(spent)
    {
      if !captureEnabled || !written {
        return false;
      }
      captures := captures + {id};
      spent := spent + {id};
      return true;
    }

    method ParkWait(id: ClientId)
      requires Valid() && id in clients && id !in spent
      modifies this`waiting, this`spent
      ensures Valid() && waiting == old(waiting) + {id} && spent == old(spent) + {id}
    {
      waiting := waiting + {id};
      spent := spent + {id};
    }

    /** This connection is the remote server from now on, whoever was before. */
    method RegisterRemoteServer(id: ClientId, written: bool)
      requires Valid() && id in clients && id !in spent
      modifies this
      ensures Valid() && Registered(old(Now()), Now(), id) && subscribers !! broken
      ensures spent == if written then old(spent) + {id} else old(spent)
      ensures Announces(RemoteChanged, {})
    {
      ghost var s := Now();
      Enlist(id, written);
      ghost var t := Now();
      EmitIpc(RemoteChanged);
      RegisteredOn(s, t, Now(), id);
    }

    method Enlist(id: ClientId, written: bool)
      requires Core() && ViewOk() && id in clients
      modifies this`remoteServer, this`subscribers, this`spent
      ensures var s := old(Now());
              Now() == s.(server := Some(id), subscribers := s.subscribers + {id},
                          spent := if written then s.spent + {id} else s.spent)
      ensures Core() && ViewOk()
    {
      remoteServer := Some(id);
      subscribers := subscribers + {id};
      if written {
        spent := spent + {id};
      }
    }

    /** A machine joins the end of the axis. Its connection is spent by the reply if
        that is written, and may register again if not. A healthy axis stays healthy
        exactly when the connection has no machine on it yet. */
    method RegisterRemoteClient(id: ClientId, width: nat, height: nat, written: bool)
      requires Valid() && id in clients && id !in spent && |axis| < 255
      modifies this`axis, this`subscribers, this`spent, this`once
      ensures Valid() && axis == old(axis) + [Machine(id, width, height)]
      ensures old(Healthy()) ==> (Healthy() <==> !OnAxis(old(axis), id))
      ensures viewIndex == old(viewIndex) && ViewId(axis, viewIndex) == old(ViewId(axis, viewIndex))
      ensures once == (old(once) && !OnAxis(old(axis), id))
      ensures subscribers == old(subscribers) + {id}
      ensures spent == if written then old(spent) + {id} else old(spent)
    {
      if Healthy() {
        DistinctWithOneMore(axis, Machine(id, width, height));
      }
      once := once && !OnAxis(axis, id);
      axis := axis + [Machine(id, width, height)];
      subscribers := subscribers + {id};
      if written {
        spent := spent + {id};
      }
    }

    /** `bad`: the lease asked for is refused. `armed`: its timer, if it needs one,
        could be registered; otherwise the gate goes off again. `leased`: a lease was
        there before or is now, which is news even when no gate changes. */
    method SetRemoteRequest(enabled: bool, bad: bool, armed: bool, leased: bool) returns (ok: bool)
      requires Valid()
      modifies this
      ensures Valid() && Calms({}) && ServerKept(old(Now()), Now())
      ensures ok <==> !(enabled && old(remoteServer) == None) && !bad
      ensures !ok ==> Now() == old(Now())
      ensures ok ==>
                var on := enabled && armed;
                && remoteEnabled == automationEnabled == captureEnabled == (on && remoteServer.Some?)
                && (leased || old(remoteEnabled) != on ==> Announces(RemoteChanged, {}))
                && (old(automationEnabled) != on ==> Announces(AutomationChanged, {}))
                && (old(captureEnabled) != on ==> Announces(CaptureChanged, {}))
    {
      ghost var s := Now();
      if (enabled && remoteServer == None) || bad {
        NothingSettles(s);
        return false;
      }
      var wasRemote, wasAuto, wasCapture := remoteEnabled, automationEnabled, captureEnabled;
      Flip(enabled, armed);
      ghost var t := Now();
      Announce(remoteEnabled != wasRemote || leased, automationEnabled != wasAuto, captureEnabled != wasCapture, {});
      CalmOn(s, t, Now(), {}, {});
      AnnouncedOn(s, t, Now(), RemoteChanged, {});
      AnnouncedOn(s, t, Now(), AutomationChanged, {});
      AnnouncedOn(s, t, Now(), CaptureChanged, {});
      return true;
    }

    method Flip(enabled: bool, armed: bool)
      requires Core() && ViewOk() && (enabled ==> remoteServer.Some?)
      modifies this
      ensures Calms({}) && ServerKept(old(Now()), Now())
      ensures remoteEnabled == automationEnabled == captureEnabled == (enabled && armed)
      decreases Fuel(), 7
    {
      ghost var s := Now();
      var _, _ := SetRemote(enabled);
      if enabled && !armed {
        ghost var t := Now();
        var _, _ := SetRemote(false);
        CalmOn(s, t, Now(), {}, {});
      }
    }

    method SetViewRequest(index: nat)
      requires Valid()
      modifies this
      ensures Valid() && ViewSet(old(Now()), Now(), index)
    {
      SetView(index);
    }

    method FocusMachineRelative(delta: int)
      requires Valid()
      modifies this
      ensures Valid() && Tidy(old(Now()), Now(), {}) && GatesKept(old(Now()), Now()) && ServerKept(old(Now()), Now())
      ensures old(Healthy()) ==>
                && Healthy() && axis == Kept(old(axis), clients)
                && Lands(old(axis), old(viewIndex) + delta, axis, viewIndex)
    {
      var aim := viewIndex + delta;
      SetView(Clamped(if aim < 0 then 0 else aim, axis));
    }

    /** The client that captured input goes to: none at the local view or while the
        session is locked. */
    function CapturedClient(locked: bool): (r: Option<ClientId>)
      requires ViewOk()
      reads this
    {
      if locked then None else ViewId(axis, viewIndex)
    }

    /** With a healthy axis captured input always has a live client to go to, and it
        is the machine in view. */
    lemma CaptureReachesLiveClient(locked: bool)
      requires Valid() && Healthy() && viewIndex > 0
      ensures CapturedClient(locked) == if locked then None else Some(axis[viewIndex - 1].id)
      ensures CapturedClient(locked).Some? ==> CapturedClient(locked).value in clients
    {
    }

    /** `v` is the nearest to `aim` between 0 and `hi`. */
    ghost predicate Nearest(v: real, aim: real, hi: real) {
      0.0 <= v <= hi && v == if aim < 0.0 then 0.0 else if aim > hi then hi else aim
    }

    /** Relative motion while a remote is in view moves the forwarded pointer, and
        never off the remote. */
    method PointerMotion(dx: real, dy: real, locked: bool) returns (forwarded: Option<(real, real)>)
      requires Valid()
      modifies this`remotePointer
      ensures Valid()
      ensures forwarded.Some? <==> CapturedClient(locked).Some?
      ensures forwarded.Some? ==>
                var m := axis[viewIndex - 1];
                && forwarded.value == remotePointer
                && Nearest(remotePointer.0, old(remotePointer).0 + dx, m.width as real)
                && Nearest(remotePointer.1, old(remotePointer).1 + dy, m.height as real)
      ensures forwarded.None? ==> remotePointer == old(remotePointer)
    {
      if CapturedClient(locked).None? {
        return None;
      }
      var m := axis[viewIndex - 1];
      remotePointer := (Clamp(remotePointer.0 + dx, m.width as real), Clamp(remotePointer.1 + dy, m.height as real));
      return Some(remotePointer);
    }

    /** Absolute motion: `x`, `y` within an output of `outW` by `outH` map to the
        same fraction of the remote, its edges to the remote's. */
    method PointerMotionAbsolute(x: real, y: real, outW: nat, outH: nat, locked: bool)
      returns (forwarded: Option<(real, real)>)
      requires Valid() && outW > 0 && outH > 0
      modifies this`remotePointer
      ensures Valid()
      ensures forwarded.Some? <==> CapturedClient(locked).Some?
      ensures forwarded.Some? ==>
                var m := axis[viewIndex - 1];
                && forwarded.value == remotePointer
                && SameFraction(remotePointer.0, m.width, x, outW) && SameFraction(remotePointer.1, m.height, y, outH)
      ensures forwarded.None? ==> remotePointer == old(remotePointer)
    {
      if CapturedClient(locked).None? {
        return None;
      }
      var m := axis[viewIndex - 1];
      Fraction(x, outW, m.width);
      Fraction(y, outH, m.height);
      remotePointer := (Scaled(x, outW, m.width), Scaled(y, outH, m.height));
      return Some(remotePointer);
    }
  }

  /** A machine outlives its client: its registration's reply could not be written, so
      the connection was not spent, and it registered again. Its disconnect takes only
      the first entry off the axis. */
  method StaleMachine() returns (c: Compositor)
    ensures fresh(c) && c.Valid() && !c.once
    ensures |c.axis| == 1 && c.axis[0].id !in c.clients
  {
    c := new Compositor();
    c.Connect(0);
    c.RegisterRemoteClient(0, 800, 600, false);
    c.RegisterRemoteClient(0, 800, 600, false);
    ghost var axis := c.axis;
    assert IndexOf(axis, 0) == 0;
    c.DropIpcClient(0);
  }
}
