/** Connections parked on `wait_window` and `wait_ready` (`src/ipc.rs`): each is
    answered once, or cancelled by its own disconnect, and its timer goes with it. */
module Waits {
  import opened Wrappers
  import opened Connections
  import Workspaces

  type WindowId = string

  /** `ready`: the window has a buffer and a place, so a map wait may match it. */
  datatype WindowSummary = WindowSummary(id: WindowId, title: string, appId: string, ready: bool)

  datatype WaitKind = Window | Ready

  /** One parked connection. The filters are a predicate on the title and the
      app id. `ticket`, `initial` and `since` are the model's own: which parking
      this was (its timer, when it has one, is registered under that number), what
      an unmap wait matched then, and how many closes had been announced. */
  datatype Waiter = Waiter(
    ticket: nat,
    client: ClientId,
    kind: WaitKind,
    matches: (string, string) -> bool,
    unmap: bool,
    watchIds: set<WindowId>,
    timed: bool,
    initial: set<WindowId>,
    since: nat)

  datatype Resolution =
    | Matched(window: WindowSummary)
    | Unmapped
    | XReady
    | TimedOut
    | Cancelled

  predicate Accepts(w: Waiter, s: WindowSummary) {
    w.matches(s.title, s.appId)
  }

  /** Window `i` is ready and accepted, and none before it is. */
  ghost predicate FirstAt(w: Waiter, windows: seq<WindowSummary>, i: nat)
    requires i < |windows|
  {
    && windows[i].ready && Accepts(w, windows[i])
    && forall j :: 0 <= j < i ==> !(windows[j].ready && Accepts(w, windows[j]))
  }

  /** The first ready window a map wait accepts. */
  function FirstMatch(w: Waiter, windows: seq<WindowSummary>): (r: Option<WindowSummary>)
    ensures r.Some? ==> exists i :: 0 <= i < |windows| && windows[i] == r.value && FirstAt(w, windows, i)
    ensures r.None? ==> forall s :: s in windows && s.ready ==> !Accepts(w, s)
  {
    if windows == [] then None
    else if windows[0].ready && Accepts(w, windows[0]) then
      assert FirstAt(w, windows, 0);
      Some(windows[0])
    else
      var r := FirstMatch(w, windows[1..]);
      FirstBehind(w, windows, r);
      r
  }

  lemma FirstBehind(w: Waiter, windows: seq<WindowSummary>, r: Option<WindowSummary>)
    requires windows != [] && !(windows[0].ready && Accepts(w, windows[0]))
    requires r.Some? ==> exists i :: 0 <= i < |windows| - 1 && windows[1..][i] == r.value
                                     && FirstAt(w, windows[1..], i)
    ensures r.Some? ==> exists i :: 0 <= i < |windows| && windows[i] == r.value && FirstAt(w, windows, i)
  {
    if r.Some? {
      var i :| 0 <= i < |windows| - 1 && windows[1..][i] == r.value && FirstAt(w, windows[1..], i);
      forall j | 0 <= j < i + 1 ensures !(windows[j].ready && Accepts(w, windows[j])) {
        assert j == 0 || windows[j] == windows[1..][j - 1];
      }
      assert FirstAt(w, windows, i + 1);
    }
  }

  function AnnouncedSince(log: seq<WindowId>, since: nat): set<WindowId>
    requires since <= |log|
  {
    set i | since <= i < |log| :: log[i]
  }

  /** `Vec::swap_remove`: the last element takes the hole. */
  function SwapRemove<T>(s: seq<T>, i: nat): (r: seq<T>)
    requires i < |s|
    ensures |r| == |s| - 1
  {
    if i == |s| - 1 then s[..i] else s[..|s| - 1][i := s[|s| - 1]]
  }

  lemma SwapRemovePlaces<T>(s: seq<T>, i: nat, k: nat)
    requires i < |s| && k < |s| - 1
    ensures SwapRemove(s, i)[k] == if k == i then s[|s| - 1] else s[k]
  {
  }

  lemma SwapRemoveMembers<T>(s: seq<T>, i: nat)
    requires i < |s|
    ensures multiset(SwapRemove(s, i)) + multiset{s[i]} == multiset(s)
    ensures forall x :: x in s <==> x in SwapRemove(s, i) || x == s[i]
  {
    var n, r := |s| - 1, SwapRemove(s, i);
    assert s == s[..n] + [s[n]];
    if i < n {
      assert s[..n] == s[..i] + [s[i]] + s[i + 1..n];
      assert r == s[..i] + [s[n]] + s[i + 1..n];
    }
    assert forall x :: x in s <==> x in multiset(s);
    assert forall x :: x in r <==> x in multiset(r);
  }

  ghost predicate Distinct(s: seq<Waiter>) {
    forall i, j :: 0 <= i < j < |s| ==> s[i].ticket != s[j].ticket
  }

  lemma SwapRemoveDistinct(s: seq<Waiter>, i: nat)
    requires i < |s| && Distinct(s)
    ensures Distinct(SwapRemove(s, i))
    ensures forall x :: x in SwapRemove(s, i) <==> x in s && x.ticket != s[i].ticket
  {
  }

  lemma AppendDistinct(s: seq<Waiter>, w: Waiter)
    requires Distinct(s) && forall x :: x in s ==> x.ticket != w.ticket
    ensures Distinct(s + [w])
    ensures forall x :: x in s + [w] <==> x in s || x == w
  {
  }

  // ----- the account book -----

  /** All the parkings so far: those still held, by ticket, how the others ended,
      and which tickets have a timer registered with the loop, for whom. */
  datatype Book = Book(
    held: map<nat, Waiter>,
    resolved: map<nat, Resolution>,
    timers: map<nat, (ClientId, WaitKind)>,
    next: nat)

  ghost predicate BookOk(b: Book) {
    && (forall t :: 0 <= t < b.next <==> t in b.held || t in b.resolved)
    && b.held.Keys !! b.resolved.Keys
    && (forall t :: t in b.held ==> b.held[t].ticket == t)
    && (forall t :: t in b.timers <==> t in b.held && b.held[t].timed)
    && (forall t :: t in b.timers ==> b.timers[t] == (b.held[t].client, b.held[t].kind))
    && (forall t, u :: t in b.held && u in b.held && b.held[t].client == b.held[u].client ==> t == u)
  }

  function Opened(b: Book, w: Waiter): Book {
    Book(b.held[b.next := w],
         b.resolved,
         if w.timed then b.timers[b.next := (w.client, w.kind)] else b.timers,
         b.next + 1)
  }

  function Ended(b: Book, t: nat, r: Resolution): Book {
    Book(b.held - {t}, b.resolved[t := r], b.timers - {t}, b.next)
  }

  lemma OpenedOk(b: Book, w: Waiter)
    requires BookOk(b) && w.ticket == b.next && forall t :: t in b.held ==> b.held[t].client != w.client
    ensures BookOk(Opened(b, w))
  {
  }

  lemma EndedOk(b: Book, t: nat, r: Resolution)
    requires BookOk(b) && t in b.held
    ensures BookOk(Ended(b, t, r))
  {
  }

  /** Later books only add: nothing resolved is resolved again, nothing held is
      rewritten. */
  ghost predicate Keeps(b: Book, c: Book) {
    && c.next == b.next
    && (forall t :: t in b.resolved ==> t in c.resolved && c.resolved[t] == b.resolved[t])
    && (forall t :: t in c.held ==> t in b.held && c.held[t] == b.held[t])
  }

  /** Nothing between the two books but cancellations. */
  ghost predicate OnlyCancels(b: Book, c: Book) {
    && Keeps(b, c)
    && forall t :: t in c.resolved && t !in b.resolved ==> c.resolved[t] == Cancelled
  }

  function Waiters(finished: seq<(Waiter, Resolution)>): seq<Waiter> {
    seq(|finished|, k requires 0 <= k < |finished| => finished[k].0)
  }

  ghost function Tickets(finished: seq<(Waiter, Resolution)>): set<nat> {
    set f | f in finished :: f.0.ticket
  }

  lemma TicketsOf(finished: seq<(Waiter, Resolution)>)
    ensures forall w :: w in Waiters(finished) ==> w.ticket in Tickets(finished)
    ensures forall w :: w in Waiters(finished) <==> exists f :: f in finished && f.0 == w
  {
    forall w | w in Waiters(finished) ensures w.ticket in Tickets(finished) && exists f :: f in finished && f.0 == w {
      var k :| 0 <= k < |finished| && Waiters(finished)[k] == w;
      assert finished[k] in finished;
    }
    forall f | f in finished ensures f.0 in Waiters(finished) {
      var k :| 0 <= k < |finished| && finished[k] == f;
      assert Waiters(finished)[k] == f.0;
    }
  }

  lemma TicketsAppend(finished: seq<(Waiter, Resolution)>, f: (Waiter, Resolution))
    ensures Tickets(finished + [f]) == Tickets(finished) + {f.0.ticket}
    ensures Waiters(finished + [f]) == Waiters(finished) + [f.0]
    ensures forall w :: w in Waiters(finished) ==> w.ticket in Tickets(finished)
  {
  }

  lemma TicketsHead(finished: seq<(Waiter, Resolution)>, k: nat)
    requires k < |finished| && Distinct(Waiters(finished))
    ensures finished[k].0.ticket in Tickets(finished[k..])
    ensures Tickets(finished[k..]) - {finished[k].0.ticket} == Tickets(finished[k + 1..])
    ensures forall t :: t in Tickets(finished[k..]) ==> t in Tickets(finished)
  {
    var ws := Waiters(finished);
    assert finished[k..] == [finished[k]] + finished[k + 1..];
    forall f | f in finished[k + 1..] ensures f.0.ticket != finished[k].0.ticket {
      var j :| k + 1 <= j < |finished| && finished[j] == f;
      assert ws[j].ticket != ws[k].ticket;
    }
  }

  /** Taking `finished` out of `list` left `kept`: a permutation in two parts. */
  ghost predicate Parted(list: seq<Waiter>, kept: seq<Waiter>, finished: seq<(Waiter, Resolution)>) {
    && multiset(kept) + multiset(Waiters(finished)) == multiset(list)
    && Distinct(kept) && Distinct(Waiters(finished))
    && (forall w :: w in kept ==> w.ticket !in Tickets(finished))
  }

  lemma PartOne(list: seq<Waiter>, kept: seq<Waiter>, finished: seq<(Waiter, Resolution)>, i: nat, r: Resolution)
    requires i < |kept| && Parted(list, kept, finished)
    ensures Parted(list, SwapRemove(kept, i), finished + [(kept[i], r)])
  {
    var w := kept[i];
    SwapRemoveMembers(kept, i);
    SwapRemoveDistinct(kept, i);
    TicketsAppend(finished, (w, r));
    AppendDistinct(Waiters(finished), w);
    assert multiset(Waiters(finished) + [w]) == multiset(Waiters(finished)) + multiset{w};
  }

  lemma PartedMembers(list: seq<Waiter>, kept: seq<Waiter>, finished: seq<(Waiter, Resolution)>)
    requires Parted(list, kept, finished)
    ensures forall w :: w in list <==> w in kept || w in Waiters(finished)
    ensures forall f :: f in finished ==> f.0 in list
    ensures forall w :: w in list && w.ticket !in Tickets(finished) ==> w in kept
  {
    TicketsOf(finished);
    forall w ensures w in list <==> w in kept || w in Waiters(finished) {
      assert w in list <==> w in multiset(list);
      assert w in kept <==> w in multiset(kept);
      assert w in Waiters(finished) <==> w in multiset(Waiters(finished));
    }
  }

  /** The scan of a map resolution: what it keeps and what it takes off are
      together the list there was, and no kept map wait has a match. */
  method ScanMatched(list: seq<Waiter>, listed: seq<WindowSummary>)
    returns (kept: seq<Waiter>, finished: seq<(Waiter, Resolution)>)
    requires Distinct(list)
    ensures Parted(list, kept, finished)
    ensures forall w :: w in kept ==> w.unmap || FirstMatch(w, listed).None?
    ensures forall f :: f in finished ==>
              && !f.0.unmap && FirstMatch(f.0, listed).Some?
              && f.1 == Matched(FirstMatch(f.0, listed).value)
  {
    kept, finished := list, [];
    var i := 0;
    while i < |kept|
      invariant 0 <= i <= |kept| && Parted(list, kept, finished)
      invariant forall k :: 0 <= k < i ==> kept[k].unmap || FirstMatch(kept[k], listed).None?
      invariant forall f :: f in finished ==>
                  && !f.0.unmap && FirstMatch(f.0, listed).Some?
                  && f.1 == Matched(FirstMatch(f.0, listed).value)
      decreases |kept| - i
    {
      var w := kept[i];
      var matched := if w.unmap then None else FirstMatch(w, listed);
      if matched.Some? {
        PartOne(list, kept, finished, i, Matched(matched.value));
        kept := SwapRemove(kept, i);
        finished := finished + [(w, Matched(matched.value))];
      } else {
        i := i + 1;
      }
    }
  }

  /** A wait after window `id` has been announced closed. */
  function Ticked(w: Waiter, id: WindowId): Waiter {
    if w.unmap then w.(watchIds := w.watchIds - {id}) else w
  }

  predicate NothingWatched(w: Waiter) {
    w.unmap && w.watchIds == {}
  }

  function TickedBy(w: Waiter, ids: seq<WindowId>): Waiter {
    if ids == [] then w else Ticked(TickedBy(w, ids[..|ids| - 1]), ids[|ids| - 1])
  }

  /** Whatever is announced, an unmap wait goes on watching exactly what has not been:
      it is drained when all it watched has been announced closed, and not before. */
  lemma {:induction false} UnannouncedStaysWatched(w: Waiter, ids: seq<WindowId>)
    requires w.unmap
    ensures TickedBy(w, ids).unmap
    ensures forall x :: x in TickedBy(w, ids).watchIds <==> x in w.watchIds && x !in ids
    ensures NothingWatched(TickedBy(w, ids)) <==> forall x :: x in w.watchIds ==> x in ids
  {
    if ids != [] {
      UnannouncedStaysWatched(w, ids[..|ids| - 1]);
      assert ids == ids[..|ids| - 1] + [ids[|ids| - 1]];
    }
  }

  function TickAll(list: seq<Waiter>, id: WindowId): (r: seq<Waiter>)
    ensures |r| == |list| && forall k :: 0 <= k < |list| ==> r[k] == Ticked(list[k], id)
  {
    seq(|list|, k requires 0 <= k < |list| => Ticked(list[k], id))
  }

  lemma TickAllMembers(list: seq<Waiter>, id: WindowId)
    ensures forall w :: w in TickAll(list, id) <==> exists o :: o in list && Ticked(o, id) == w
  {
  }

  lemma HasMember<T>(s: seq<T>)
    requires s != []
    ensures exists x :: x in s
  {
    assert s[0] in s;
  }

  lemma TickedParts(list: seq<Waiter>, id: WindowId, kept: seq<Waiter>, finished: seq<(Waiter, Resolution)>)
    requires Parted(TickAll(list, id), kept, finished)
    requires forall w :: w in kept ==> !NothingWatched(w)
    requires forall f :: f in finished ==> NothingWatched(f.0)
    ensures forall w :: w in kept ==> exists o :: o in list && w == Ticked(o, id)
    ensures forall f :: f in finished ==> exists o :: o in list && f.0 == Ticked(o, id)
    ensures forall o :: o in list ==>
              if NothingWatched(Ticked(o, id)) then Ticked(o, id) in Waiters(finished) else Ticked(o, id) in kept
  {
    PartedMembers(TickAll(list, id), kept, finished);
    TickAllMembers(list, id);
    TicketsOf(finished);
  }

  /** The scan of an unmap resolution: every unmap wait stops watching `id`, and
      those with nothing left to watch are taken off. */
  method ScanClosed(list: seq<Waiter>, id: WindowId) returns (kept: seq<Waiter>, finished: seq<(Waiter, Resolution)>)
    requires Distinct(list)
    ensures Parted(TickAll(list, id), kept, finished)
    ensures forall w :: w in kept ==> !NothingWatched(w)
    ensures forall f :: f in finished ==> NothingWatched(f.0) && f.1 == Unmapped
  {
    kept, finished := list, [];
    var i := 0;
    while i < |kept|
      invariant 0 <= i <= |kept| && Parted(TickAll(list, id), TickAll(kept, id), finished)
      invariant forall k :: 0 <= k < i ==> kept[k] == Ticked(kept[k], id) && !NothingWatched(kept[k])
      invariant forall f :: f in finished ==> NothingWatched(f.0) && f.1 == Unmapped
      decreases |kept| - i
    {
      var p := Ticked(kept[i], id);
      if NothingWatched(p) {
        PartOne(TickAll(list, id), TickAll(kept, id), finished, i, Unmapped);
        assert TickAll(SwapRemove(kept, i), id) == SwapRemove(TickAll(kept, id), i);
        kept := SwapRemove(kept, i);
        finished := finished + [(p, Unmapped)];
      } else {
        assert Ticked(p, id) == p;
        assert TickAll(kept[i := p], id) == TickAll(kept, id);
        kept := kept[i := p];
        i := i + 1;
      }
    }
    assert TickAll(kept, id) == kept;
  }

  lemma AnnouncedSinceGrows(log: seq<WindowId>, id: WindowId, since: nat)
    requires since <= |log|
    ensures AnnouncedSince(log + [id], since) == AnnouncedSince(log, since) + {id}
  {
    var more := log + [id];
    assert more[|log|] == id;
    forall x | x in AnnouncedSince(log, since) ensures x in AnnouncedSince(more, since) {
      var i :| since <= i < |log| && log[i] == x;
      assert more[i] == x;
    }
  }

  method PositionOf(list: seq<Waiter>, client: ClientId) returns (i: nat)
    requires exists w :: w in list && w.client == client
    ensures i < |list| && list[i] in list && list[i].client == client
    ensures forall k :: 0 <= k < i ==> list[k].client != client
  {
    ghost var w :| w in list && w.client == client;
    ghost var at :| 0 <= at < |list| && list[at] == w;
    i := 0;
    while list[i].client != client
      invariant 0 <= i <= at
      invariant forall k :: 0 <= k < i ==> list[k].client != client
      decreases at - i
    {
      i := i + 1;
    }
  }

  // ----- invariant -----

  /** What an unmap wait still watches: its initial matches minus those announced
      closed since, and never nothing. A match whose close is never announced, like
      that of a window closed while minimized, stays in it. */
  ghost predicate WatchOk(w: Waiter, announced: seq<WindowId>) {
    && w.since <= |announced|
    && (w.unmap ==> w.watchIds == w.initial - AnnouncedSince(announced, w.since) && w.watchIds != {})
  }

  ghost predicate ListOk(list: seq<Waiter>, kind: WaitKind, book: Book) {
    && Distinct(list)
    && forall w :: w in list ==>
         w.kind == kind && w.ticket in book.held && book.held[w.ticket] == w && (kind == Ready ==> !w.unmap)
  }

  /** The books balance, and every wait they hold is on its list, but for the
      `loose` ones, which are off it and about to be answered. */
  ghost predicate Balanced(windows: seq<Waiter>, ready: seq<Waiter>, book: Book, announced: seq<WindowId>,
                           loose: set<nat>) {
    && BookOk(book)
    && ListOk(windows, Window, book) && ListOk(ready, Ready, book)
    && (forall w :: w in windows ==> WatchOk(w, announced) && w.ticket !in loose)
    && (forall w :: w in ready ==> w.ticket !in loose)
    && (forall t :: t in loose ==> t in book.held)
    && (forall t :: t in book.held && t !in loose ==> book.held[t] in windows || book.held[t] in ready)
  }

  /** Parking one more wait keeps everything balanced. */
  lemma OpenedBalanced(windows: seq<Waiter>, ready: seq<Waiter>, book: Book, announced: seq<WindowId>, w: Waiter)
    requires Balanced(windows, ready, book, announced, {}) && w.ticket == book.next
    requires forall t :: t in book.held ==> book.held[t].client != w.client
    requires if w.kind == Window then WatchOk(w, announced) else !w.unmap
    ensures if w.kind == Window then Balanced(windows + [w], ready, Opened(book, w), announced, {})
            else Balanced(windows, ready + [w], Opened(book, w), announced, {})
  {
    OpenedOk(book, w);
    assert forall o :: o in windows || o in ready ==> o.ticket < book.next;
    var after := Opened(book, w);
    assert ListOk(windows, Window, after) && ListOk(ready, Ready, after);
    AppendDistinct(if w.kind == Window then windows else ready, w);
  }

  /** The books once window `id` has been announced closed: the records follow their watch sets. */
  function TickedBook(book: Book, id: WindowId): Book {
    book.(held := map t | t in book.held :: Ticked(book.held[t], id))
  }

  lemma TickedBookOk(book: Book, id: WindowId)
    requires BookOk(book)
    ensures BookOk(TickedBook(book, id))
  {
  }

  lemma TickedWatch(w: Waiter, announced: seq<WindowId>, id: WindowId)
    requires WatchOk(w, announced) && !NothingWatched(Ticked(w, id))
    ensures WatchOk(Ticked(w, id), announced + [id])
  {
    AnnouncedSinceGrows(announced, id, w.since);
  }

  lemma DrainedIff(w: Waiter, announced: seq<WindowId>, id: WindowId)
    requires WatchOk(w, announced) && w.unmap
    ensures NothingWatched(Ticked(w, id)) <==> w.initial <= AnnouncedSince(announced + [id], w.since)
  {
    AnnouncedSinceGrows(announced, id, w.since);
  }

  /** After a tick and a scan everything balances around the waits taken off. */
  lemma TickedBalanced(was: seq<Waiter>, ready: seq<Waiter>, book: Book, announced: seq<WindowId>, id: WindowId,
                       kept: seq<Waiter>, finished: seq<(Waiter, Resolution)>)
    requires Balanced(was, ready, book, announced, {})
    requires Parted(TickAll(was, id), kept, finished)
    requires forall w :: w in kept ==> !NothingWatched(w)
    requires forall f :: f in finished ==> NothingWatched(f.0)
    ensures Balanced(kept, ready, TickedBook(book, id), announced + [id], Tickets(finished))
    ensures forall f :: f in finished ==> TickedBook(book, id).held[f.0.ticket] == f.0
  {
    TickedParts(was, id, kept, finished);
    TickedBookOk(book, id);
    TicketsOf(finished);
    var after := TickedBook(book, id);
    forall w | w in kept
      ensures WatchOk(w, announced + [id]) && w.kind == Window && w.ticket in after.held && after.held[w.ticket] == w
    {
      var o :| o in was && w == Ticked(o, id);
      TickedWatch(o, announced, id);
    }
    forall f | f in finished
      ensures f.0.ticket in after.held && after.held[f.0.ticket] == f.0 && f.0.kind == Window
    {
      var o :| o in was && f.0 == Ticked(o, id);
    }
    forall w | w in ready ensures w.ticket !in Tickets(finished) && after.held[w.ticket] == w {
      assert book.held[w.ticket].kind == Ready;
    }
    forall t | t in after.held && t !in Tickets(finished) ensures after.held[t] in kept || after.held[t] in ready {
      var o := book.held[t];
      if o in was {
        assert Ticked(o, id).ticket == t;
      }
    }
  }

  /** The ids of the listed windows a filter matches. */
  function Ids(listed: seq<WindowSummary>, matches: (string, string) -> bool): (ids: set<WindowId>)
    ensures ids == {} <==> forall s :: s in listed ==> !matches(s.title, s.appId)
    ensures forall x :: x in ids <==> exists s :: s in listed && s.id == x && matches(s.title, s.appId)
  {
    var ids := set s | s in listed && matches(s.title, s.appId) :: s.id;
    assert forall s :: s in listed && matches(s.title, s.appId) ==> s.id in ids;
    ids
  }

  lemma IdsOfOne(s: WindowSummary, matches: (string, string) -> bool)
    requires matches(s.title, s.appId)
    ensures Ids([s], matches) == {s.id} && s in [s]
  {
    assert forall x :: x in [s] <==> x == s;
  }

  class ParkedWaits {
    var windows: seq<Waiter>
    var ready: seq<Waiter>
    var book: Book
    /** The window closes announced so far, oldest first. */
    var announced: seq<WindowId>

    constructor ()
      ensures Valid() && windows == [] && ready == [] && announced == [] && book == Book(map[], map[], map[], 0)
    {
      windows, ready, announced := [], [], [];
      book := Book(map[], map[], map[], 0);
    }

    ghost predicate Inv(loose: set<nat>)
      reads this
    {
      Balanced(windows, ready, book, announced, loose)
    }

    ghost predicate Valid()
      reads this
    {
      Inv({})
    }

    ghost predicate IsParked(id: ClientId)
      reads this`book
    {
      exists t :: t in book.held && book.held[t].client == id
    }

    // ----- parking -----

    method Park(w: Waiter)
      requires Valid() && w.ticket == book.next && !IsParked(w.client)
      requires if w.kind == Window then WatchOk(w, announced) else !w.unmap
      modifies this`windows, this`ready, this`book
      ensures Valid() && book == Opened(old(book), w)
      ensures windows == if w.kind == Window then old(windows) + [w] else old(windows)
      ensures ready == if w.kind == Ready then old(ready) + [w] else old(ready)
    {
      OpenedBalanced(windows, ready, book, announced, w);
      book := Opened(book, w);
      if w.kind == Window {
        windows := windows + [w];
      } else {
        ready := ready + [w];
      }
    }

    /** Park on a window wait, or answer at once: with the first ready match for a
        map wait, or with nothing left to watch for an unmap wait. The request gate
        lets no connection park twice. */
    method WaitWindow(id: ClientId, matches: (string, string) -> bool, unmap: bool, listed: seq<WindowSummary>,
                      timer: bool)
      returns (reply: Option<Resolution>)
      requires Valid() && !IsParked(id)
      modifies this`windows, this`ready, this`book
      ensures Valid() && ready == old(ready)
      ensures reply.Some? <==>
              if unmap then forall s :: s in listed ==> !matches(s.title, s.appId)
              else exists s :: s in listed && s.ready && matches(s.title, s.appId)
      ensures reply.Some? ==>
                && windows == old(windows) && book == old(book)
                && if unmap then reply.value.Unmapped?
                   else reply.value.Matched? && reply.value.window in listed && reply.value.window.ready
                        && matches(reply.value.window.title, reply.value.window.appId)
      ensures reply.Some? && !unmap ==>
                exists i :: 0 <= i < |listed| && listed[i] == reply.value.window && forall j :: 0 <= j < i ==>
                  !(listed[j].ready && matches(listed[j].title, listed[j].appId))
      ensures reply.None? ==>
                var initial := if unmap then Ids(listed, matches) else {};
                var w := Waiter(old(book.next), id, Window, matches, unmap, initial, timer, initial, |announced|);
                windows == old(windows) + [w] && book == Opened(old(book), w)
    {
      var watch := {};
      if unmap {
        watch := Ids(listed, matches);
        if watch == {} {
          return Some(Unmapped);
        }
      } else {
        var probe := Waiter(0, id, Window, matches, false, {}, false, {}, 0);
        var first := FirstMatch(probe, listed);
        assert forall s :: Accepts(probe, s) <==> matches(s.title, s.appId);
        if first.Some? {
          ghost var i :| 0 <= i < |listed| && listed[i] == first.value && FirstAt(probe, listed, i);
          return Some(Matched(first.value));
        }
      }
      Park(Waiter(book.next, id, Window, matches, unmap, watch, timer, watch, |announced|));
      return None;
    }

    /** Park until XWayland is up, or answer at once: a plain readiness check, or a
        display already there. */
    method WaitReady(id: ClientId, xwayland: bool, display: Option<nat>, timer: bool) returns (parked: bool)
      requires Valid() && !IsParked(id)
      modifies this`windows, this`ready, this`book
      ensures Valid() && windows == old(windows)
      ensures parked <==> xwayland && display.None?
      ensures !parked ==> ready == old(ready) && book == old(book)
      ensures parked ==> |ready| == |old(ready)| + 1 && ready[..|old(ready)|] == old(ready)
                         && ready[|old(ready)|].client == id && book == Opened(old(book), ready[|old(ready)|])
    {
      if !xwayland || display.Some? {
        return false;
      }
      Park(Waiter(book.next, id, Ready, (_, _) => false, false, {}, timer, {}, 0));
      return true;
    }

    // ----- ending a wait -----

    /** Take the wait at `i` off the window list. */
    method TakeWindow(i: nat, ghost loose: set<nat>)
      requires Inv(loose) && i < |windows|
      modifies this`windows
      ensures windows == SwapRemove(old(windows), i)
      ensures Inv(loose + {old(windows)[i].ticket}) && old(windows)[i].ticket !in loose
      ensures forall w :: w in windows <==> w in old(windows) && w.ticket != old(windows)[i].ticket
    {
      SwapRemoveDistinct(windows, i);
      windows := SwapRemove(windows, i);
    }

    method TakeReady(i: nat, ghost loose: set<nat>)
      requires Inv(loose) && i < |ready|
      modifies this`ready
      ensures ready == SwapRemove(old(ready), i)
      ensures Inv(loose + {old(ready)[i].ticket}) && old(ready)[i].ticket !in loose
      ensures forall w :: w in ready <==> w in old(ready) && w.ticket != old(ready)[i].ticket
    {
      SwapRemoveDistinct(ready, i);
      ready := SwapRemove(ready, i);
    }

    /** Answer a wait already off its list: its timer source goes with it. */
    method Settle(t: nat, r: Resolution, ghost loose: set<nat>)
      requires Inv(loose) && t in loose
      modifies this`book
      ensures Inv(loose - {t}) && book == Ended(old(book), t, r)
    {
      EndedOk(book, t, r);
      book := Ended(book, t, r);
    }

    /** Drop what `id` has parked, its timer included. Called from a wait's own
        answer it finds nothing: that wait is already off its list. */
    method CancelOwnedBy(id: ClientId, ghost loose: set<nat>)
      requires Inv(loose)
      modifies this`windows, this`ready, this`book
      ensures Inv(loose)
      ensures forall w :: w in windows <==> w in old(windows) && w.client != id
      ensures forall w :: w in ready <==> w in old(ready) && w.client != id
      ensures book == old(book)
        || exists t :: t in old(book.held) && t !in loose && old(book.held[t].client) == id
                       && book == Ended(old(book), t, Cancelled)
    {
      for i := 0 to |windows|
        invariant forall k :: 0 <= k < i ==> windows[k].client != id
      {
        if windows[i].client == id {
          var t := windows[i].ticket;
          OnlyOne(id, t);
          TakeWindow(i, loose);
          Settle(t, Cancelled, loose + {t});
          assert loose + {t} - {t} == loose;
          return;
        }
      }
      for i := 0 to |ready|
        invariant forall k :: 0 <= k < i ==> ready[k].client != id
      {
        if ready[i].client == id {
          var t := ready[i].ticket;
          OnlyOne(id, t);
          TakeReady(i, loose);
          Settle(t, Cancelled, loose + {t});
          assert loose + {t} - {t} == loose;
          return;
        }
      }
    }

    // ----- resolving -----

    /** Drop connections one after the other: a client just answered and whatever
        else its departure takes down. */
    method DropClients(ids: seq<ClientId>, ghost loose: set<nat>)
      requires Inv(loose)
      modifies this`windows, this`ready, this`book
      ensures Inv(loose) && OnlyCancels(old(book), book)
      ensures forall w :: w in windows ==> w in old(windows)
      ensures forall w :: w in ready ==> w in old(ready)
    {
      for i := 0 to |ids|
        invariant Inv(loose) && OnlyCancels(old(book), book)
        invariant forall w :: w in windows ==> w in old(windows)
        invariant forall w :: w in ready ==> w in old(ready)
      {
        CancelOwnedBy(ids[i], loose);
      }
    }

    /** Answer one wait and drop its connection. */
    method AnswerOne(w: Waiter, r: Resolution, others: seq<ClientId>, ghost loose: set<nat>)
      requires Inv(loose) && w.ticket in loose
      modifies this`windows, this`ready, this`book
      ensures Inv(loose - {w.ticket}) && Keeps(old(book), book)
      ensures w.ticket in book.resolved && book.resolved[w.ticket] == r
      ensures forall t :: t in book.resolved && t !in old(book.resolved) && t != w.ticket ==>
              book.resolved[t] == Cancelled
      ensures forall o :: o in windows ==> o in old(windows)
      ensures forall o :: o in ready ==> o in old(ready)
    {
      Settle(w.ticket, r, loose);
      DropClients([w.client] + others, loose - {w.ticket});
    }

    /** Answer the waits taken off their lists, in order, dropping each one's
        connection before the next answer. */
    method AnswerAll(finished: seq<(Waiter, Resolution)>, cascade: ClientId -> seq<ClientId>)
      requires Inv(Tickets(finished)) && Distinct(Waiters(finished))
      requires forall f :: f in finished ==> book.held[f.0.ticket] == f.0
      modifies this`windows, this`ready, this`book
      ensures Valid()
      ensures forall f :: f in finished ==> f.0.ticket in book.resolved && book.resolved[f.0.ticket] == f.1
      ensures Keeps(old(book), book)
      ensures forall t :: t in book.resolved && t !in old(book.resolved) && t !in Tickets(finished) ==>
                book.resolved[t] == Cancelled
      ensures forall w :: w in windows ==> w in old(windows)
      ensures forall w :: w in ready ==> w in old(ready)
    {
      for k := 0 to |finished|
        invariant Inv(Tickets(finished[k..]))
        invariant forall j :: 0 <= j < k ==>
                    finished[j].0.ticket in book.resolved && book.resolved[finished[j].0.ticket] == finished[j].1
        invariant Keeps(old(book), book)
        invariant forall t :: t in book.resolved && t !in old(book.resolved) && t !in Tickets(finished) ==>
                    book.resolved[t] == Cancelled
        invariant forall w :: w in windows ==> w in old(windows)
        invariant forall w :: w in ready ==> w in old(ready)
      {
        var (w, r) := finished[k];
        TicketsHead(finished, k);
        AnswerOne(w, r, cascade(w.client), Tickets(finished[k..]));
      }
      assert finished[|finished|..] == [];
    }

    /** Every map wait some ready window now matches is answered with the first
        such window, and no other: afterwards no parked map wait has a match. */
    method ResolveMap(listed: seq<WindowSummary>, cascade: ClientId -> seq<ClientId>)
      requires Valid()
      modifies this`windows, this`ready, this`book
      ensures Valid() && Keeps(old(book), book)
      ensures forall w :: w in windows ==> w in old(windows) && (w.unmap || FirstMatch(w, listed).None?)
      ensures forall w :: w in old(windows) && !w.unmap && FirstMatch(w, listed).Some? ==>
                w.ticket in book.resolved && book.resolved[w.ticket] == Matched(FirstMatch(w, listed).value)
      ensures forall w :: w in old(windows) && (w.unmap || FirstMatch(w, listed).None?) ==>
                w in windows || (w.ticket in book.resolved && book.resolved[w.ticket] == Cancelled)
    {
      var kept, finished := ScanMatched(windows, listed);
      PartedMembers(windows, kept, finished);
      TicketsOf(finished);
      windows := kept;
      AnswerAll(finished, cascade);
      forall w | w in old(windows) && !w.unmap && FirstMatch(w, listed).Some?
        ensures w.ticket in book.resolved && book.resolved[w.ticket] == Matched(FirstMatch(w, listed).value)
      {
        assert w in Waiters(finished);
      }
      forall w | w in old(windows) && (w.unmap || FirstMatch(w, listed).None?)
        ensures w in windows || (w.ticket in book.resolved && book.resolved[w.ticket] == Cancelled)
      {
        assert w in kept;
      }
    }

    /** A window's close is announced: every unmap wait stops watching it, and a wait
        is answered if and only if all its initial matches have now been announced
        closed. */
    method ResolveUnmap(id: WindowId, cascade: ClientId -> seq<ClientId>)
      requires Valid()
      modifies this
      ensures Valid() && announced == old(announced) + [id]
      ensures book.next == old(book.next)
      ensures forall t :: t in book.held ==> t in old(book.held) && book.held[t] == Ticked(old(book.held)[t], id)
      ensures forall t :: t in old(book.resolved) ==> t in book.resolved && book.resolved[t] == old(book.resolved)[t]
      ensures forall w :: w in windows ==> !NothingWatched(w) && exists o :: o in old(windows) && w == Ticked(o, id)
      ensures forall o :: o in old(windows) && o.unmap ==>
                (o.ticket in book.resolved && book.resolved[o.ticket] == Unmapped <==>
                 o.initial <= AnnouncedSince(announced, o.since))
      ensures forall o :: o in old(windows) && !NothingWatched(Ticked(o, id)) ==>
                Ticked(o, id) in windows || (o.ticket in book.resolved && book.resolved[o.ticket] == Cancelled)
    {
      ghost var before := windows;
      var finished := TakeDrained(id);
      ghost var kept := windows;
      TickedParts(before, id, kept, finished);
      TicketsOf(finished);
      AnswerAll(finished, cascade);
      forall o | o in before && !NothingWatched(Ticked(o, id))
        ensures Ticked(o, id) in windows || (o.ticket in book.resolved && book.resolved[o.ticket] == Cancelled)
      {
        assert Ticked(o, id) in kept;
      }
      forall o | o in before && o.unmap
        ensures o.ticket in book.resolved && book.resolved[o.ticket] == Unmapped <==>
                o.initial <= AnnouncedSince(announced, o.since)
      {
        DrainedIff(o, old(announced), id);
        assert NothingWatched(Ticked(o, id)) ==> Ticked(o, id) in Waiters(finished);
      }
    }

    method TakeDrained(id: WindowId) returns (finished: seq<(Waiter, Resolution)>)
      requires Valid()
      modifies this`windows, this`book, this`announced
      ensures Inv(Tickets(finished)) && announced == old(announced) + [id] && book == TickedBook(old(book), id)
      ensures Parted(TickAll(old(windows), id), windows, finished)
      ensures forall w :: w in windows ==> !NothingWatched(w)
      ensures forall f :: f in finished ==> NothingWatched(f.0) && f.1 == Unmapped && book.held[f.0.ticket] == f.0
    {
      var kept;
      kept, finished := ScanClosed(windows, id);
      TickedBalanced(windows, ready, book, announced, id, kept, finished);
      book := TickedBook(book, id);
      announced := announced + [id];
      windows := kept;
    }

    /** XWayland is up: every ready wait is answered. */
    method ResolveReady(cascade: ClientId -> seq<ClientId>)
      requires Valid()
      modifies this`windows, this`ready, this`book
      ensures Valid() && ready == [] && Keeps(old(book), book)
      ensures forall w :: w in old(ready) ==> w.ticket in book.resolved && book.resolved[w.ticket] == XReady
      ensures forall w :: w in windows ==> w in old(windows)
    {
      var finished := seq(|ready|, k requires 0 <= k < |ready| reads this => (ready[k], XReady));
      ghost var before := ready;
      assert Waiters(finished) == ready;
      TicketsOf(finished);
      forall w | w in windows ensures w.ticket !in Tickets(finished) {
        assert w.kind == Window;
      }
      ready := [];
      AnswerAll(finished, cascade);
      forall w | w in before ensures w.ticket in book.resolved && book.resolved[w.ticket] == XReady {
        assert w in Waiters(finished);
      }
      if ready != [] {
        HasMember(ready);
      }
    }

    /** A registered timer fires. It always finds the wait it was armed for, still
        parked, and times out that one; the source is gone afterwards. */
    method TimerFires(t: nat, cascade: ClientId -> seq<ClientId>)
      requires Valid() && t in book.timers
      modifies this`windows, this`ready, this`book
      ensures Valid() && Keeps(old(book), book)
      ensures t in book.resolved && book.resolved[t] == TimedOut && t !in old(book.resolved)
      ensures forall w :: w in windows ==> w in old(windows)
      ensures forall w :: w in ready ==> w in old(ready)
    {
      var (client, kind) := book.timers[t];
      var w := book.held[t];
      OnlyOne(client, t);
      if kind == Window {
        var i := PositionOf(windows, client);
        assert windows[i].ticket == t;
        TakeWindow(i, {});
      } else {
        var i := PositionOf(ready, client);
        assert ready[i].ticket == t;
        TakeReady(i, {});
      }
      AnswerOne(w, TimedOut, cascade(client), {t});
      assert {t} - {t} == {};
    }

    /** A connection has at most one wait parked. */
    lemma OnlyOne(id: ClientId, t: nat)
      requires BookOk(book) && ListOk(windows, Window, book) && ListOk(ready, Ready, book)
      requires t in book.held && book.held[t].client == id
      ensures forall w :: w in windows && w.client == id ==> w.ticket == t
      ensures forall w :: w in ready && w.client == id ==> w.ticket == t
    {
    }
  }

  /** A wait for a window to go outlives the window: closed while minimized, it is
      never announced and never unlisted, so the wait goes on watching it. */
  method WaitOutlivesWindow() returns (desktop: Workspaces.Desktop, waits: ParkedWaits, announced: bool)
    ensures fresh(desktop) && desktop.Valid() && 7 in desktop.dead && desktop.IsMinimized(7) && !announced
    ensures fresh(waits) && waits.Valid() && |waits.windows| == 1 && waits.windows[0].watchIds == {"7"}
  {
    desktop, announced := Workspaces.ClosedWhileMinimized();
    waits := new ParkedWaits();
    var window := WindowSummary("7", "", "", true);
    var all: (string, string) -> bool := (_, _) => true;
    IdsOfOne(window, all);
    var reply := waits.WaitWindow(0, all, true, [window], false);
  }
}
