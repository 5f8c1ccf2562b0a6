# shoestring-wm: a verified model

A Dafny model of the decisions inside the shoestring-wm Wayland compositor, with proofs about
them. `dafny verify dfyconfig.toml` checks all of it. One module a component:

| module | models |
|---|---|
| `Geometry` | points, rectangles, what it is to partition one |
| `Arrange` | grid, spiral and BSP arrangement, the last two in closed form |
| `Layout` | the tile / maximize / fullscreen machine and its saved rects |
| `Civil` | seconds since the epoch to a civil date, against the Gregorian calendar and POSIX |
| `Connections` | what the modules about connections share |
| `Seat` | many input sources holding keys and buttons of one seat |
| `OutQueue` | a connection's output queue over a socket that does anything |
| `Flushers` | who drains a backlog: wake, write-ready sources, lingering |
| `LineSplit` | incremental splitting of requests into lines |
| `Waits` | parked `wait_window` and `wait_ready` connections |
| `Cascade` | the re-entrant emit / drop / view change / emit cascade, the machine axis, the gates |
| `CaptureStream`, `Mirror` | damage streaming: bands, frames, the tile cache, and the mirror invariant |
| `Workspaces` | workspaces, minimized windows, focus history |
| `Scroll` | wheel travel over the desktop, in closed form |
| `Lease` | the remote gate's lease and its timer |
| `Command` | the lifecycle of a command run for a client |
| `Census` | live objects per client |

Components that the source updates in place are classes; each keeps a `Valid()` that its
constructor sets up and every method preserves, so a statement about a `Valid()` state is one about
every reachable state. What a method does is stated against a function of the old state, and the
main results are lemmas about those functions. Sockets, clocks, timers that fail to register,
readbacks that fail, clients that disconnect and handlers that drop a connection are parameters, so
the results hold for whatever they do.

## Where the code is not what its comments or tests say

- `even_spans` does not cover a negative total exactly unless it divides evenly
  (`Arrange.SpansEndExactly`, `Arrange.NegativeSpansFallShort`).
- A floating rect survives tile and fullscreen toggles exactly as long as the window does not leave the
  floating state while its client owes a commit (`Layout.StepKeepsHome`,
  `Layout.UnackedRoundTripFails`).
- `unix_to_civil` returns a wrong year for second counts whose year does not fit an `i32`
  (`Civil.YearExactIff`).
- The peer's bytes stay a prefix of those queued exactly while no push has cut the subscriber loose; a
  line accepted after a cut leaves a hole (`OutQueue.PrefixSafeIff`, `OutQueue.HoleFromNew`).
- A reply whose socket failed lingers although nothing will ever drain it, until its timer
  (`Flushers.FailedReplyLingers`). A client whose write-ready source was refused does not wake the loop
  for itself again (`Flushers.OwnLineDoesNotWake`): it waits for another client's line to do so
  (`Flushers.RetriedByAnother`).
- A request sent behind another one in the same read stays in the buffer until the next read, even if
  the connection is kept (`LineSplit.RequestsWaiting`), and the size limit is not looked at meanwhile.
- Whether a request over the limit by less than one read is refused depends on how it arrives
  (`LineSplit.OverflowDependsOnChunking`, `LineSplit.LongLineRefused`).
- A machine outlives its connection exactly when that has registered twice (`Cascade.StaleIffTwice`,
  `Cascade.Compositor.RegisterRemoteClient`), which it can when its first reply could not be written
  (`Cascade.StaleMachine`).
- A failed readback is not retried: the hole stays until it is damaged again or the whole output is
  pushed (`Mirror.FailedReadbackLeavesHole`, `Mirror.PushExact`, `Mirror.TurnShows`). Outputs of
  65536 pixels or more do not fit the wire (`CaptureStream.WireFits`).
- `minimize_window` means to surrender keyboard focus, but looks the focused window up after it has
  left the space, so the keyboard stays on a hidden window (`Workspaces.Desktop.MinimizeWindow`,
  `Workspaces.FocusStaysOnMinimized`).
- A window closed while minimized is not found and keeps its minimized entry
  (`Workspaces.Desktop.ToplevelDestroyed`, `Workspaces.ClosedWhileMinimized`); `unminimize_last` copes
  (`Workspaces.Desktop.UnminimizeLast`).
- Nor is its close announced, so a `wait_window` for windows to go that it matched is never answered:
  such a wait is answered exactly when every match has been announced closed
  (`Waits.ParkedWaits.ResolveUnmap`, `Waits.UnannouncedStaysWatched`, `Waits.WaitOutlivesWindow`) and
  otherwise ends by its timeout or its disconnect.
- A viewer count reported while the remote gate is off is reset unannounced by a request that leaves
  the gate off (`Lease.RemoteGate.SetRemoteRequest`, `Lease.StaleViewerCount`).
- A command whose pipes or timer cannot be registered stays recorded, so its client is told it failed
  and later gets a result (`Command.Commands.HalfAnsweredTwice`, `Command.TwoReplies`). Otherwise there
  is at most one reply (`Command.Commands.AtMostOneReply`). If it was standard error, the watch on
  standard output stays after the result (`Command.Commands.NothingOutlivesTheReply`,
  `Command.TwoReplies`); if the grace timer cannot be registered either, such a command may stay
  recorded for good (`Command.Commands.AbandonedIff`, `Command.NeverConcluded`).

## Model

| member | source | states |
|---|---|---|
| `Geometry.PartitionMeaning` | src/layout.rs:114-119 | partitioning by point count is partitioning as sets: a point is inside exactly when some piece holds it, and no two pieces share a point |
| `Arrange.SpanStep` | src/layout.rs:203-217 | the running offset of the span loop is the closed form: each span starts where the one before it ends |
| `Arrange.SpansEndExactly` | src/layout.rs:199-217 | the spans end exactly at the total if and only if the total is non-negative or divisible by the number of parts (the comment claims it for negative totals too) |
| `Arrange.SpansEven` | src/layout.rs:201-217 | no two spans differ by more than a pixel, and the longer ones come first |
| `Arrange.NegativeSpansFallShort` | src/layout.rs:206-214 | a concrete negative total the spans do not add up to |
| `Arrange.EvenSpans` | src/layout.rs:203-217 | the loop returns the closed-form spans, one a part |
| `Arrange.GridRowCountFits` | src/layout.rs:227-236 | for any n >= 1 there are between 1 and n rows and no row is empty, so the skipped-row branch is dead |
| `Arrange.GridNearlySquare` | src/layout.rs:227 | the rows are the whole part of the square root of n |
| `Arrange.GridLength` | src/layout.rs:229-245 | the column counts over all rows add up to the windows |
| `Arrange.GridCover` | src/layout.rs:222-246 | every point of the rows so far is in exactly one cell |
| `Arrange.GridArea` | src/layout.rs:222-246 | the areas of the cells add up |
| `Arrange.GridIndex` | src/layout.rs:232-243 | the cell of row r and column c stands after all the cells of earlier rows |
| `Arrange.GridPartitions` | src/layout.rs:219-246 | the grid is n rectangles partitioning the usable area, areas summing to the whole, for every n >= 1 |
| `Arrange.GridRects` | src/layout.rs:222-246 | the two nested loops build exactly that grid |
| `Arrange.SplitConserves` | src/layout.rs:265-290 | one split loses no point, doubles none and keeps area and bounds, whatever the axis and the kept corner |
| `Arrange.PiecesConserve` | src/layout.rs:258-294 | pieces handed out plus remainder partition the start, after any number of splits |
| `Arrange.SplitRects` | src/layout.rs:253-295 | the spiral and the dwindle return n rectangles partitioning the usable area, in order of the splits |
| `Arrange.ArrangeRects` | src/layout.rs:184-197 | every kind returns exactly n rectangles that partition the usable area, each within it: the grid by row and column, the spiral winding with its sizes in closed form, the dwindle by its formula |
| `Arrange.CeilCharacterised` | src/layout.rs:299-302 | the halved length is the one ceiling of a power-of-two division |
| `Arrange.CeilShiftHalves` | src/layout.rs:299-302 | keeping the larger half once more is one more halving, rounded up |
| `Arrange.BspClosedForm` | src/layout.rs:253-295 | the remainder before split i is ceil(w/2^ceil(i/2)) by ceil(h/2^floor(i/2)) in the bottom-right corner |
| `Arrange.BspRects` | src/layout.rs:253-295 | the rectangles of the dwindle loop equal a formula without recursion |
| `Arrange.BspSolid` | src/layout.rs:253-295 | window i is not degenerate if and only if the side it halves is longer than the power of two |
| `Arrange.BspNonDegenerate` | src/layout.rs:253-295 | the exact condition on w, h and n under which no window is degenerate |
| `Arrange.SpiralWinds` | src/layout.rs:265-290 | of a spiral's windows each later one lies to the right of, below, to the left of, above the earlier, going round with the earlier one's number |
| `Arrange.SpiralRemainder` | src/layout.rs:258-294 | the size of what is left before split i of a spiral in closed form: halvings rounded up and down in turn are one division with a carry |
| `Arrange.CarryClosed` | src/layout.rs:293-302 | that carry is a third of the next power of four, less one |
| `Arrange.SpiralRects` | src/layout.rs:253-295 | every window of a spiral has the size the closed form says |
| `Layout.TileHalvesPartition` | src/layout.rs:306-320 | the left and right tile partition the usable area |
| `Layout.TileHalvesEven` | src/layout.rs:306-320 | the left tile is the left half and the right tile the right one, full height, the odd column to the right |
| `Layout.StepSound` | src/layout.rs:369-497 | every operation keeps: floating exactly when nothing is saved, fullscreen only with a non-fullscreen state to go back to |
| `Layout.RunSound` | src/layout.rs:369-497 | the same over every run |
| `Layout.StepLands` | src/layout.rs:389-498 | where each operation leaves the window: toggling back, maximize and unmaximize one way only, fullscreen and back |
| `Layout.StepKeepsHome` | src/layout.rs:389-497 | one step keeps the rect the window will stand at when floating again if and only if it does not leave floating while the client still owes a commit, and the client does not resize itself |
| `Layout.RunKeepsHome` | src/layout.rs:389-497 | over any run without an arrange whose steps meet that condition, the rect at the end is the rect at the start |
| `Layout.RoundTrip` | src/layout.rs:386-497 | starting floating at R, a newly mapped window at a size of its own included, whatever is tiled, maximized, fullscreened and undone with the client catching up each time, a window that ends floating ends at exactly R |
| `Layout.AckedStaysHome` | src/layout.rs:160-164 | a client that catches up after every operation meets the condition at every step |
| `Layout.UnackedRoundTripFails` | src/layout.rs:407-421 | without the acks the size is lost: a concrete run of toggles |
| `Layout.FullscreenRoundTrip` | src/layout.rs:431-497 | fullscreen and back returns to the state before, tiled rects recomputed, the floating rect kept |
| `Layout.LayoutManager.ApplyGeometry` | src/layout.rs:326-362 | configures the size, exactly the matching state bits, and the place; no other window changes |
| `Layout.LayoutManager.SetLayout` | src/layout.rs:389-429 | the toggle, on the map of windows, is the step of the machine |
| `Layout.LayoutManager.MaximizeWindow` | src/input.rs:423-436 | maximize without toggling back out |
| `Layout.LayoutManager.UnmaximizeWindow` | src/input.rs:441-455 | unmaximize only what is maximized |
| `Layout.LayoutManager.SetFullscreen` | src/layout.rs:436-455 | fullscreen remembers the state and the floating rect once |
| `Layout.LayoutManager.UnsetFullscreen` | src/layout.rs:476-497 | leaving fullscreen restores the remembered state |
| `Layout.LayoutManager.ArrangeWindows` | src/layout.rs:369-384 | each window ends floating with nothing saved at its rectangle of the partition; the others are untouched |
| `Layout.LayoutManager.ClientCommit` | src/layout.rs:160-164 | a commit makes the size last sent the current one, or one the client picks where it was sent none |
| `Civil.YearOfEraCorrect` | src/remote_screenshot.rs:297-302 | for every day of an era each unsigned subtraction is non-negative, the year is below 400 and the day within it |
| `Civil.MonthFromDay` | src/remote_screenshot.rs:302-306 | the month step yields a valid date with exactly that many days before it |
| `Civil.CivilCorrect` | src/remote_screenshot.rs:287-308 | for every second count the fields are a valid date and time that map back to exactly the input, the year as an i32 leaves it |
| `Civil.DayNumberInjective` | src/remote_screenshot.rs:287-308 | no two valid dates share a day number, so the date returned is the only one |
| `Civil.ConsecutiveDays` | src/remote_screenshot.rs:287-308 | one day later the conversion gives the calendar's next date |
| `Civil.MeetsPosix` | src/remote_screenshot.rs:287-308 | from 1970 on the fields satisfy the formula of section 4.16 of the POSIX.1-2017 Base Definitions |
| `Civil.YearStartClosed` | src/remote_screenshot.rs:297-302 | the sum of year lengths equals the closed form with the leap-year corrections |
| `Civil.YearExactIff` | src/remote_screenshot.rs:290-308 | the i32 year is the calendar's year if and only if the seconds lie between the first second of year -2^31 and the last of 2^31 - 1 |
| `Civil.LargestI64Wraps` | src/remote_screenshot.rs:290-306 | the largest i64 second count gets a wrong year |
| `Civil.NoOverflowIff` | src/remote_screenshot.rs:290-308 | no step of the year arithmetic leaves i32 if and only if the seconds lie in the given range |
| `Seat.EffectiveAlternates` | src/inject.rs:55-62 | in a stream where every transition changes something, those of one code alternate down and up |
| `Seat.FirstIsPress` | src/inject.rs:55-62 | the first transition of a code is a press |
| `Seat.SeatHeld.HeldByAny` | src/inject.rs:148-151 | true exactly when some source holds the code |
| `Seat.SeatHeld.HeldByOther` | src/inject.rs:154-160 | true exactly when a source other than this one does |
| `Seat.SeatHeld.Note` | src/inject.rs:128-145 | only this source's code changes, and it is delivered exactly when the union over all sources changes; no device entry is left empty |
| `Seat.SeatHeld.Release` | src/inject.rs:104-121 | forgets all one source holds and returns exactly the union before minus the union after |
| `Seat.Seat.Transit` | src/inject.rs:93-102 | the dispatched stream grows by the transition exactly when the union changes |
| `Seat.Seat.ReleaseCodes` | src/inject.rs:599-624 | one release a code, and nothing else changes for a client |
| `Seat.Seat.ReleaseHeldBy` | src/inject.rs:597-628 | one release a code that became free, keys then buttons |
| `Seat.Seat.Play` | src/inject.rs:55-160 | for any number of sources and any interleaving, folding the dispatched stream gives the union of what each source holds by its own events alone |
| `OutQueue.FlushMoves` | src/ipc.rs:202-220 | whatever the socket does, a flush only moves bytes from the unsent to the received end |
| `OutQueue.FlushReports` | src/ipc.rs:202-220 | drained if and only if nothing is left; failed if and only if the socket broke; progress is stamped exactly when bytes went |
| `OutQueue.FlushTakes` | src/ipc.rs:202-235 | a flush goes on after short and interrupted writes and hands over exactly as much as the socket is willing to take, and its report follows from that |
| `OutQueue.FlushWhole` | src/ipc.rs:147-220 | queueing and flushing keeps received followed by unsent equal to queued |
| `OutQueue.StepWhole` | src/ipc.rs:147-220 | every operation keeps the peer's bytes a prefix of those queued, and all of them accounted for unless it cuts the subscriber loose |
| `OutQueue.StepLoses` | src/ipc.rs:147-220 | from any state an operation queues its bytes and loses none, unless it cuts the subscriber loose, and then some |
| `OutQueue.RunLoses` | src/ipc.rs:147-220 | over every run, cuts and what follows them included, bytes are lost if and only if some push cuts the subscriber loose |
| `OutQueue.RunDelivers` | src/ipc.rs:147-220 | over every run that cuts nobody loose and every socket: received is a prefix of queued, and with the unsent all of it |
| `OutQueue.PrefixSafeIff` | src/ipc.rs:147-178 | after any run the peer's bytes stay a prefix whatever line is sent next and whatever the socket does, if and only if no push cut the subscriber loose |
| `OutQueue.HoleAfterLoss` | src/ipc.rs:147-178 | from any state that has lost bytes, a line the socket takes breaks the prefix unless it begins as the lost bytes do |
| `OutQueue.HoleFromNew` | src/ipc.rs:167-178 | a run from a new connection that reaches such a hole |
| `OutQueue.Client.FlushOut` | src/ipc.rs:204-220 | the write loop over the buffer and its offset is the flush specified |
| `OutQueue.Client.SendLine` | src/ipc.rs:147-157 | a line is queued behind the rest; the loop is woken once for a backlog |
| `OutQueue.Client.SendSubscribed` | src/ipc.rs:167-178 | fails and discards once the subscriber is over the limit behind |
| `OutQueue.Client.QueueFrames` | src/ipc.rs:192-200 | frames are queued in order, a backlog is not an error |
| `Flushers.SendKeepsEntry` | src/ipc.rs:147-178 | a send pings exactly when it is the first to leave a backlog |
| `Flushers.UnattendedIffFailed` | src/ipc.rs:147-157 | a client that had asked for nothing is left with an unattended backlog if and only if the write failed |
| `Flushers.Server.BacklogIsAttended` | src/ipc.rs:2869-3014 | once the loop has woken, a JSON client with a backlog, live or lingering, whose socket works is being drained if and only if its source was not refused; until then the wake is on its way |
| `Flushers.Server.Accept` | src/ipc.rs:429-460 | a new client starts with nothing queued and nothing owed |
| `Flushers.Server.Upgrade` | src/ipc.rs:1386-1397 | a connection becomes a binary stream and the promise still holds |
| `Flushers.Server.SendLine` | src/ipc.rs:147-157 | a send keeps that promise and changes only its own client |
| `Flushers.Server.SendSubscribed` | src/ipc.rs:167-178 | so does a subscriber's push |
| `Flushers.Server.QueueFrames` | src/ipc.rs:192-200 | and a capture stream's frames, which arm nothing |
| `Flushers.ArmAllLeaves` | src/ipc.rs:2873-2891 | of the clients to be drained only the refused stay without a source |
| `Flushers.Server.ArmFlushers` | src/ipc.rs:2869-2892 | every client to be drained that has no source is tried, those refused before and lingering ones too; refused are then exactly those whose source was not taken |
| `Flushers.Server.FlushClient` | src/ipc.rs:2897-2935 | a drained live client loses the source, a drained lingering one is closed, a failed one goes |
| `Flushers.Server.CheckLinger` | src/ipc.rs:2940-2957 | closed once the socket has taken nothing for the whole timeout, else checked again when that could be |
| `Flushers.Server.DropClient` | src/ipc.rs:2989-3014 | a reply still queued keeps the socket; a capture stream's bytes do not |
| `Flushers.OwnLineDoesNotWake` | src/ipc.rs:150-155 | a refused client's own later lines do not wake the loop for it |
| `Flushers.RetriedByAnother` | src/ipc.rs:2873-2891 | another client's line gets it tried again and armed |
| `Flushers.FailedReplyLingers` | src/ipc.rs:2994-3008 | a reply whose socket failed lingers with nothing armed until its timer |
| `LineSplit.SplitAddsUp` | src/ipc.rs:549-563 | lines and rest add up to the stream |
| `LineSplit.SplitUnique` | src/ipc.rs:549-563 | it is the only cut into newline-ended lines and a newline-free rest |
| `LineSplit.SplitCons` | src/ipc.rs:560-562 | a line in front of a stream is its first line |
| `LineSplit.SplitAppend` | src/ipc.rs:549-563 | splitting can stop after any byte and go on from the partial line |
| `LineSplit.LeftNone` | src/ipc.rs:549-679 | a read leaves no line behind if and only if all it finds but the last are blank |
| `LineSplit.FirstRequest` | src/ipc.rs:564-577 | the first line with a byte other than a newline and a carriage return is the request a read stops after |
| `LineSplit.NoRequest` | src/ipc.rs:564-577 | lines of nothing else are all taken, and none is a request |
| `LineSplit.LeftOneLess` | src/ipc.rs:576-679 | a read hands over one request at most, and one if there is one |
| `LineSplit.NeverBehind` | src/ipc.rs:549-679 | a connection never has a line left behind if and only if of the lines each read ends all but the last are blank |
| `LineSplit.RequestsWaiting` | src/ipc.rs:549-679 | after n reads at most m requests wait if and only if no run of reads up to then brought more requests than it has reads, by more than m |
| `LineSplit.Reader.FindNewline` | src/ipc.rs:552-560 | the search from where the last one stopped finds the first newline, looking at no byte twice |
| `LineSplit.Reader.HandleLines` | src/ipc.rs:549-679 | blank lines are skipped and the first request ends the read, kept or dropped as its handler says; only a read that finds none compares the partial line with the limit |
| `LineSplit.Reader.Feed` | src/ipc.rs:534-679 | one read takes the blank lines up to and with the first line that holds more than line ends, and the handler's answer decides; with none it takes all and compares the limit; lines then buffer are the bytes read |
| `LineSplit.Reader.HandleReadable` | src/ipc.rs:534-679 | dropped on end of file, an error, a refusal or the handler's answer to the first line that holds more than line ends |
| `LineSplit.FeedAll` | src/ipc.rs:534-679 | whatever the reads, a connection kept by its handler is refused exactly when some read finds no request and leaves a partial line over the limit; otherwise the lines taken and those left behind are the lines of the stream |
| `LineSplit.ShortLinesNeverOverflow` | src/ipc.rs:511-530 | if no line is over the limit, no chunking is refused |
| `LineSplit.OneLine` | src/ipc.rs:511-559 | a single line is refused if and only if some read stops within it beyond the limit |
| `LineSplit.LongLineRefused` | src/ipc.rs:511-559 | a line over the limit by a whole read or more is refused however it is cut |
| `LineSplit.OverflowDependsOnChunking` | src/ipc.rs:511-559 | for every length in between, the same bytes pass with one cutting into reads of at most 1024 bytes and are refused with another |
| `Waits.SwapRemoveMembers` | src/ipc.rs:2663-2698 | removing by swap keeps the rest as a multiset |
| `Waits.SwapRemovePlaces` | src/ipc.rs:2663-2698 | the last takes the hole and the others stay where they are |
| `Waits.ScanMatched` | src/ipc.rs:2645-2667 | the scan despite its swaps keeps exactly the unsatisfied waits; kept and finished are a permutation of the list |
| `Waits.ScanClosed` | src/ipc.rs:2687-2702 | every unmap wait stops watching the window announced closed; those with nothing left finish |
| `Waits.UnannouncedStaysWatched` | src/ipc.rs:2686-2702 | over any run of announced closes an unmap wait goes on watching exactly what has not been announced, and is drained if and only if all of it has |
| `Waits.TickedBalanced` | src/ipc.rs:2686-2702 | after the tick every watch set is the initial matches minus those announced closed since |
| `Waits.ParkedWaits.WaitWindow` | src/ipc.rs:2409-2500 | answered at once exactly when the condition already holds, else parked watching the current matches |
| `Waits.ParkedWaits.WaitReady` | src/ipc.rs:2507-2544 | parked exactly while XWayland is expected and not up |
| `Waits.ParkedWaits.CancelOwnedBy` | src/ipc.rs:2785-2805 | a disconnect takes its own wait and timer and nothing else |
| `Waits.ParkedWaits.AnswerAll` | src/ipc.rs:2668-2680 | each finished wait gets exactly its reply; whatever its drop takes along is only cancelled |
| `Waits.ParkedWaits.ResolveMap` | src/ipc.rs:2640-2681 | no satisfied map wait remains; each is answered with the first ready window it accepts, or was cancelled by its own disconnect |
| `Waits.ParkedWaits.ResolveUnmap` | src/ipc.rs:2686-2716 | an unmap wait is answered if and only if every initial match has now been announced closed |
| `Waits.ParkedWaits.ResolveReady` | src/ipc.rs:2720-2739 | every ready wait is answered |
| `Waits.ParkedWaits.TimerFires` | src/ipc.rs:2741-2780 | a timer always finds the wait it was armed for, still unanswered: never both a timeout and a match, and no timer outlives its entry |
| `Waits.ParkedWaits.OnlyOne` | src/ipc.rs:2744-2758 | a connection has at most one wait, so looking it up by client is looking it up by wait |
| `Waits.WaitOutlivesWindow` | src/ipc.rs:2445-2474 | a run in which a window closed while minimized is never announced and stays watched |
| `Cascade.RemovalFollows` | src/remote.rs:38-53 | whatever machine leaves, the view denotes the same client, or is local if that was the one |
| `Cascade.GoneFromAxis` | src/remote.rs:158-162 | with distinct ids a departed client has no machine left |
| `Cascade.StaleIffTwice` | src/remote.rs:158-162 | a client's departure leaves a machine of its behind if and only if it had two |
| `Cascade.AxisFitsIff` | src/remote.rs:96-171 | the 8-bit indices are exact if and only if there are at most 255 machines; beyond that some removal moves the view wrongly |
| `Cascade.WithoutKept` | src/remote.rs:158-162 | a departure leaves exactly the machines of who is still there, in order |
| `Cascade.SettledOn` | src/ipc.rs:2378-2402 | parts of the cascade one after the other come to one whole: roles end with their connection and only then, nobody leaves without a reason, every subscriber left has heard the last event, gates and pointer as promised, of a healthy axis the machines of who is left |
| `Cascade.Compositor.EmitIpc` | src/ipc.rs:2356-2402 | an event to all subscribers, those with a broken socket dropped in turn: it ends, no subscriber is left that did not take it, and the whole state settles |
| `Cascade.Compositor.DropIpcClient` | src/ipc.rs:2959-3037 | dropping a client and all that follows from it ends, by a measure on clients, machines and the server registration; only it, broken subscribers and streams without consent go |
| `Cascade.Compositor.ClearServer` | src/ipc.rs:2971-2987 | no server, no remote access: the gate is off and the registration gone |
| `Cascade.Compositor.DropServerClient` | src/ipc.rs:2971-3036 | the server's own connection: gates before the drop, and the announcements after, to nobody that is gone |
| `Cascade.Compositor.Announce` | src/state.rs:1988-2008 | each change is announced, to nobody that is gone; each announcement may drop again, and it still ends |
| `Cascade.Compositor.DropRemoteClient` | src/remote.rs:153-171 | the machine leaves, the view moves with the one it is on, and the others stay in order |
| `Cascade.Compositor.SetView` | src/remote.rs:96-120 | an index in range is followed, one beyond the end the last machine's, with an event exactly if the view moves and the pointer centred in the remote come into view |
| `Cascade.Compositor.SetRemote` | src/state.rs:1954-1976 | the three gates move together; off means no viewer and no stream; only streams and broken subscribers go |
| `Cascade.Compositor.SetAutomation` | src/state.rs:1939-1952 | automation couples capture |
| `Cascade.Compositor.SetScreenCapture` | src/state.rs:2028-2063 | closing the gate ends every stream at once |
| `Cascade.Compositor.Disconnect` | src/ipc.rs:2959-3037 | after a disconnect from a healthy state the axis is the other clients' machines in order and the view on its client; from every state roles end with their connection and the gates change only by the server's loss |
| `Cascade.Compositor.Broadcast` | src/ipc.rs:2356-2402 | any event sent: no subscriber is left with a broken socket, only those and answered waits go, a healthy axis keeps who is left |
| `Cascade.Compositor.SubscribeEvents` | src/ipc.rs:727-735 | subscribed exactly when the reply was written, else closed |
| `Cascade.Compositor.CaptureStream` | src/ipc.rs:1359-1400 | a stream begins exactly when the gate is on and the reply was written |
| `Cascade.Compositor.ParkWait` | src/ipc.rs:2487-2492 | a parked connection is spent |
| `Cascade.Compositor.RegisterRemoteServer` | src/ipc.rs:1500-1517 | announced to all, itself included; the registration lasts as long as the connection survives that |
| `Cascade.Compositor.RegisterRemoteClient` | src/ipc.rs:1595-1621 | a machine joins at the end of the axis and the view stays; a healthy axis stays healthy if and only if the connection has no machine on it yet |
| `Cascade.Compositor.SetRemoteRequest` | src/ipc.rs:1518-1580 | refused without a server or with a bad lease, and then nothing changes; else all three gates as asked and armed, unless the server is lost over it, and every change announced |
| `Cascade.Compositor.SetViewRequest` | src/ipc.rs:1632-1644 | an index in range is followed, one beyond the end the last machine's, at home with none |
| `Cascade.Compositor.FocusMachineRelative` | src/remote.rs:122-128 | a step in range follows the machine there, one beyond the end the last, one below the first the local machine |
| `Cascade.Compositor.CaptureReachesLiveClient` | src/remote.rs:56-67 | with a healthy axis captured input always has a live client to go to |
| `Cascade.Compositor.PointerMotion` | src/input.rs:980-996 | relative motion moves the pointer to the nearest place on the remote in view |
| `Cascade.Compositor.PointerMotionAbsolute` | src/input.rs:1139-1156 | absolute motion maps to the same fraction of the remote, and past an edge to the edge |
| `Cascade.StaleMachine` | src/ipc.rs:1605-1620 | a run in which a machine outlives its client: registering twice because the first reply could not be written |
| `CaptureStream.ClampKeeps` | src/capture_stream.rs:90-110 | clamping keeps exactly the points inside the framebuffer, and no empty rectangle |
| `CaptureStream.BandRows` | crates/shoestring-remote/src/lib.rs:68-73 | at least one row, no more than fit under the tile cap, and no fewer |
| `CaptureStream.BandsPartition` | src/capture_stream.rs:112-127 | the bands of a region partition it |
| `CaptureStream.BandAt` | src/capture_stream.rs:112-127 | each band in closed form: from the top down, as many rows each, the last what is left |
| `CaptureStream.AllBandsCover` | src/capture_stream.rs:112-127 | cutting overlapping regions changes nothing about how often a point is covered |
| `CaptureStream.WireFits` | src/capture_stream.rs:129-136 | every region of an output survives the 16-bit fields if and only if both sides are below 65536 |
| `CaptureStream.DrawnPixel` | src/capture_stream.rs:192-214 | tiles of one source drawn over an image: the source where they reach, the image elsewhere |
| `CaptureStream.FramesDraw` | crates/shoestring-remote/src/lib.rs:79-107 | however tiles are split over frames, the viewer draws the same |
| `CaptureStream.SeqWraps` | crates/shoestring-remote/src/lib.rs:94-104 | frame numbers are sums in 32 bits |
| `CaptureStream.FrameMessages` | crates/shoestring-remote/src/lib.rs:79-107 | every tile is sent once and in order, frames numbered on, only a lone tile may pass the cap, and each frame but the last has no room for the next tile |
| `CaptureStream.WellSpokenMeans` | src/capture_stream.rs:321-335 | a stream a viewer understands begins with Ready, has no other, tells each later size only when it differs, and numbers its frames from 1 |
| `CaptureStream.FramesSpoken` | crates/shoestring-remote/src/lib.rs:86-107 | frames inside the size told keep a stream understood |
| `Mirror.ClampAllCovers` | src/capture_stream.rs:306-313 | the clamped damage covers each point of the framebuffer as often as the damage does, and no other |
| `Mirror.TilesReach` | src/capture_stream.rs:338-350 | the tiles collected carry this render's pixels and reach exactly the bands that read back |
| `Mirror.TilesInOrder` | src/capture_stream.rs:338-350 | one tile for each band that reads back, in the order of the bands |
| `Mirror.PushReaches` | src/capture_stream.rs:302-350 | with every readback good a push reaches exactly its regions |
| `Mirror.PushExact` | src/capture_stream.rs:298-350 | a push, full or not, is current if and only if every pixel it failed to read back was right already |
| `Mirror.FullPushShows` | src/capture_stream.rs:298-350 | with every readback good a full push shows the framebuffer whatever the surface held |
| `Mirror.IncrementalPushExact` | src/capture_stream.rs:302-350 | a damage push on a current image is current if and only if every pixel that changed was read |
| `Mirror.IncrementalPushShows` | src/capture_stream.rs:302-350 | with damage that covers the change and every readback good, it is |
| `Mirror.NoRegionNoChange` | src/capture_stream.rs:314-317 | nothing to send means nothing changed |
| `Mirror.LockedPushShows` | src/capture_stream.rs:336-343 | the static frame fills the surface |
| `Mirror.LockedTilesAreFill` | src/capture_stream.rs:336-343 | nothing but the fill colour is encoded while locked outside the preview |
| `Mirror.TileCache.Get` | src/capture_stream.rs:200-213 | the cached tile is what this render encodes for the region, encoded once, a failure remembered |
| `Mirror.TurnShows` | src/capture_stream.rs:262-368 | a turn keeps what a subscriber's flags promise of its image: a push of the whole output makes it good anew with only its own readbacks, an incremental one given the image before it and damage that covers the change |
| `Mirror.PushSpoken` | src/capture_stream.rs:316-365 | what a push queues goes on from what the subscriber was told: Ready first and once, Resize exactly where the size differs, frames numbered on and inside the size |
| `Mirror.IdleCostsNothing` | src/capture_stream.rs:295-317 | an in-sync subscriber is due nothing if and only if no damage is left; a locked one if and only if it has the static frame |
| `Mirror.CatchUpIsFull` | src/capture_stream.rs:298-305 | after a skip, a resize or an unlock the next push is the whole output |
| `Mirror.DamageAndNoMore` | src/capture_stream.rs:302-318 | any other push carries the clamped damage and no more, each point as often as it was damaged |
| `Mirror.FailedReadbackLeavesHole` | src/capture_stream.rs:345-366 | a failed readback leaves stale pixels in a subscriber that counts as in sync |
| `Mirror.CaptureSub.Push` | src/capture_stream.rs:262-368 | dropped, skipped with a resync owed, due nothing, or sent what it is due, as a stream the viewer understands |
| `Mirror.CaptureSub.Serve` | src/capture_stream.rs:262-368 | what can be relied on after one subscriber's turn, its image and what was queued |
| `Mirror.Output.PushCapture` | src/capture_stream.rs:228-378 | the main invariant over every run: each subscriber left has been queued a stream its viewer understands, and its rebuilt image is what its flags promise so far as it can be relied on; only fill is queued while locked |
| `Mirror.Output.Subscribe` | src/capture_stream.rs:77-88 | a fresh subscriber owes nothing yet and is due everything |
| `Mirror.Output.Teardown` | src/capture_stream.rs:380-394 | every stream gets its goodbye and goes |
| `Workspaces.DroppingKeeps` | src/workspace.rs:183-187 | taking a window out of a stack keeps the others and their order free of repeats |
| `Workspaces.DroppingOrder` | src/workspace.rs:183-187 | any two others stay in the order they were in |
| `Workspaces.LivingOrder` | src/workspace.rs:172-180 | pruning leaves the living in the order they were in |
| `Workspaces.DroppedRaised` | src/workspace.rs:183-187 | focusing puts the window on top, once, and leaves the others as they were |
| `Workspaces.PushedOk` | src/workspace.rs:183-187 | focusing a window of the workspace keeps its stack free of repeats and of other workspaces' windows |
| `Workspaces.HistoryMovedOk` | src/picker.rs:401-403 | moving a window leaves every stack sound: on top where it goes, on no other |
| `Workspaces.HistoryMovedMeans` | src/picker.rs:401-403 | on top where it goes, gone from where it was, the others in order and other stacks untouched |
| `Workspaces.DiscardedAreDead` | src/state.rs:1735-1746 | on the active workspace the refocus loop discards only windows that are gone |
| `Workspaces.LatestPicked` | src/state.rs:1735-1746 | what is picked is the topmost window alive and mapped, and there is none only when no window is |
| `Workspaces.PickedWithout` | src/picker.rs:430-446 | once a window has been taken out it is the topmost of the others |
| `Workspaces.ThereAndBack` | src/state.rs:1696-1733 | leaving a workspace and coming back finds every living window exactly where it was |
| `Workspaces.Desktop.LastFocused` | src/workspace.rs:191-200 | the latest living entry; the dead ones above it go |
| `Workspaces.Desktop.Pick` | src/picker.rs:433-441 | the refocus loop ends and picks the latest entry that is both alive and mapped |
| `Workspaces.Desktop.FocusWindow` | src/state.rs:1341-1369 | the window goes to the top of the active stack, the others in the order they were in |
| `Workspaces.Desktop.Refocus` | src/picker.rs:430-446 | keyboard focus goes to the topmost window alive and mapped, or nowhere |
| `Workspaces.Desktop.MapNew` | src/handlers/xdg_shell.rs:26-72 | a new window is assigned to the active workspace, mapped and focused |
| `Workspaces.Desktop.Die` | src/workspace.rs:172-180 | a client's death alone breaks nothing |
| `Workspaces.Desktop.RefreshSpace` | src/backend/udev.rs:1070 | what is gone leaves the space, and only that |
| `Workspaces.Desktop.ToplevelDestroyed` | src/handlers/xdg_shell.rs:79-111 | a tracked window leaves every structure and its close is announced; one not tracked, like a minimized one, is not found, leaves its entry behind and is not announced |
| `Workspaces.Desktop.Forget` | src/workspace.rs:165-170 | untracked and out of every stack |
| `Workspaces.Desktop.MinimizeWindow` | src/input.rs:468-491 | the window moves from the space to the minimized stack with its place; keyboard focus stays on it, against the comment |
| `Workspaces.Desktop.TakeMinimized` | src/layout.rs:91-94 | exactly that entry is taken out |
| `Workspaces.Desktop.UnminimizeWindow` | src/input.rs:497-508 | back on the active workspace at its place, focused; a no-op if not minimized |
| `Workspaces.Desktop.PopLive` | src/layout.rs:96-108 | pops down to the last living entry; none only when all are dead |
| `Workspaces.UnstackedAt` | src/layout.rs:91-94 | taking an entry out by name is removing it at its first position, order kept |
| `Workspaces.Desktop.UnminimizeLast` | src/input.rs:510-523 | the last living one comes back; those above it whose client is gone are dropped |
| `Workspaces.Desktop.PruneDead` | src/workspace.rs:175-180 | everything dead goes from the tracking and from every stack |
| `Workspaces.Desktop.FocusWorkspace` | src/state.rs:1678-1750 | the switch: positions and focus remembered, exactly the target's living windows mapped where they were, focus to its latest |
| `Workspaces.Desktop.LeaveAndReturn` | src/state.rs:1678-1750 | away and back: the same windows in the same places and the same focus |
| `Workspaces.Desktop.ActivateWindow` | src/picker.rs:492-515 | wherever the window was, it ends mapped on the active workspace and focused; a dead one no longer listed anywhere is only given the keyboard |
| `Workspaces.Desktop.Reassign` | src/picker.rs:395-421 | assignment, position, both stacks and the mapping after a move |
| `Workspaces.Desktop.MoveWindowToWorkspace` | src/picker.rs:367-446 | the errors in order, the whole state after a move, and focus moved on only when the focused window left the screen, to the topmost of the others |
| `Workspaces.FocusStaysOnMinimized` | src/input.rs:468-491 | a run in which the keyboard stays on a minimized window |
| `Workspaces.ClosedWhileMinimized` | src/handlers/xdg_shell.rs:79-83 | a run in which a window closed while minimized is not announced and keeps its entry |
| `Scroll.StepsUnique` | src/input.rs:1386-1393 | the number of thresholds stepped is the only one that leaves less than a threshold |
| `Scroll.TravelInPieces` | src/input.rs:1364-1369 | a turn of the wheel cut into events takes the same steps and leaves the same travel |
| `Scroll.EventsAddUp` | src/input.rs:1364-1380 | two events in one direction do what one of their sum does |
| `Scroll.DesktopScroll.Step` | src/input.rs:1387-1406 | one step, or at the end none and the travel dropped |
| `Scroll.DesktopScroll.Drain` | src/input.rs:1386-1407 | the loop ends at the closed form: floor(|a|/T) steps against a's sign, clamped, with less than T left |
| `Scroll.DesktopScroll.Switch` | src/input.rs:1370-1408 | the same from the event, with its fallback and its reset on reversal |
| `Lease.LeftRoundsUp` | src/remote_lease.rs:86-89 | the seconds reported are the time left rounded up |
| `Lease.ZeroOnlyWhenOver` | src/remote_lease.rs:76-89 | a limit reads 0 if and only if it has passed |
| `Lease.DeadlineIsFirstZero` | src/remote_lease.rs:66-84 | the deadline is the first moment at which either report reads 0 |
| `Lease.CheckedIsNotClamped` | src/ipc.rs:1471-1489 | what the request check lets through is granted in full |
| `Lease.CheckedIff` | src/ipc.rs:1471-1489 | exactly which requests are let through, and which error comes first |
| `Lease.GrantReadsAsAsked` | src/remote_lease.rs:31-80 | a granted lease reports at once the seconds asked for, and without a limit there is none |
| `Lease.LongestLease` | src/remote_lease.rs:42-53 | a longer lease would end after the longest there is |
| `Lease.IdleClock` | src/remote_lease.rs:56-64 | over any run of viewer counts the idle clock stands at the first zero of the last unbroken stretch of zeros, repeats or not |
| `Lease.RemoteGate.NeverOverstays` | src/remote_lease.rs:1-14 | the gate is never on past its time limit, nor past an unbroken idle stretch with nobody connected, by more than the loop is late |
| `Lease.RemoteGate.Arm` | src/remote_lease.rs:122-148 | a timer at exactly the deadline, or none; false only when one was needed and refused |
| `Lease.RemoteGate.SetRemote` | src/state.rs:1962-1976 | any flip drops the lease and its timer; off means no viewers |
| `Lease.RemoteGate.Flip` | src/ipc.rs:1544-1570 | the gate, lease and viewer count after a flip, and exactly when the timer is missing |
| `Lease.RemoteGate.SetRemoteRequest` | src/ipc.rs:1518-1580 | refused requests change nothing, a lease without a timer leaves the gate off, every change is announced, and the viewer count last announced goes stale if and only if an accepted request resets it with the gate off before and after |
| `Lease.RemoteGate.ReportViewers` | src/ipc.rs:1584-1594 | the idle clock runs exactly while nobody is connected; a change is announced once |
| `Lease.RemoteGate.LeaseViewersChanged` | src/remote_lease.rs:107-120 | fails closed exactly when the new deadline's timer is refused |
| `Lease.RemoteGate.TimerFires` | src/remote_lease.rs:133-137 | a timer that fires always ends the gate |
| `Lease.RemoteGate.Tick` | src/remote_lease.rs:156-168 | off at the deadline, re-armed before it, off if that fails |
| `Lease.RemoteGate.TurnOff` | src/state.rs:1981-1986 | off, announced if it was on |
| `Lease.RemoteGate.DropClient` | src/ipc.rs:2971-2987 | the server's departure turns the gate off |
| `Lease.StaleViewerCount` | src/state.rs:1971-1974 | a run in which it does |
| `Command.CappedByChunks` | src/remote_command.rs:268-281 | capping chunk by chunk is capping the whole, and the flag is set exactly when a stream exceeds the cap |
| `Command.Append` | src/remote_command.rs:268-281 | the buffer stays the capped prefix of everything that came |
| `Command.Commands.AtMostOneReply` | src/remote_command.rs:311-347 | at most one reply goes to a client unless its command was recorded and then could not be watched |
| `Command.Commands.StillAwaited` | src/remote_command.rs:298-309 | where both pipes could be watched a pending command whose child has exited still has an open pipe watched; whatever could be watched, the grace is armed unless that failed |
| `Command.Commands.AbandonedIff` | src/remote_command.rs:229-248 | after the exit a pending command has nothing left on the loop if and only if its grace could not be armed and an unwatched pipe is waited for |
| `Command.Commands.NothingOutlivesTheReply` | src/remote_command.rs:311-328 | once the reply is out the one source that can be left is the watch on standard output, and it is exactly when watching standard error had failed and that pipe has not closed |
| `Command.Commands.RunCommand` | src/remote_command.rs:74-151 | what is recorded, registered and replied for each way a start can fail |
| `Command.Commands.Output` | src/remote_command.rs:268-281 | a chunk is kept up to the cap, or discarded after the reply |
| `Command.Commands.PipeClosed` | src/remote_command.rs:198-207 | the reply goes out exactly when the other pipe is closed and the child has exited; what stays registered is stated exactly |
| `Command.Commands.NoteReaped` | src/remote_command.rs:212-227 | the reply goes out exactly when both pipes are closed, else the grace begins; what stays registered is stated exactly |
| `Command.Commands.GraceOver` | src/remote_command.rs:250-261 | the group is killed and the reply goes out |
| `Command.Commands.TimedOut` | src/remote_command.rs:286-296 | the group is killed, nothing is replied |
| `Command.Commands.MaybeFinalize` | src/remote_command.rs:298-309 | the reply goes out if and only if both pipes are closed and the child has exited |
| `Command.Commands.Finalize` | src/remote_command.rs:311-347 | one result, with the exit code or -1 and the capped output |
| `Command.Commands.HalfAnsweredTwice` | src/ipc.rs:994-1011 | every result of a command that could not be watched follows a refusal to the same client |
| `Command.TwoReplies` | src/ipc.rs:990-1012 | a run in which a client gets both, and standard output stays watched after that if it was standard error that could not be watched |
| `Command.NeverConcluded` | src/remote_command.rs:229-248 | a run in which a command stays pending with nothing registered for it |
| `Census.RemovalAgrees` | src/metrics.rs:82-104 | dropping an object drops one from its owner's row, and the row with the last |
| `Census.CreationAgrees` | src/metrics.rs:74-79 | a new object adds one to its owner's row |
| `Census.ResourceCensus.Insert` | src/metrics.rs:74-79 | rows agree with the objects after a create, a duplicate one included |
| `Census.ResourceCensus.Remove` | src/metrics.rs:82-86 | and after a destroy, an unknown one included |

## Left out

- Rendering, GPU, DRM, dmabuf, shm, readback and encoding: a tile is a rectangle with its pixels, encoding is lossless and its length is any function of the tile.
- Wayland protocol plumbing, X11, broadcasting to taskbars, idle inhibition, cursor, diagnostics: they follow the decisions modelled and take none of these.
- JSON, UTF-8, regular expressions and the request dispatch table: a request is a call of the operation, a filter any predicate, the handler any function of the lines so far.
- Process spawning, signals, pipes and file descriptors: events a command may see in any order.
- `i32` overflow of coordinates, `u32` overflow of counts, `u64` wrap of ids: the models use unbounded integers there (the calendar's `i32` year and the frame numbers' `u32` wrap are modelled).
- Floating-point rounding in wheel travel and pointer positions: `real`.
- Sharing of clients through reference counts and borrow checks at run time: a client is its id.
- Sticky and always-on-top windows, window rules, stacking order and a locked session's refusal of focus.
- `move_window_to_workspace`, the keybinding's variant of the move by id: the same steps with fewer cases.
- Window-capture streams, probes, the picker, drags and key repeat, which a disconnect or a release also cancels.
- The machine label, the clipboard bridge and the clients' own protocol code.
- The metrics sampler and its leak detector: one-function facts.
- `remote_screenshot`'s pending captures: the lifecycle of `Command` without cap, timeout and grace.
- Layout.RoundTrip: asks that the client catches up with what it was sent before the next operation, which `Layout.StepKeepsHome` shows is needed; the user's own moves and resizes are not modelled.
- Cascade.Compositor.Disconnect: the view follows its client from healthy states, which all are in a run in which no connection registers while on the axis already.
- Cascade.Compositor.RegisterRemoteClient: for up to 255 machines; the original accepts a 256th and its 8-bit indices wrap, which `Cascade.AxisFitsIff` shows to be the exact limit.
- Cascade.Compositor.EmitIpc: which sockets break and which waits a window event answers is the environment's choice; who leaves over it is stated.
- Mirror.Output.PushCapture: an image is relied on only as far as `Mirror.TurnShows` says, which asks for sides below 65536; what a subscriber's surface shows after a failed write is not claimed, as it is dropped.
- Flushers.Server.BacklogIsAttended: excepts clients whose socket failed, which `Flushers.UnattendedIffFailed` shows to be real.
- Lease.RemoteGate.SetRemoteRequest: events are taken by subscribers without failing; the case where announcing drops the server itself is in `Cascade`.
- Lease.RemoteGate.TimerFires: the loop runs a timer at most a fixed lateness after it is due; with none the bounds are exact.
- Command.Commands.NoteReaped: assumes the reaper reports each child once; a pid reused while an older command with it is still pending is not modelled.
- Workspaces.Desktop.ActivateWindow: for a window that is tracked, minimized or dead; a living window still listed is always one of the first two.
- Workspaces.Desktop.MinimizeWindow: the size recorded with the place is not modelled, as restoring does not use it.
