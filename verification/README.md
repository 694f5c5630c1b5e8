# Verification of the log, mirror, file and search cores

A Dafny model of the parts of the debugging tool that hold state or take text apart, with proofs of
what they are for. `dafny verify dfyconfig.toml` checks everything.

**Slots.** The log capture service and the mirror service keep at most one slot for each device serial.
`SlotTable` holds every lock section, as a function of the table and as a method of the class `SlotBook`
proved against it. `SlotProtocol` interleaves any number of start, stop and worker calls: a step is one
lock section, one notification, one subscription, one wake-up, one join that returns or one published
event; `Notify` is an epoch counter, and a waiter completes once the epoch moves past the one it
subscribed in. A stop joins the worker whose handle its slot held, a refused start joins its own worker,
and both stay where they are until that worker's call is done. The device, the clock and the worker's end
are arbitrary. `SlotRuns` proves what holds in every run: no lost wake-up, no deadlock by sleep or by
join, from every reachable state a continuation that ends each sleep and each join, and one terminal event
for each generation that left. `SlotAnswers` proves what starts return. `Browse` does the same for browsing
sessions, where the table and every slot have a lock of their own, a call works in several steps and the
session's shell goes from hand to hand.

**Device log.** `Parse` and `Clock` read the header lines of AOSP's long format, `ClockForms` and
`HeaderForms` say which texts are taken for what, `Assembler` makes records out of lines, `StackTrace`
expands abbreviated frames. `Ring` is the bounded ring that numbers records, `Windows` the hit index kept
beside it. `WindowFacts` and `IndexRuns` prove what the index is after any run of emits, resizes, latches
and releases in which binds and clears come in the two halves that the locks of ring and book make of them:
the filtered ring but for what passed a window by between two halves, and pages read back exactly that. The
three sections of an emit are one action there, which `IndexRuns.EmitIsAtomic` justifies for whatever else
runs between them, except a bind of the same serial, which is `IndexRuns.BindInsideEmitIff`. `Follow` is
the resume of a device log across worker restarts, as methods on ring and book that others may clear and
resize between any two records; `FollowRuns` proves what the ring is given that way, streams that break off
inside a record included, and `Pipeline` joins printer, assembler, resume and ring. `Views` tells what a
window shows from its bind, the latches since and the ring. `Batch` gathers hits for a bounded sink.

**Mirror frames.** `Frames` is the eight-slot queue with its sticky configuration frame. A step of its runs
is a single lock section or a single atomic access of some push, pop, reset or close, and any list of steps
is a run, so every interleaving of any number of these calls is among them. In the service one task both
pushes and resets, and only pops run beside it: `Frames.NewestIsNeverLost` is about those runs, and
`Frames.OverlappingResetUnmarks` says why it has to be one.

**Remote files.** `Paths` is the normal form of device paths and the roots that guard them, `Guard` resolves
the nearest existing ancestor against any answers of the device, `Tree` expands dragged directories
against any listings, circular ones included.

**Search and quoting.** `Pinyin` is the backtracking matcher, `Ranges` merges ranges, `Highlight` lights up what
a query finds by either, `Quote` quotes shell arguments.

`Text`, `Order`, `Arithmetic` and `Options` hold the string operations, the order of texts, the 32-bit bounds
and the result types they share.
Sequence numbers, generations, epochs and drop counters are unbounded; the two window counters and the
batch counter that saturate at 32 bits are modelled as they saturate.

Nine properties do not hold of the code without a condition. Each is stated with its exact condition and
with an input at which it fails:

- over restarts each record of a device log enters once, in order, exactly if no worker is sent again what
  the ring has lost of its own last clock, or anything at all once the ring was emptied, and no record of
  the last clock or later is cut off inside its body (`FollowRuns.ExactlyOnceIff` for any number of
  restarts, with clears and resizes between any two records; `Pipeline.PrintedLogEntersOnceIff` on the
  printed text; `FollowRuns.ResumeIsExactIff` for a single restart; it fails in the runs of
  `FollowRuns.RestartRepeats`, `FollowRuns.ClearedRestartRepeats` and `FollowRuns.CutRecordStays`);
- a window that has caught up is the filtered ring exactly if it wants nothing of what came between the two
  halves of a clear of its serial or of its own bind (`IndexRuns.IndexEqualsFilterIff` over any run,
  `IndexRuns.ClearIsCleanIff` and `IndexRuns.BindIsCleanIff` for one clear and one bind; it fails in the run
  of `IndexRuns.EmitInsideClearIsLost`);
- the signal counters are exact in all runs with capacities up to `c` exactly if `c` fits in 32 bits
  (`IndexRuns.CountersExactIff`; it fails in the run of `IndexRuns.FloodDrifts`);
- a window whose bind enters the book inside an emit to its serial is the filtered ring exactly if the record
  lies below its range, or the commit adds it exactly when the bind wants it and has not read it itself
  (`IndexRuns.BindInsideEmitIff`; a window bound again behind the push has the record twice,
  `IndexRuns.RebindInsideEmitDoubles`);
- the header parser returns exactly if the line it is given has no brackets, no clock, or no blank of more
  than one byte before its level (`Parse.HeaderReturnsIff`; it fails at the line of `Parse.WideBlankPanics`);
- a header printed in the long format reads back exactly if its ids do not begin with a word that is taken
  for a time zone (`Parse.ReprintedReadsTheSame`; it fails at the uid `+0800`, `Parse.OffsetUidHeader`);
- the text test "lies under" is the comparison of segments except for the root "/"
  (`Paths.UnderAgreesIff`; under "/" nothing passes the strict test, `Paths.StrictlyUnderIsPrefix`);
- the relative path of a dragged entry is its remote path from the dragged entry's own name on exactly if
  every name listed on the way down adds a single segment (`Tree.WaySpelledIff`; it fails at a file named
  `a\b`, `Tree.BackslashStrays`, and any directory that may be dragged may hold one,
  `Tree.BackslashStraysSomewhere`);
- an occurrence is lit to its end exactly if it does not overlap one taken before it, or the next one taken
  begins where that one ends (`Highlight.WhollyLitIff`; the second `aa` of `aaa` is not,
  `Highlight.OverlapStaysDark`).

## Model

| member | source | states |
|---|---|---|
| SlotTable.GenerationsAreIsolated | core/yohu-logsrv/src/capture.rs:326-337 | no publish, abandon, stop end or release for one generation alters a slot of another |
| SlotTable.SlotBook.Decide | core/yohu-logsrv/src/capture.rs:200-226 | the start decision: the live slot of the serial with its own generation and nothing changed; waiting while it is in transit; else a starting slot under the next generation |
| SlotTable.SlotBook.Publish | core/yohu-mirror/src/service.rs:239-250 | a start is published only into its own starting slot; a capture becomes live with it |
| SlotTable.SlotBook.MarkLive | core/yohu-mirror/src/service.rs:328-343 | the first picture makes exactly the starting slot of its generation live |
| SlotTable.SlotBook.Stop | core/yohu-logsrv/src/capture.rs:354-370 | a stop takes over a slot that no other stop holds |
| SlotTable.SlotBook.RememberAndRemove | core/yohu-logsrv/src/capture.rs:102-108 | removal remembers the capture's generation |
| SlotTable.SlotBook.Finish | core/yohu-logsrv/src/capture.rs:389-401 | the end of a stop removes only the stopping slot of its own generation |
| SlotTable.SlotBook.Abandon | core/yohu-mirror/src/service.rs:525-538 | giving up a start removes only the starting slot of its own generation |
| SlotTable.SlotBook.Release | core/yohu-mirror/src/service.rs:552-569 | a worker's end removes only the slot of its own generation |
| SlotTable.SlotBook.Status | core/yohu-logsrv/src/capture.rs:179-198 | the reported generation is the slot's, else the last one removed |
| SlotRuns.Invariant | core/yohu-mirror/src/service.rs:162-264 | every interleaving keeps the table, the calls, the endings and the wake-ups consistent |
| SlotRuns.NoLostWakeup | core/yohu-logsrv/src/capture.rs:256-262 | a call asleep though its phase is gone is owed a notify by another call, and that call's next two steps wake it |
| SlotRuns.DebtorWakesSleeper | core/yohu-logsrv/src/capture.rs:402-409 | a call that owes a notify needs at most two steps to wake any sleeper |
| SlotRuns.NoDeadlock | core/yohu-logsrv/src/capture.rs:371-387 | whenever a call sleeps or is held up by a join, a call can move that waits for no other, whatever the device and the worker do, and that concerns it: itself, one that owes a notify, one on its serial, or the worker of a generation issued to its serial |
| SlotRuns.JoinedWorkerCanMove | core/yohu-mirror/src/service.rs:443-445 | a worker that holds up the join of a stop or of a refused start has been cancelled, and its own next step moves it |
| SlotRuns.EverySleeperCanWake | core/yohu-logsrv/src/capture.rs:256-262 | every sleeper of every reachable state has a continuation in which it wakes and decides again |
| SlotRuns.EveryJoinCanEnd | core/yohu-logsrv/src/capture.rs:371-387 | every join has one in which the worker it waits for comes to its end |
| SlotRuns.OneEndingPerGeneration | core/yohu-mirror/src/service.rs:446-470 | terminal events of a generation, those in flight counted, are one if it left the table and none if not |
| SlotRuns.IssuedOnceAndGoneForGood | core/yohu-mirror/src/service.rs:57-61 | a generation is issued once, to one serial, and never returns once it has left |
| SlotRuns.StatusNeverDecreases | core/yohu-logsrv/src/capture.rs:179-198 | the generation reported for a serial never decreases over any run |
| SlotAnswers.StartAnswers | core/yohu-logsrv/src/capture.rs:200-226 | in every run a start that decides adopts the generation that is in the table for its serial, live and issued to it, if and only if there is one; waits if and only if the slot is in transit; and else enters a slot under a generation never issued before |
| SlotAnswers.AnswersHold | core/yohu-logsrv/src/capture.rs:242-351 | what a start returns was issued to its serial: adopted, it was in the table, live, when the start decided; its own, that start entered it when it was new and published it while it was starting |
| SlotAnswers.OneStarterPerGeneration | core/yohu-logsrv/src/capture.rs:346-350 | no two starts return the same generation as their own |
| Browse.SessionTable.Begin | core/yohu-files/src/browse.rs:125-152 | an attach adopts the live session under its own generation, waits for a starting one, else makes a new slot under the next |
| Browse.SessionTable.Publish | core/yohu-files/src/browse.rs:174-199 | only the starting session of that generation becomes live, with the shell and the mode given |
| Browse.SessionTable.Release | core/yohu-files/src/browse.rs:294-320 | an uninterrupted release closes exactly the session of its generation, says whether it did, and leaves other serials alone |
| Browse.SessionTable.Abandon | core/yohu-files/src/browse.rs:201-228 | an uninterrupted abandon closes and removes exactly its own starting session, and notifies whenever the serial has a slot |
| Browse.SlotsOnlyMoveForward | core/yohu-files/src/browse.rs:37-48 | over every run a slot only moves starting, live, closed within its generation and never returns to the table |
| Browse.GenerationsAreUnique | core/yohu-files/src/browse.rs:141-150 | no two slots share a generation, across all serials |
| Browse.OneSessionPerSerial | core/yohu-files/src/browse.rs:294-332 | of two open slots of a serial one is about to be closed by a call in progress |
| Browse.StaleStepsChangeNothing | core/yohu-files/src/browse.rs:558-587 | a step on behalf of another generation leaves a serial's session and its place in the table as they are |
| Browse.ListedUnderCurrent | core/yohu-files/src/browse.rs:370-373 | the last check of a listing lets entries out only if its generation was the session when the slot was looked up |
| Browse.EveryShellHasOnePlace | core/yohu-files/src/browse.rs:446-560 | in every run each shell that was opened is in one slot, in the hands of one call or let go, and in one of these only; a device asked in single commands holds none |
| Browse.OwnGenerationAlone | core/yohu-files/src/browse.rs:174-320 | a session is published, given up or released by its own generation alone, and the answer says so |
| Browse.NotificationsAreExact | core/yohu-files/src/browse.rs:201-332 | over every run, what was notified and what is still owed is exactly what the calls were to notify |
| Browse.NoLostWakeup | core/yohu-files/src/browse.rs:240-247 | a waiter whose session is no longer starting is awake or owed a notification |
| Ring.OperationsKeepValid | core/yohu-logsrv/src/ring.rs:115-144 | numbers in the ring stay consecutive and within capacity under push, resize and clear, and a pushed record is the newest |
| Ring.FindByOffset | core/yohu-logsrv/src/ring.rs:146-168 | the lookup by offset agrees with linear search, so an evicted or future number yields nothing |
| Ring.ChainVisitsAll | core/yohu-logsrv/src/ring.rs:197-207 | following pages while they are truncated visits every retained record once, in order, for any page size of at least one |
| Ring.RingBuffer.constructor | core/yohu-logsrv/src/ring.rs:102-113 | a ring begins empty, with a capacity of at least one |
| Ring.RingBuffer.EvictOverflow | core/yohu-logsrv/src/ring.rs:46-50 | only the newest records up to the capacity stay |
| Ring.RingBuffer.SetCapacity | core/yohu-logsrv/src/ring.rs:116-121 | a new capacity takes effect at once and numbers go on |
| Ring.RingBuffer.Push | core/yohu-logsrv/src/ring.rs:124-144 | a record gets the next number; the oldest number left is reported |
| Ring.RingBuffer.Clear | core/yohu-logsrv/src/ring.rs:210-214 | clearing empties the ring and does not go back in numbers |
| Ring.RingBuffer.LinesBySeq | core/yohu-logsrv/src/ring.rs:147-168 | the lookup by offset returns what linear search for each number returns |
| Ring.RingBuffer.Snapshot | core/yohu-logsrv/src/ring.rs:198-207 | a page holds the first records from a number on, and says if newer ones remain |
| Ring.RingBuffer.Resume | core/yohu-logsrv/src/ring.rs:233-244 | the last clock, and exactly the process, thread, tag and text of each record in the ring at it |
| Windows.WindowBook.Bind | core/yohu-logsrv/src/windows.rs:69-101 | binding rebuilds the index by filtering the ring and returns the page to draw |
| Windows.WindowBook.Rebuild | core/yohu-logsrv/src/windows.rs:70-84 | the loop over the ring gives the filtered index and its saturated signal count |
| Windows.WindowBook.Release | core/yohu-logsrv/src/windows.rs:103-105 | a window is forgotten and no other changes |
| Windows.WindowBook.ClearSerial | core/yohu-logsrv/src/windows.rs:108-115 | a serial's windows lose their hits and keep their registration |
| Windows.WindowBook.Latch | core/yohu-logsrv/src/windows.rs:121-130 | latching to the end forgets the boundary; the page is the view |
| Windows.WindowBook.Page | core/yohu-logsrv/src/windows.rs:132-136 | an explicit page by index and count |
| Windows.WindowBook.ReadPage | core/yohu-logsrv/src/windows.rs:231-258 | which hits a page shows, how many are pending |
| Windows.WindowBook.Prepare | core/yohu-logsrv/src/windows.rs:139-157 | exactly the serial's windows whose filter passes, each once |
| Windows.WindowBook.EvictBefore | core/yohu-logsrv/src/windows.rs:199-215 | hits that left the ring are dropped and their signals uncounted |
| Windows.WindowBook.Commit | core/yohu-logsrv/src/windows.rs:160-196 | eviction, then the new hit for every prepared window that takes it, with one note each |
| Windows.WindowBook.Append | core/yohu-logsrv/src/windows.rs:170-195 | every listed window that takes the record gets it once |
| WindowFacts.FedIsExact | core/yohu-logsrv/src/follow.rs:63-82 | feeding one record makes the hits of a lagging window exactly what it wants of the ring and was shown, for every capacity |
| WindowFacts.FedCounts | core/yohu-logsrv/src/windows.rs:171-215 | in a ring within 32 bits feeding keeps the signal counter right, stale prefix or not |
| WindowFacts.BoundIsExact | core/yohu-logsrv/src/windows.rs:69-101 | a bound window is exact |
| WindowFacts.TracksFilterIff | core/yohu-logsrv/src/windows.rs:139-215 | behind its stale prefix a window is the filtered ring if and only if it was shown all it wants |
| WindowFacts.ResizedTracks | core/yohu-logsrv/src/ring.rs:116-121 | a resize leaves at most a stale prefix |
| WindowFacts.HitsReadBack | core/yohu-logsrv/src/windows.rs:247-248 | reading a window's hits gives exactly the ring records it wants |
| WindowFacts.PagesTile | core/yohu-logsrv/src/windows.rs:231-248 | successive pages of any size concatenate to all records still in the ring that the window wants and was shown |
| WindowFacts.FirstAfterSplits | core/yohu-logsrv/src/windows.rs:217-229 | the view's end separates hits up to the boundary from those after it |
| WindowFacts.ViewPage | core/yohu-logsrv/src/windows.rs:231-257 | a detached view ends behind exactly the hits up to its boundary; its page is the newest 2^32 - 1 of them, with the rest counted in 32 bits |
| Views.BoundPage | core/yohu-logsrv/src/windows.rs:69-101 | the page of a bind from its own registration and the ring alone: the newest 2^32 - 1 of what it wants, or while it is detached of what it wants up to its boundary, with the rest and the signals counted |
| Views.RowsOfIndexed | core/yohu-logsrv/src/windows.rs:231-248 | a page by index and count: those rows, at least one, of what the window wants |
| IndexRuns.EmitRecord | core/yohu-logsrv/src/follow.rs:63-82 | one record enters ring and windows together; every window that wants it is noted with its new counts and the record |
| IndexRuns.IndexEqualsFilterIff | core/yohu-logsrv/src/windows.rs:139-215 | in any run a window that no resize has left behind is the filtered ring if and only if nothing it wants passed it by during its bind or before the emptying of its serial's windows |
| IndexRuns.IndexLagsByAPrefix | core/yohu-logsrv/src/windows.rs:199-215 | whatever the run, a stale prefix already evicted stands before exactly the ring records the window wants and was shown |
| IndexRuns.NextRecordCatchesUp | core/yohu-logsrv/src/windows.rs:160-169 | the next record of a serial makes all its windows catch up; what passed one by stays missing |
| IndexRuns.PagesTileAlways | core/yohu-logsrv/src/windows.rs:132-136 | in every reachable state pages of any size give exactly the ring records wanted and shown: all that are wanted if and only if none passed by |
| IndexRuns.QuietIndexEqualsFilter | core/yohu-logsrv/src/windows.rs:139-215 | a caught-up window is the filtered ring in every run that lets no record come between the halves of a clear or of a bind |
| IndexRuns.ClearIsCleanIff | core/yohu-logsrv/src/capture.rs:415-421 | a clear with any actions but a clear or resize of the same ring between its halves leaves the newest of what was emitted between them, and an empty window that is the filtered ring if and only if it wants none of that |
| IndexRuns.BindIsCleanIff | core/yohu-logsrv/src/windows.rs:69-101 | a bind with any actions between reading the ring and entering the window leaves the filtered ring if and only if the window wants nothing that came between |
| IndexRuns.EmitInsideClearIsLost | core/yohu-logsrv/src/capture.rs:415-421 | a run in which a record emitted between the halves of a clear stands in the ring and on no page |
| IndexRuns.EmitIsAtomic | core/yohu-logsrv/src/follow.rs:63-82 | the sections of an emit, with anything of other calls between them but a bind to its serial or into the book, leave what the emit in one piece leaves |
| IndexRuns.BindInsideEmitIff | core/yohu-logsrv/src/windows.rs:69-196 | a bind that enters the book between filter and commit of an emit, having read the ring before or behind the push, leaves the filtered ring if and only if the record lies below its range or the commit adds it exactly when it is wanted and was not read |
| IndexRuns.RebindInsideEmitDoubles | core/yohu-logsrv/src/windows.rs:160-196 | a window bound again with its filter behind the push and before the commit has the record twice |
| IndexRuns.CountersFollow | core/yohu-logsrv/src/windows.rs:171-215 | with capacities within 32 bits every signal counter is right in every reachable state, resizes included |
| IndexRuns.FloodDrifts | core/yohu-logsrv/src/windows.rs:182-184 | a run with one larger capacity and 2^32 signals leaves a counter that is not the signal count |
| IndexRuns.CountersExactIff | core/yohu-logsrv/src/windows.rs:182-184 | for every capacity c: all counters are exact in all runs with capacities up to c if and only if c fits in 32 bits |
| IndexRuns.ViewAlways | core/yohu-logsrv/src/windows.rs:217-257 | in every reachable state, whatever the capacities, a page without a range shows its view |
| IndexRuns.DetachedViewAlways | core/yohu-logsrv/src/windows.rs:217-257 | with capacities within 32 bits it shows the whole view and counts everything behind it |
| Views.RegistrationFollows | core/yohu-logsrv/src/windows.rs:84-130 | in every run the windows in the book are exactly those that the actions bound and did not release, each with the filter, range, following and boundary of its last bind and the latches since |
| Views.QuietPageAlways | core/yohu-logsrv/src/windows.rs:217-257 | in a run that lets nothing pass by, a caught-up window shows what its last bind and the latches since let see of the ring, with the right signals |
| Follow.AdmitLine | core/yohu-logsrv/src/follow.rs:85-103 | a replayed record is dropped; a later clock clears the skip set; the rest enters ring and windows |
| Follow.RunFollow | core/yohu-logsrv/src/follow.rs:127-176 | one worker, with others clearing and resizing between its records, is a list of actions of the store of ring and windows: an emit for each admitted record, and what the others do |
| Follow.Supervise | core/yohu-logsrv/src/follow.rs:208-245 | workers are restarted with resume exactly while they end by themselves; the whole is such a list of actions |
| FollowRuns.ReplayAdmits | core/yohu-logsrv/src/follow.rs:46-56 | a resumed stream readmits exactly what the ring has lost of its last clock, all of it if the ring is empty, then exactly what is new |
| FollowRuns.ResumeIsExactIff | core/yohu-logsrv/src/ring.rs:232-244 | a replay adds exactly what is new if and only if the ring holds all of its last clock or the replay breaks off before it |
| FollowRuns.EmptyRingTakesAll | core/yohu-logsrv/src/ring.rs:233-235 | an emptied ring has no last clock, so a resumed stream brings in all it delivers |
| FollowRuns.ResumedStreamTakes | core/yohu-logsrv/src/follow.rs:46-56 | any stream resumed behind a ring, in order or not: up to the first line with a later clock, what stands at the last clock and is not in the ring, by process, thread, tag and text; from there on, everything |
| FollowRuns.FirstLineTaken | core/yohu-logsrv/src/follow.rs:84-103 | a line is dropped if and only if it is earlier than the last clock or the ring holds one like it at that clock; a later one ends the dropping |
| FollowRuns.RestartsAfter | core/yohu-logsrv/src/follow.rs:218-243 | behind an exit or a failure the stream is resumed, behind a cancellation or an offline device nothing follows |
| FollowRuns.RepeatAfterLoss | core/yohu-logsrv/src/follow.rs:84-103 | two records of one moment in a ring of one: the first is taken again |
| FollowRuns.WorkerBrings | core/yohu-logsrv/src/follow.rs:127-176 | what a worker brings in, if its stream may break off inside a record: what is lost at the last clock, what is new, and the record cut off unless it lies before the last clock |
| FollowRuns.ExactlyOnceIff | core/yohu-logsrv/src/follow.rs:207-245 | over any number of restarts, with clears and resizes between any two records, the records brought in are the delivered log, once and in order, if and only if every worker is harmless: it is not sent again what the ring has lost of its last clock, or of anything if the ring is empty, and nothing is cut off at that clock or later |
| FollowRuns.SupervisedOnceIff | core/yohu-logsrv/src/follow.rs:207-245 | the same of the actions of the supervised run on ring and windows |
| FollowRuns.RoomForEachClock | core/yohu-logsrv/src/ring.rs:232-244 | workers of whole records are all harmless in an undisturbed ring that can hold any moment of the log |
| FollowRuns.RestartRepeats | core/yohu-logsrv/src/ring.rs:232-244 | two records of one moment in a ring of one, and a restart: the first enters again |
| FollowRuns.ClearedRestartRepeats | core/yohu-logsrv/src/ring.rs:233-235 | a record, a clear and a restart: the record enters again, whatever the ring can hold |
| FollowRuns.CutRecordStays | core/yohu-logsrv/src/follow.rs:173-175 | a record cut off by the end of its worker stays in front of the whole one, whatever the ring can hold |
| Pipeline.PrintedLogEntersOnceIff | core/yohu-logsrv/src/follow.rs:127-176 | a log printed for each worker, its text broken off behind any line, and read line by line through the assembler, with clears and resizes of the ring between any two records: each record enters the ring once, in order, if and only if every reading is harmless |
| Pipeline.CutStandsOut | core/yohu-logsrv/src/follow.rs:173-175 | a record broken off between the first and the last line of its body is a record of its own, unless another record of its moment reads like it |
| StackTrace.ExpandLines | core/yohu-logsrv/src/stack_trace.rs:50-57 | the loop over the two stacks computes the expansion |
| StackTrace.Context.HandleElided | core/yohu-logsrv/src/stack_trace.rs:99-113 | the last frames of the enclosing trace, marked, or the line itself if there are too few |
| StackTrace.Context.ReadLine | core/yohu-logsrv/src/stack_trace.rs:59-77 | the effect of a line of each kind on stacks and output |
| StackTrace.Context.SwapStacks | core/yohu-logsrv/src/stack_trace.rs:38-41 | a cause makes the current trace the enclosing one |
| StackTrace.ExpandIsIdempotent | core/yohu-logsrv/src/stack_trace.rs:50-113 | expanding expanded lines changes nothing |
| StackTrace.EachLine | core/yohu-logsrv/src/stack_trace.rs:59-77 | what each line adds, told from what was shown before it instead of from stacks |
| StackTrace.EachAbbreviation | core/yohu-logsrv/src/stack_trace.rs:91-113 | a line with dots, the number n and `more` becomes exactly the last n frames of the enclosing section, each with a no-break space behind it, if a trace is open and has that many |
| StackTrace.EveryOtherLine | core/yohu-logsrv/src/stack_trace.rs:59-77 | every other line passes as it is |
| StackTrace.KindIff | core/yohu-logsrv/src/stack_trace.rs:79-97 | which texts are frames, causes and abbreviations of n frames, and that no text is two of these |
| StackTrace.PrintedCountReadsBack | core/yohu-logsrv/src/stack_trace.rs:91-97 | every number printed between dots and `more`, between any blanks, is read as that number |
| StackTrace.NextLine | core/yohu-logsrv/src/stack_trace.rs:99-113 | the same for any way to tell the kinds of lines apart |
| StackTrace.PlainLinesPassOnce | core/yohu-logsrv/src/stack_trace.rs:59-77 | every line that abbreviates nothing passes once, in order |
| Clock.TextOrderIsTimeOrder | core/yohu-domain/src/datetime.rs:27-40 | the order of formatted clocks as texts is their order in time |
| Clock.ParseFormatted | core/yohu-domain/src/datetime.rs:139-163 | parsing a formatted clock gives its parts back |
| Clock.CanonicalIsFixed | core/yohu-domain/src/datetime.rs:57-61 | a canonical clock has 23 characters and stays as it is |
| Clock.IsoMeansTheSame | core/yohu-domain/src/datetime.rs:144-151 | the form with `T`, with or without `Z`, means the same clock |
| Clock.ZoneIsReadOver | core/yohu-domain/src/datetime.rs:146-151 | a zone behind the clock changes nothing |
| Clock.ReadFracMillis | core/yohu-domain/src/datetime.rs:216-233 | the digit buffer holds the first three digits, filled up with zeros |
| Clock.ShortFraction | core/yohu-domain/src/datetime.rs:229-232 | up to three digits of a fraction are scaled to thousandths |
| Clock.LongFraction | core/yohu-domain/src/datetime.rs:218-225 | digits after the third do not count |
| ClockForms.DateIff | core/yohu-domain/src/datetime.rs:171-191 | a text is a date, and which, exactly if it is four, two and two digits with strokes between |
| ClockForms.TimeIff | core/yohu-domain/src/datetime.rs:193-233 | a text is a time, and which, exactly if it is hours, minutes and seconds in two digits each, with or without a fraction of any length |
| ClockForms.CanonicalIff | core/yohu-domain/src/datetime.rs:57-61 | canonical are exactly the texts of clocks whose fields are in range |
| ClockForms.AcceptedIff | core/yohu-domain/src/datetime.rs:117-137 | a text with a date and a time is taken exactly if their fields are in range |
| Parse.HeaderReadsBack | core/yohu-logsrv/src/parse.rs:42-146 | a header printed in the long format, with or without uid, reads back as itself if and only if its ids do not begin with a word taken for a time zone |
| Parse.ReprintedReadsTheSame | core/yohu-logsrv/src/parse.rs:42-77 | whatever line a header came from, it survives printing and parsing again if and only if that holds of it |
| Parse.ZoneUidIsLost | core/yohu-logsrv/src/parse.rs:197-207 | a uid that is itself a zone token is never read back |
| Parse.OffsetUidIsLost | core/yohu-logsrv/src/parse.rs:197-207 | the uid +0800 is such a one: a line that shows the zone reads as that header, and printed without one it does not come back |
| Parse.OffsetUidHeader | core/yohu-logsrv/src/parse.rs:197-207 | for every clock there is such a header and such a line |
| Parse.ZonedReadsBack | core/yohu-logsrv/src/parse.rs:197-207 | with the zone printed behind the clock every header reads back, whatever its ids begin with |
| Parse.HeaderReturnsIff | core/yohu-logsrv/src/parse.rs:62-77 | the parser returns, and returns the header, if and only if its slice behind the last blank does not begin inside a character |
| Parse.WideBlankPanics | core/yohu-logsrv/src/parse.rs:66-68 | a line with a blank of more than one byte before the level, at which it does not return |
| Parse.PrintedHeaderReturns | core/yohu-logsrv/src/parse.rs:62-77 | from a printed header it returns |
| Parse.IdsReadBack | core/yohu-logsrv/src/parse.rs:102-146 | padded uid, process and thread read back |
| Parse.LevelTagReadsBack | core/yohu-logsrv/src/parse.rs:62-77 | level and tag come off behind the ids |
| Parse.ClockReadsBack | core/yohu-logsrv/src/parse.rs:155-166 | a canonical clock in front comes off as it is |
| Parse.ZoneDecides | core/yohu-logsrv/src/parse.rs:197-207 | behind the clock the first word alone decides whether it is skipped |
| Parse.SystemLineIff | core/yohu-logsrv/src/parse.rs:31-33 | which lines are about the log itself |
| HeaderForms.MonthDayReads | core/yohu-logsrv/src/parse.rs:168-180 | a clock that leaves out the year is one of the current year |
| HeaderForms.EpochReads | core/yohu-logsrv/src/parse.rs:182-195 | seconds since the epoch with a fraction are the wall clock at that moment, to the third digit |
| HeaderForms.PidForms | core/yohu-logsrv/src/parse.rs:122-131 | what a signed, too large or far too large process id counts as |
| HeaderForms.HexThreadReads | core/yohu-logsrv/src/parse.rs:133-146 | a thread id in hexadecimal reads as its number, and beyond 32 bits as the placeholder |
| Assembler.MessageAssembler.Ingest | core/yohu-logsrv/src/assembler.rs:29-46 | what a line of each kind does to the open record |
| Assembler.MessageAssembler.Take | core/yohu-logsrv/src/assembler.rs:48-50 | a take hands out the open record if it has a body |
| Assembler.MessageAssembler.Flush | core/yohu-logsrv/src/assembler.rs:52-69 | header and expanded, joined and trimmed body make the record |
| Assembler.HeaderSplits | core/yohu-logsrv/src/assembler.rs:34-41 | assembling splits at any header line, whatever stands before and behind it |
| Assembler.LogSplitsAtHeaders | core/yohu-logsrv/src/assembler.rs:29-46 | with the real parser every line that parses as a header is such a line |
| Assembler.SystemLineOnlyInserts | core/yohu-logsrv/src/assembler.rs:31-33 | a line about the log comes out where it stands and changes nothing else |
| Assembler.PlainNeedsNoExpansion | core/yohu-logsrv/src/stack_trace.rs:50-57 | lines without abbreviated frames need no expansion |
| Assembler.PrintedLogReadsBack | core/yohu-logsrv/src/assembler.rs:29-75 | printing records and assembling the lines of the text returns the same records |
| Assembler.PrintedLogReturns | core/yohu-logsrv/src/assembler.rs:29-46 | the header parser returns from every line of such a text |
| Assembler.CutAssembles | core/yohu-logsrv/src/assembler.rs:48-69 | of the first lines of a record, the header alone gives nothing, all of the body gives the record, and less gives it with the message trimmed at that line |
| Assembler.CutLogReadsBack | core/yohu-logsrv/src/assembler.rs:29-75 | a printed log broken off behind a line gives the records before it and that |
| Assembler.LastLineCounts | core/yohu-logsrv/src/assembler.rs:29-46 | a last line counts with or without a line break behind it |
| Batch.Aggregator.Note | core/yohu-logsrv/src/batch.rs:94-120 | a note joins what is gathered; below both limits nothing is sent, reported or tried, at a limit all that waits leaves |
| Batch.Aggregator.OnTick | core/yohu-logsrv/src/batch.rs:121-127 | a tick leaves nothing pending; with nothing pending it reports what was refused |
| Batch.Aggregator.Flush | core/yohu-logsrv/src/batch.rs:132-168 | one batch for each pending window, in any order |
| Batch.Aggregator.SendBatch | core/yohu-logsrv/src/batch.rs:147-166 | what a batch carries; a refused one is counted, behind an accepted one goes the report |
| Batch.Aggregator.EmitOverflow | core/yohu-logsrv/src/batch.rs:170-181 | an accepted report clears the counter, a refused one keeps it |
| Batch.Aggregator.End | core/yohu-logsrv/src/batch.rs:95-101 | the end of the notes leaves nothing pending |
| Batch.AggregateLoop | core/yohu-logsrv/src/batch.rs:70-130 | for any schedule and sink: batches leave at a tick, at the end and when a limit is reached, one for each window with notes waiting, carrying exactly those; what has not left is gathered; refusals are what was reported plus the counter |
| Batch.BatchIsNewest | core/yohu-logsrv/src/batch.rs:137-148 | a batch carries the counts of the last note of its window that had come, and is never empty |
| Batch.WeightIs | core/yohu-logsrv/src/batch.rs:103-103 | a note weighs the length of its row and 32, or 16 without one |
| Batch.OnTimeConserves | core/yohu-logsrv/src/batch.rs:70-130 | batches on time lose nothing: the notes of each window are those sent and those that wait, rows in order |
| Frames.FramePipe.Push | core/yohu-mirror/src/frame.rs:80-99 | what a push does to queue, configuration and counter, and nothing on a closed pipe |
| Frames.FramePipe.Pop | core/yohu-mirror/src/frame.rs:101-108 | a pending configuration first, then the queue; a pending mark without one falls through |
| Frames.FramePipe.EvictFor | core/yohu-mirror/src/frame.rs:157-186 | which frames leave a full queue |
| Frames.FramePipe.DrainReady | core/yohu-mirror/src/frame.rs:128-134 | draining takes the pending configuration and the whole queue in order |
| Frames.FramePipe.ResetContent | core/yohu-mirror/src/frame.rs:150-154 | a reset empties the pipe and keeps the drop counter |
| Frames.FramePipe.Close | core/yohu-mirror/src/frame.rs:71-74 | closing changes nothing else |
| Frames.KeyAlwaysEnters | core/yohu-mirror/src/frame.rs:162-178 | a key frame always enters, at the cost of all deltas, and of the oldest key frame only among nothing but key frames |
| Frames.DeltaSparesKeys | core/yohu-mirror/src/frame.rs:179-185 | a delta never costs a key frame; it replaces the oldest delta or does not enter |
| Frames.EveryRunConserves | core/yohu-mirror/src/frame.rs:46-108 | in every interleaving of single accesses pushes are pops plus queued plus dropped plus cleared, order is kept, the queue is bounded and free of configurations |
| Frames.DeliveredConfigIsNewest | core/yohu-mirror/src/frame.rs:101-108 | in every interleaving a caller that took the mark reads the last configuration the steps stored and did not clear since, and none if there is none |
| Frames.MarkedConfigIsNotLost | core/yohu-mirror/src/frame.rs:80-108 | once stored and marked, and until it is replaced or reset, a configuration is pending, in the hands of a caller, or delivered |
| Frames.NewestIsNeverLost | core/yohu-mirror/src/service.rs:280-318 | with one caller that pushes and resets, and any others that pop, a configuration that is pushed and neither replaced nor reset is pending, in the hands of a caller, or delivered |
| Frames.CallsComeInOrder | core/yohu-mirror/src/service.rs:280-318 | pushes and resets one after the other are such a run |
| Frames.StepsArePush | core/yohu-mirror/src/frame.rs:80-99 | the accesses of a push that nobody interrupts do what the method does |
| Frames.StepsArePop | core/yohu-mirror/src/frame.rs:101-108 | the same of a pop, and what it delivers |
| Frames.StepsAreReset | core/yohu-mirror/src/frame.rs:150-154 | the same of a reset |
| Frames.ResetLosesIff | core/yohu-mirror/src/frame.rs:150-154 | if a reset could overlap a push: a stored configuration is lost to its unmarking step if and only if nobody was between mark and read when it was stored and no later step took the mark while it was set |
| Frames.OverlappingResetUnmarks | core/yohu-mirror/src/frame.rs:150-154 | a store and a mark between the two stores of a reset, which no single caller makes, leave a configuration that is held and never delivered |
| Paths.ReadPath | core/yohu-domain/src/path.rs:51-67 | the loop over segments computes the normal form |
| Paths.ParseOutcome | core/yohu-domain/src/path.rs:50-67 | exactly the absolute paths without ".." parse, and the result is in normal form |
| Paths.NormalIsFixed | core/yohu-domain/src/path.rs:50-67 | a path in normal form parses to itself |
| Paths.TextHasSegments | core/yohu-domain/src/path.rs:111-114 | the text of a normal path spells its segments and nothing else |
| Paths.StrictlyUnderIsPrefix | core/yohu-domain/src/path.rs:74-77 | the text test is the comparison of segments, except under "/" where nothing passes |
| Paths.UnderAgreesIff | core/yohu-domain/src/path.rs:73-82 | exactly when the text tests agree with the comparison of segments |
| Paths.JoinedTakesApart | core/yohu-domain/src/path.rs:84-109 | joining a name, then parent and last segment, gives path and name back |
| Paths.RootHasNoParent | core/yohu-domain/src/path.rs:100-104 | "/" has no parent and no last segment |
| Paths.JoinedParses | core/yohu-domain/src/path.rs:91-97 | joining a segment to any directory text adds it to what the text parses to |
| Paths.JoinedBelow | core/yohu-domain/src/path.rs:91-97 | a name of any shape adds exactly its own segments, or does not parse |
| Paths.ParsedRootsAreValid | core/yohu-domain/src/safety.rs:69-75 | the roots are the parsed texts, one for each |
| Paths.CheckedIsUnderRoot | core/yohu-domain/src/safety.rs:78-95 | what passes lies under a root segment by segment, and with no root "/" everything under a root passes |
| Guard.MayBeChangedIff | core/yohu-files/src/guard.rs:42-46 | exactly which paths may be changed |
| Guard.JoinCanonical | core/yohu-files/src/guard.rs:79-91 | the missing names are checked, then joined one by one |
| Guard.WalkUp | core/yohu-files/src/guard.rs:102-131 | the text walk up is the walk over the path's segments, with at most one query for the path and one for each ancestor |
| Guard.ResolveAndRecheck | core/yohu-files/src/guard.rs:94-132 | the loop computes the resolution within the same number of queries |
| Guard.FinishMeans | core/yohu-files/src/guard.rs:79-91 | finishing succeeds exactly if no name is forbidden and the extended ancestor passes the roots |
| Guard.ResolvedMeans | core/yohu-files/src/guard.rs:94-132 | a result is the canonical form of the nearest ancestor that is not missing followed by exactly the missing names |
| Guard.ResultNeedsAncestor | core/yohu-files/src/guard.rs:115-130 | there is no result unless an ancestor resolves with everything nearer missing |
| Guard.PassedIsUnderRoot | core/yohu-files/src/guard.rs:49-59 | what passes lies under a root segment by segment, strictly where it must |
| Tree.ListTree | core/yohu-files/src/tree.rs:57-99 | a list that comes back is bounded, without repeats, parents first, no directory at the deepest level, nothing dragged or listed missing; without one there is a cause |
| Tree.GrownWithin | core/yohu-files/src/tree.rs:232-245 | in numbers: at most 4096 entries, none deeper than 24, directories less deep |
| Tree.ExpandAll | core/yohu-files/src/tree.rs:64-98 | the same for any check of paths |
| Tree.PushRoot | core/yohu-files/src/tree.rs:67-97 | a dragged path is claimed, resolved, classified and expanded |
| Tree.Expansion.PushTree | core/yohu-files/src/tree.rs:121-190 | one entry behind its parent, then everything below it |
| Tree.Expansion.PushChildren | core/yohu-files/src/tree.rs:148-188 | every listed child comes to stand in the list |
| Tree.Expansion.PushChild | core/yohu-files/src/tree.rs:151-187 | a child is claimed once and carries the listed kind and size |
| Tree.Expansion.ClaimRemote | core/yohu-files/src/tree.rs:194-196 | a path is claimed only the first time |
| Tree.Expansion.Classify | core/yohu-files/src/tree.rs:101-118 | a link's kind is that of the first entry of its name where it leads, and a link to a link is no directory |
| Tree.Expansion.ChildKind | core/yohu-files/src/tree.rs:167-173 | the listed kind, or for a link that of what it leads to |
| Tree.PassedHasName | core/yohu-files/src/tree.rs:199-206 | a path that passed has a name to show |
| Tree.ListedSpelledIff | core/yohu-files/src/tree.rs:148-188 | for every entry listed below a directory whose relative path spells its remote path: it has that property too if and only if its listed name adds one segment |
| Tree.WaySpelledIff | core/yohu-files/src/tree.rs:121-190 | however far down, the relative path of an entry is its remote path from the dragged name on if and only if every name listed on the way adds one segment |
| Tree.EntryHasWay | core/yohu-files/src/tree.rs:121-190 | every entry that comes out of an expansion has such a way down from something that was dragged |
| Tree.BackslashStrays | core/yohu-files/src/tree.rs:136-144 | a file named `a\b` adds two segments, so its relative path does not follow its remote path |
| Tree.BackslashStraysSomewhere | core/yohu-files/src/tree.rs:136-144 | for every directory that may be dragged there are answers of the device under which its expansion is the directory and such a file |
| Tree.ChildSpelledIff | core/yohu-files/src/tree.rs:242-248 | the same for the text of a joined name |
| Tree.RelativeSpellsRemote | core/yohu-files/src/tree.rs:136-144 | with single-segment names every relative path is the remote path below the dragged entry's parent |
| Pinyin.ParseDict | core/yohu-search/src/pinyin.rs:12-46 | a character has exactly the readings the lines list for it |
| Pinyin.ListsIff | core/yohu-search/src/pinyin.rs:17-28 | which lines list a character under a syllable |
| Pinyin.QueryIff | core/yohu-search/src/pinyin.rs:61-71 | which texts are queries |
| Pinyin.PrefixLen | core/yohu-search/src/pinyin.rs:77-87 | the loop computes the longest common prefix |
| Pinyin.ConsumeIsCut | core/yohu-search/src/pinyin.rs:89-117 | what the matcher finds is a cut of the needle that ends where it says |
| Pinyin.CutIsConsumed | core/yohu-search/src/pinyin.rs:89-117 | wherever the needle can be cut the matcher finds a match |
| Pinyin.ConsumeIff | core/yohu-search/src/pinyin.rs:89-117 | the matcher succeeds exactly where the needle can be cut |
| Pinyin.FindFrom | core/yohu-search/src/pinyin.rs:119-138 | the leftmost eligible start with a non-empty match, or none anywhere |
| Pinyin.FindSpan | core/yohu-search/src/pinyin.rs:141-146 | a query of letters finds a match in listed text exactly if there is one |
| Ranges.MergeSearchRanges | core/yohu-search/src/highlight.rs:8-24 | the loop that widens the last range computes the merge |
| Ranges.MergedIsCanonical | core/yohu-search/src/highlight.rs:8-24 | sorted, with a gap between neighbours, covering exactly what the non-empty ranges cover |
| Ranges.CanonicalIsUnique | core/yohu-search/src/highlight.rs:15-22 | there is only one such list for what it covers |
| Ranges.MergedDependsOnCover | core/yohu-search/src/highlight.rs:8-24 | the merge depends only on the positions covered |
| Ranges.OrderDoesNotMatter | core/yohu-search/src/highlight.rs:13-13 | the order of the ranges does not matter |
| Ranges.MergingIsIdempotent | core/yohu-search/src/highlight.rs:8-24 | merging again changes nothing |
| Highlight.FindChars | core/yohu-search/src/chars.rs:24-40 | the first occurrence from a position on, or none there |
| Highlight.Occurrences | core/yohu-search/src/highlight.rs:30-39 | the ranges are those of the occurrences taken from the left, each behind the one before; every occurrence begins inside one |
| Highlight.WhollyLitIff | core/yohu-search/src/highlight.rs:30-39 | an occurrence is lit whole by those of its needle if and only if it is one of those taken, or the one it begins inside is followed by the next at once |
| Highlight.OverlapStaysDark | core/yohu-search/src/highlight.rs:30-39 | the second of two overlapping occurrences that is not lit to its end |
| Highlight.WithReadings | core/yohu-search/src/highlight.rs:40-48 | the same for readings in pinyin, added behind |
| Highlight.TokenRanges | core/yohu-search/src/highlight.rs:26-49 | all ranges of one needle are hits, and no hit begins outside of them |
| Highlight.SearchHighlightRanges | core/yohu-search/src/highlight.rs:51-61 | merged over all needles: nothing lit but hits, and no hit begins in the dark |
| Quote.ShellQuote | core/yohu-adb/src/shell.rs:9-21 | the loop computes the quoted text |
| Quote.QuotingRoundTrip | core/yohu-adb/src/shell.rs:1-21 | quoted arguments joined by spaces come out of the shell as exactly those words if and only if none holds a NUL |

## Left out

- Processes, adb transport, sockets, downloads, file writes, windows, settings and the mapping of errors to sentences: they are inputs, arbitrary outcomes or not modelled.
- Timers: the flush interval of the batcher is an arbitrary tick; a join takes as long as its worker and is never given up.
- The idle flush of the assembler: it drops the open header, so body lines that arrive later are discarded; the round trip is about a stream that is read to its end.
- Dropped futures, poisoned locks and wrap-around of the 64-bit counters and of the 32-bit drop counter do not occur.
- SlotProtocol: warm tunnels, picture and control fields of a mirror slot, republishing and the clearing of the device buffer are not modelled; the order of the Running and Stopped events of one generation is not claimed, because a stop can finish between the last check of a start and its event.
- SlotTable.SlotBook.Publish: of the join handles stored with the phase only that of the log follower is modelled, not that of the process index beside it.
- Browse.SessionTable: slot objects are positions in a list instead of shared references; a shell is a number, what is said to it is not modelled, and the retry of a listing is left to arbitrary steps.
- Browse.ListedUnderCurrent: it is about the check that ends a listing; what the device listed before it is any result.
- Ring: texts are not interned; a record reads back as the same text with or without.
- Windows: the log filter and the signal scan are arbitrary predicates that do not look at the sequence number.
- IndexRuns: a bind that reads the ring inside an emit and enters the book behind it is a bind before or behind the push; a bind that enters inside an emit is followed to the end of that emit alone (IndexRuns.BindInsideEmitIff), not over runs.
- Follow.RunFollow: it takes the records its stream delivers; a batcher that is gone, which ends the pump, does not occur. Lines about the log itself carry no clock and are no part of a device log here.
- FollowRuns.ExactlyOnceIff: a restarted device begins at or before the last clock of the ring, or, if the ring is empty, at or before what is new; what the device itself has lost is no part of the log, and no two of its records are of one moment, process, thread, tag and text, which the code cannot tell apart (FollowRuns.ResumedStreamTakes is about any stream). A record cut off reads like none of its moment, which Pipeline.CutStandsOut derives for a log without such twins. A stream that breaks off inside a line is not modelled.
- Parse: the current year and the local wall clock of an epoch are parameters, fixed over a stream. What becomes of a worker whose parser does not return (Parse.HeaderReturnsIff) is not modelled.
- Assembler.PrintedLogReadsBack: records whose header does not read back (Parse.HeaderReadsBack), with a tag that holds a slash or margins, a message that does not end trimmed, or body lines that are headers, lines about the log or frames still to be expanded are excluded, because the printed text does not tell them apart; so are body lines from which the header parser does not return. The other lemmas on assembling are about lines from which it does.
- Tree: that the session is still current is part of the listing's answer; what resolving a path means is in Guard.
- Batch: an encoded length is a number that comes with a row.
- Highlight: texts and needles come in lower case and normalised; how a query falls into tokens is not modelled. Highlight.WhollyLitIff is about the occurrences of one needle; readings and other needles may light more.
- Ranges: the library's sort is modelled by insertion.
- Quote: what the shell does with a character outside quotes that means something to it is not modelled; the reader of words gives no words then.
- `log_filter.rs`, `path_input.rs`, session decoding and the display of clocks would only add easy members.
