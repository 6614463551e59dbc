# Verified models of OpenBurrow's protocols

OpenBurrow runs several coding agents ("lanes") that share one append-only bus log. This
project models the parts of it that are protocols, state machines or text transformations
with exact laws, and proves those laws for all inputs and all runs. It is plain Dafny 4.11:
`dafny verify dfyconfig.toml` checks it.

## What is modelled

- **LineFraming** and **RequestStream**: the daemon's control plane. A line reader over a
  byte buffer with a parked waiter, a serve loop with a frame cap, the dispatch of requests
  and the client's stream reader. Runs are arbitrary sequences of callbacks and task turns.
- **BusFeed**, **FeedMembers** and **PollLoop**: the dashboard's incremental feed (cursor,
  merge, bound) and the loop of timers, requests, backoff and visibility that drives it.
- **EventBus** and **EventDelivery**: persist-then-publish fan-out with bounded queues, as
  interleavings of commits, publishes, subscriptions and reads.
- **Negotiation** and **NegotiationRuns**: the bounded two-lane exchange against an arbitrary
  responder, and the rules its runs obey.
- **ChunkAssembler**, **ManagedBlock** and **BlockLayout**: reassembly of a terminal stream into
  lines, and the managed block of `AGENTS.md`.
- **AnsiSpans**, **AnsiStyles**, **AnsiStripping**, **LaneTrack**, **CausalChain**: the session
  reel's escape-sequence interpreter, what style sequences mean, what stripping leaves, its
  scrubbing index and its walk to a root cause.
- **BrainStore**, **BrainRecords**, **BrainOverlap** and **BrainSelection**: promotion, duplicate
  detection, corroboration and selection of durable knowledge, and calls that overlap.
- **PlanDependencies**, **PlanProposals**, **PlanOrder**, **FileWatch**: dependencies of a
  generated plan, what is kept of a proposal, when its steps can all be worked off, and change
  batches of a worktree.
- **PyText**, **Wrappers**: string operations of the host language and shared idiom.

Objects that the program updates in place are classes here; each method is proved against
a function on values, and the laws are proved about those functions, over every run. The laws
speak of fields, codes and numbers as the program has them wherever a reader would otherwise
have to trust the function that a method is proved against.

## Where the code does something else than its documentation says

Each of these is proved. Where the documented claim can hold, the condition under which it
does is proved with it, in both directions.

- `daemon/bus.py:3-11` says that a slow subscriber recovers by reading the log from its last
  seen number. It does if and only if each event queued for it was the next one of the log for
  it (`EventBus.RecoversExactly`). When its own events were published in log order, that is
  when nothing was queued for it after a drop (`EventBus.RecoveryExactly`,
  `EventBus.ADropCanBeLost`). When two emits for it overlapped and came out of order, it does not,
  although nothing was dropped (`EventBus.OutOfOrderRereads`): it can read one of them twice
  (`EventBus.OverlapInverts`). No event is lost as long as every number dropped is above the
  last one delivered (`EventBus.NothingLostExactly`).
- `brain/store.py:293-295` says that one unnamed witness does not pass the injection floor.
  0.6 is above the floor of 0.5 (`BrainStore.PassesFloorExactly`). `store.py:305` lowers an
  entry a human vouched for from 1.0 to 0.8 (`BrainStore.AgreementLowersExactly`). An entry
  whose first report had no name never reaches 0.8 unless a human vouches for it
  (`BrainStore.UnnamedNeverCorroborated`).
- `brain/agents_md.py:129-132` says that entries seeded from the file start above the floor;
  only the promoter `human` does, so they start at 0.45 like any other
  (`BrainStore.PassesFloorExactly`).
- `brain/store.py:133-137` promises duplicate detection by title and path. Titles of more
  than 200 characters and paths with space around them are stored in another form than they
  are looked for in, so they never match their own entry (`BrainStore.PromotedOnceExactly`);
  for the same reason a lane name with space around it corroborates itself
  (`BrainStore.OwnWordExactly`). Superseding a retired entry brings it back beside its
  successor (`BrainStore.SupersedeAfterRetire`). The exact condition over runs is
  `BrainStore.UniqueExactly`; for calls that overlap between reading and saving it is
  `BrainOverlap.OverlapUniqueExactly`, and a row saved late undoes what was done to it in
  between (`BrainOverlap.LateSaveUndoes`).
- `daemon/planner.py:188-189` takes the indices of the proposal for positions in the result.
  They are, if and only if no step was dropped before one that is depended on
  (`PlanDependencies.LinksRightExactly`, `PlanDependencies.DropMakesALoop`). When the plan can
  still be worked off to its end is `PlanOrder.PlanWorksOffExactly`.
- `apps/web/src/lib/reel.ts:474-475` says that `truncated` means the walk stopped at the depth
  limit rather than at a root. A cycle sets it too, and so does a chain of exactly 64 entries
  that ends at its root; a missing cause before the 64th does not (`CausalChain.TruncatedExactly`,
  `CausalChain.RootAtTheLimit`).
- `apps/web/src/lib/reel.ts:241` says that stripping removes every escape sequence. Removing
  one can put another together: exactly when an unfinished opener stands directly before it and
  what follows finishes it, both read off the text before stripping (`AnsiStripping.SequenceLeftExactly`). Escape characters that open
  no sequence are left too (`AnsiStripping.StripsEveryEscapeExactly`).
- `apps/web/src/lib/reel.ts:446` assumes that a lane's events are in order, which the bundle
  parser does not establish (`LaneTrack.SearchRightExactly`).
- `adapters/base.py:242-244` bounds the buffer "no worse than not assembling"; assembly is
  independent of the chunking if and only if the lines fit
  (`ChunkAssembler.ChunkingIndependentExactly`).
- `apps/web/src/lib/use-poll.ts:270-272` says that the cursor shown cannot disagree with what
  the fetcher has seen; it lags after a page that came for a cancelled run and held
  a higher number (`BusFeed.ShownCursor`).
- `daemon/ipc.py:247-254`: whether the `frame_too_large` reply is sent is settled by the bytes
  unless the unterminated tail is over the cap and no complete frame is; then it depends on
  whether the task ran before end of stream (`LineFraming.ReplyDeterminedExactly`).
- `docs/protocols/acp.md:94` speaks of two refusals; the driver escalates on one rejection at
  or past the threshold of turns (`Negotiation.TwoRefusalsExactly`). A rejection
  that reaches the cap leaves its lane as the one that resolved an exchange that is then
  escalated (`Negotiation.Run`), and `escalate_to_humans` changes nothing, because the record is
  already marked as escalated (`Negotiation.HumansChangeNothing`).
- `daemon/filewatch.py:266-267` tests for an empty batch that cannot occur
  (`FileWatch.CollapseKeepsSomething`).

## Model

| member | source | states |
|---|---|---|
| LineFraming.FramesDecompose | packages/openburrow-daemon/src/openburrow/daemon/ipc.py:226-232 | the frames of a byte string and its unterminated tail are newline-terminated pieces that concatenate back to it, nothing lost |
| LineFraming.FramesUnique | packages/openburrow-daemon/src/openburrow/daemon/ipc.py:226-232 | whatever frames a byte string was written from, those are the frames read back (framing round trip) |
| LineFraming.FramesAppend | packages/openburrow-daemon/src/openburrow/daemon/ipc.py:212-232 | bytes that arrive later only add frames after the ones already there |
| LineFraming.PipeConnection.Wake | packages/openburrow-daemon/src/openburrow/daemon/ipc.py:220-223 | a pending waiter is resolved, any other is left alone |
| LineFraming.PipeConnection.FeedData | packages/openburrow-daemon/src/openburrow/daemon/ipc.py:212-214 | the bytes go to the end of the buffer and the waiter is woken |
| LineFraming.PipeConnection.FeedEof | packages/openburrow-daemon/src/openburrow/daemon/ipc.py:216-218 | end of stream is recorded and the waiter woken |
| LineFraming.PipeConnection.CloseConnection | packages/openburrow-daemon/src/openburrow/daemon/ipc.py:277-279 | the connection is closed and the waiter woken |
| LineFraming.PipeConnection.ReadSegment | packages/openburrow-daemon/src/openburrow/daemon/ipc.py:226-262 | one segment of `readline`: it suspends exactly when there is no frame, no end of stream, no close and no overflow; otherwise it returns the line and leaves the rest that the value-level reader prescribes |
| LineFraming.ServeTask.ServeTurn | packages/openburrow-daemon/src/openburrow/daemon/ipc.py:531-555 | one turn of the serve loop takes the session to the state of the value-level machine: dispatch, disconnect or refusal of an oversized line |
| LineFraming.ServeTask.Handle | packages/openburrow-daemon/src/openburrow/daemon/ipc.py:212-223 | every callback and every turn of the task is the corresponding step of the machine |
| LineFraming.Drive | packages/openburrow-daemon/src/openburrow/daemon/ipc.py:531-555 | a connection driven by any schedule ends in the state of that run, with only complete frames before the first oversized one dispatched |
| LineFraming.RunInvariant | packages/openburrow-daemon/src/openburrow/daemon/ipc.py:256-262 | in every run a pending waiter implies no complete frame, no end of stream, no close and a buffer within the cap (no lost wakeup), and the bytes received are accounted for by what was dispatched and what is buffered |
| LineFraming.DispatchedIsPrefix | packages/openburrow-daemon/src/openburrow/daemon/ipc.py:531-549 | in every run what was dispatched is a prefix of the frames before the first oversized one |
| LineFraming.DispatchedExactly | packages/openburrow-daemon/src/openburrow/daemon/ipc.py:531-549 | once the task is parked or finished, what was dispatched is exactly the complete frames before the first oversized one; an unterminated tail never is |
| LineFraming.ChunkingIndependent | packages/openburrow-daemon/src/openburrow/daemon/ipc.py:212-262 | two runs that delivered the same bytes, however split and scheduled, dispatched the same requests |
| LineFraming.EventuallyDispatched | packages/openburrow-daemon/src/openburrow/daemon/ipc.py:226-262 | a bounded number of turns dispatches everything complete that has arrived (liveness) |
| LineFraming.EofEnds | packages/openburrow-daemon/src/openburrow/daemon/ipc.py:234-242 | after end of stream the serve loop never parks again |
| LineFraming.TooLargeExactly | packages/openburrow-daemon/src/openburrow/daemon/ipc.py:247-254 | an oversized frame always gives the `frame_too_large` reply, and nothing else does unless the unterminated tail is over the cap |
| LineFraming.RefusedRun | packages/openburrow-daemon/src/openburrow/daemon/ipc.py:247-254 | for every byte string whose tail is over the cap there is a run, with the task ahead of end of stream, that gives the reply |
| LineFraming.UnrefusedRun | packages/openburrow-daemon/src/openburrow/daemon/ipc.py:234-242 | for every byte string without an oversized frame there is a run, with end of stream ahead of the task, that does not give it |
| LineFraming.ReplyDeterminedExactly | packages/openburrow-daemon/src/openburrow/daemon/ipc.py:226-262 | for all bytes, the runs that received them and then end of stream agree on the reply if and only if some complete frame is over the cap or the unterminated tail is not |
| RequestStream.Dispatcher.DispatchLine | packages/openburrow-daemon/src/openburrow/daemon/ipc.py:557-615 | one frame adds its replies to what is written; only one the dispatcher fails on, not text or not an object, ends the connection |
| RequestStream.Dispatcher.StreamChunks | packages/openburrow-daemon/src/openburrow/daemon/ipc.py:590-594 | a streaming handler's chunks go out in order, each marked `more` |
| RequestStream.Dispatcher.ServeFrames | packages/openburrow-daemon/src/openburrow/daemon/ipc.py:531-549 | the frames of a connection are answered in order up to the one that ends it |
| RequestStream.Stream | packages/openburrow-daemon/src/openburrow/daemon/ipc.py:641-666 | the client's loop yields, raises and stops as the recursive reading of the replies does |
| RequestStream.ClientSeesHandler | packages/openburrow-daemon/src/openburrow/daemon/ipc.py:557-666 | server and client composed, whatever follows on the connection: exactly this request's replies are read, the handler's non-null chunks come out in order, and an error is raised if and only if the handler raised |
| RequestStream.RepliesAreABlock | packages/openburrow-daemon/src/openburrow/daemon/ipc.py:557-625 | every frame that does not end the connection is answered by replies with the request's id (the empty one for invalid JSON), all but the last marked `more` |
| RequestStream.BlocksMatchRequests | packages/openburrow-daemon/src/openburrow/daemon/ipc.py:557-625 | cutting the one reply stream after its unmarked replies gives back the replies to each request, in order |
| RequestStream.TurnAdds | packages/openburrow-daemon/src/openburrow/daemon/ipc.py:534-549 | one turn of the serve loop writes the replies to the frame it dispatched, the refusal of an oversized line, or nothing |
| RequestStream.WroteExactly | packages/openburrow-daemon/src/openburrow/daemon/ipc.py:531-549 | for every chunking and schedule, a connection at rest has written the replies to the frames before the first oversized one, up to the one that ends it, and then the refusal if the loop ended with one |
| RequestStream.WritesDeterminedExactly | packages/openburrow-daemon/src/openburrow/daemon/ipc.py:531-555 | what the client gets is settled by the bytes it sent if and only if some complete frame is over the cap, the unterminated tail is not, or a frame ended the connection before |
| BusFeed.FeedRefs.Accept | apps/web/src/lib/use-poll.ts:233-262 | one page moves the cursor and the feed exactly as the value-level step does |
| BusFeed.TopKAbsorbs | apps/web/src/lib/use-poll.ts:247-258 | keeping the highest `k` numbers of a set and then adding others loses nothing that the highest `k` of everything would have |
| BusFeed.TrimmedStays | apps/web/src/lib/use-poll.ts:255-258 | a number outside the highest `k` stays outside whatever is added |
| BusFeed.SortSorts | apps/web/src/lib/use-poll.ts:254 | the sort of the merge orders by number |
| BusFeed.SortPermutes | apps/web/src/lib/use-poll.ts:254 | the sort of the merge loses and adds nothing |
| BusFeed.PageKeepsTop | apps/web/src/lib/use-poll.ts:250-259 | one page with distinct numbers keeps the feed equal to the top `limit` of everything received |
| BusFeed.FeedIsTop | apps/web/src/lib/use-poll.ts:233-262 | after any sequence of pages, each with distinct numbers but overlapping or replaying others in any order, the feed is strictly ascending and is exactly the `limit` highest-numbered events ever received |
| BusFeed.NeverReturns | apps/web/src/lib/use-poll.ts:255-258 | an event once trimmed never comes back |
| BusFeed.FeedCursor | apps/web/src/lib/use-poll.ts:238-258 | the highest number of the fetcher's feed is its cursor if and only if `limit` is at least 1 or nothing was received |
| BusFeed.DisplayedCursor | apps/web/src/lib/use-poll.ts:264-273 | the cursor shown is the fetcher's cursor at the last page that was put on display, if `limit` is at least 1 |
| BusFeed.ShownCursor | apps/web/src/lib/use-poll.ts:266-273 | the cursor shown equals the fetcher's if and only if no page after the last heard one holds a number above all those that came before it; with a limit below 1, if and only if no page holds a number above zero |
| BusFeed.DuplicateInsidePage | apps/web/src/lib/use-poll.ts:247-254 | without distinct numbers inside a page the feed shows an event twice |
| BusFeed.RunsHaveNoHoles | apps/web/src/lib/use-poll.ts:235-258 | in every interleaving of appends to the log, requests, late answers and losses, what was received is exactly the log up to the cursor |
| BusFeed.FeedIsLogWindow | apps/web/src/lib/use-poll.ts:233-262 | in every such run the feed is exactly the last `limit` log entries at or below the cursor |
| BusFeed.CursorNeverRewinds | apps/web/src/lib/use-poll.ts:238-245 | no step, an answer that comes late included, moves the cursor back |
| BusFeed.PollMakesProgress | apps/web/src/lib/api.ts:256-270 | an answer to a fresh request with at least one event moves the cursor to the last event answered: a lost tick is made up for |
| BusFeed.QueriesAreSlices | packages/openburrow-core/src/openburrow/core/db/repository.py:680-699 | the tail query on an ascending log is the part of the log after what is at or below the cursor |
| FeedMembers.FeedMembers | apps/web/src/lib/use-poll.ts:247-258 | after any pages the feed holds an event if and only if fewer than `limit` of the numbers that came are higher than its own, each once and ascending |
| FeedMembers.FeedKeepsTheFirst | apps/web/src/lib/use-poll.ts:247-249 | every event of the feed is the one of the first page that had its number |
| FeedMembers.FeedIsLogSlice | apps/web/src/lib/use-poll.ts:233-262 | in every interleaving the feed is the slice of the log that ends where the log passes the cursor and is `limit` long, or begins with the log |
| PollLoop.BackoffDoubles | apps/web/src/lib/use-poll.ts:174-176 | doubling and capping the last delay is the closed form for one more failure |
| PollLoop.BackoffInRange | apps/web/src/lib/use-poll.ts:57 | the delay stays within its bounds after any number of failures if and only if the bounds are in order |
| PollLoop.Poll.Schedule | apps/web/src/lib/use-poll.ts:106-109 | the timer set before is cleared and one is set, for the given run and delay |
| PollLoop.Poll.Send | apps/web/src/lib/use-poll.ts:121-128 | the request sent before is told to abort and one is sent |
| PollLoop.Poll.Tick | apps/web/src/lib/use-poll.ts:111-128 | the state after a timer fires is that of the value-level callback |
| PollLoop.Poll.Settle | apps/web/src/lib/use-poll.ts:128-187 | the state after a request settles is that of the value-level callback, for each of the four ways |
| PollLoop.Poll.OnVisibility | apps/web/src/lib/use-poll.ts:189-195 | the state after a change of visibility is that of the value-level callback |
| PollLoop.Poll.Refresh | apps/web/src/lib/use-poll.ts:89-92 | a refresh resets the backoff and nothing else |
| PollLoop.Poll.Cleanup | apps/web/src/lib/use-poll.ts:203-208 | cleanup cancels the run, clears the timer and aborts the request |
| PollLoop.Poll.RunEffect | apps/web/src/lib/use-poll.ts:101-208 | a new run of the effect is the cleanup of the old one and, when enabled, one timer of its own |
| PollLoop.Poll.Unmount | apps/web/src/lib/use-poll.ts:94-101 | unmounting is cleanup for good |
| PollLoop.Poll.Handle | apps/web/src/lib/use-poll.ts:101-208 | every callback is the corresponding step, and one that has nothing to call is none |
| PollLoop.Poll.Drive | apps/web/src/lib/use-poll.ts:57-208 | a run of callbacks ends in the state of its history |
| PollLoop.FiredIsSound | apps/web/src/lib/use-poll.ts:111-128 | a timer that fires belongs to the run that is on; a hidden tab is left with the next timer and nothing sent, a visible one with one live request and no timer |
| PollLoop.NeverOverlaps | apps/web/src/lib/use-poll.ts:29-30 | in every run there is at most one pending timer and at most one live request, and none without an active run of the effect |
| PollLoop.BackoffIsCounted | apps/web/src/lib/use-poll.ts:174-176 | in every run the backoff is the closed form for the number of retryable failures heard of since the last success, return to the tab or refresh, counted from the history |
| PollLoop.RetryDelay | apps/web/src/lib/use-poll.ts:174-176 | a retryable failure sets one timer, with the delay for the failures before it |
| PollLoop.PendingIsTold | apps/web/src/lib/use-poll.ts:111-195 | over every history: a timer is pending, and for which delay, told from the callbacks: none for a run of the effect or a return to the tab, the interval after a success or a hidden tick, the counted backoff after a retryable failure; and a request is in flight if and only if a timer fired in sight sent one that has neither settled nor been told to abort |
| PollLoop.OnlyFatalStops | apps/web/src/lib/use-poll.ts:111-187 | a callback that leaves an active loop with neither timer nor live request found it so, or is a failure that is not retried, heard by the run that is on |
| PollLoop.NeverStalls | apps/web/src/lib/use-poll.ts:163-171 | in every run an active loop has a timer or a live request, unless such a failure stopped the run that is on and no callback since has set a timer |
| Negotiation.Clamp | packages/openburrow-acp/src/openburrow/acp/negotiation.py:93-94 | limits below one become one, a threshold past the cap becomes the cap, and any others are taken as given |
| Negotiation.Exchange.AddMove | packages/openburrow-core/src/openburrow/core/models/message.py:261-286 | a recorded move is appended; an acceptance, or a rejection that reaches the cap, resolves the record |
| Negotiation.Run | packages/openburrow-acp/src/openburrow/acp/negotiation.py:97-276 | against any responder the driver reports the transcript, messages, outcome, flags, broadcasts and resolver of the value-level run |
| Negotiation.Turn | packages/openburrow-acp/src/openburrow/acp/negotiation.py:199-271 | one turn of the loop either concludes the run or extends it by one move and its message |
| Negotiation.TakeReply | packages/openburrow-acp/src/openburrow/acp/negotiation.py:200-243 | a reply is recorded and delivered exactly when it is a legal answer |
| Negotiation.Conclude | packages/openburrow-acp/src/openburrow/acp/negotiation.py:245-268 | after a recorded move the run ends exactly when the ending rule says so, with that ending |
| Negotiation.EscalateAndFinish | packages/openburrow-acp/src/openburrow/acp/negotiation.py:170-196 | an escalation is recorded and sent to everyone once when there is an escalator, and not otherwise |
| Negotiation.Finish | packages/openburrow-acp/src/openburrow/acp/negotiation.py:279-302 | the report of a finished exchange, and when it marks the record as escalated |
| Negotiation.HumansChangeNothing | packages/openburrow-acp/src/openburrow/acp/negotiation.py:287-288 | whether humans are to be escalated to changes nothing that a run reports |
| Negotiation.SpeakerByParity | packages/openburrow-acp/src/openburrow/acp/negotiation.py:165-167 | lane A has the even turns, lane B the odd ones |
| Negotiation.DriveIsPossible | packages/openburrow-acp/src/openburrow/acp/negotiation.py:199-276 | whatever the responder does, the transcript is well formed, within the cap, open at every prefix before the end, and its ending is justified |
| Negotiation.ScriptPlays | packages/openburrow-acp/src/openburrow/acp/negotiation.py:199-276 | every such transcript and ending is produced by some responder |
| Negotiation.TranscriptsExactly | packages/openburrow-acp/src/openburrow/acp/negotiation.py:144-276 | the transcripts and endings the driver can produce are exactly those: opening proposal by lane A, strict alternation, legal answers, no reason to stop before the end |
| Negotiation.HowItEnds | packages/openburrow-acp/src/openburrow/acp/negotiation.py:245-276 | a run is agreed if and only if its last move accepts and abandoned if and only if it withdraws; those moves occur nowhere else, and an acceptance answers the other lane's proposal or counter |
| Negotiation.NoRepetition | packages/openburrow-acp/src/openburrow/acp/negotiation.py:266-268 | no proper prefix of a transcript at or past the threshold repeats its last two moves or ends in a rejection |
| Negotiation.OneRefusalIsPossible | packages/openburrow-acp/src/openburrow/acp/negotiation.py:263-264 | a proposal, counters and one rejection at the threshold is a transcript that escalates |
| Negotiation.TwoRefusalsExactly | packages/openburrow-acp/src/openburrow/acp/negotiation.py:263-264 | an escalation for a late rejection takes two rejections, whatever the responder, if and only if the cap leaves room for no reply at all |
| NegotiationRuns.RunsExactly | packages/openburrow-acp/src/openburrow/acp/negotiation.py:144-276 | a transcript and an ending are the driver's if and only if they obey the protocol's rules, written out: each move is the responder's reply and a legal answer to the one before, no proper prefix gives a reason to stop, and the ending is what the last move, the threshold, the cap and the last reply ask for |
| NegotiationRuns.ReportsExactly | packages/openburrow-acp/src/openburrow/acp/negotiation.py:97-302 | what a run reports obeys those rules, with its messages from lane to lane, the blocking ones the proposals and counters, and every field of the report read off the last move |
| NegotiationRuns.StuckExactly | packages/openburrow-acp/src/openburrow/acp/negotiation.py:304-318 | a run is called stuck if and only if, at or past the threshold, its last two moves repeat the two before them in performative and in words |
| NegotiationRuns.AnswersAreReplies | packages/openburrow-core/src/openburrow/core/models/enums.py:101-114 | which performative may answer which, row by row |
| EventBus.PersistedFirst | packages/openburrow-daemon/src/openburrow/daemon/bus.py:128-182 | in every interleaving of commits, publishes, subscriptions and reads, whatever a subscriber holds or has taken is already in the log |
| EventBus.Ledger | packages/openburrow-daemon/src/openburrow/daemon/bus.py:42-60 | for every subscription of every run: matching events published while registered = taken + queued + dropped, the queue is within its bound, what was delivered is a subsequence of them in order, and it is all of them if and only if nothing was dropped |
| EventBus.SlowReadersStallNobody | packages/openburrow-daemon/src/openburrow/daemon/bus.py:111-126 | striking out everything other readers did (reading or not, leaving) changes neither the log, nor the emits in flight, nor this subscription |
| EventBus.LogOrderExactly | packages/openburrow-daemon/src/openburrow/daemon/bus.py:160-181 | events are fanned out in log order if and only if every publish is of the oldest emit in flight |
| EventBus.OverlapInverts | packages/openburrow-daemon/src/openburrow/daemon/bus.py:160-181 | two overlapping emits can reach a reader against the order of the log, with nothing dropped, and it then reads one of them again |
| EventBus.PublishedSplits | packages/openburrow-daemon/src/openburrow/daemon/bus.py:74-98 | what was published is what came before the subscription, what came while it was registered, and what came after |
| EventBus.MissedOnlyTheEnd | packages/openburrow-daemon/src/openburrow/daemon/bus.py:111-125 | what a subscription got is a prefix of what it should have got if and only if nothing was queued for it after a drop |
| EventBus.CatchUpExactly | packages/openburrow-core/src/openburrow/core/db/repository.py:680-699 | reading on in the log from the last number delivered gives the window of the log whole if and only if what was delivered is a prefix of it |
| EventBus.RecoversExactly | packages/openburrow-daemon/src/openburrow/daemon/bus.py:3-11 | in every history, a subscriber gets all that the log holds for it, once and in order, by reading on from its last seen number, if and only if each event queued for it was the next one of the log for it |
| EventBus.CommitOrderIsEnough | packages/openburrow-daemon/src/openburrow/daemon/bus.py:160-181 | emits published oldest first are in order for every subscriber |
| EventBus.OutOfOrderRereads | packages/openburrow-daemon/src/openburrow/daemon/bus.py:160-181 | a registered subscriber with nothing dropped recovers if and only if its own events were published in order |
| EventBus.DeliveredOrDropped | packages/openburrow-daemon/src/openburrow/daemon/bus.py:111-125 | in every history each event wanted was delivered or dropped, once, and the drop counter counts the dropped ones |
| EventBus.NothingLostExactly | packages/openburrow-daemon/src/openburrow/daemon/bus.py:9-11 | in every history, in order or not, every event wanted was delivered or is found by reading on, if and only if every number dropped is above the last one delivered |
| EventBus.RecoveryExactly | packages/openburrow-daemon/src/openburrow/daemon/bus.py:3-11 | a subscriber whose own events were published in log order, whatever other emits did, recovers if and only if nothing was queued for it after a drop |
| EventBus.ADropCanBeLost | packages/openburrow-daemon/src/openburrow/daemon/bus.py:111-125 | a run of emits that do not overlap in which a dropped event is never found again that way |
| EventBus.Subscription.Put | packages/openburrow-daemon/src/openburrow/daemon/bus.py:115-119 | an event goes to the end of the queue, or the drop counter goes up when the queue is full |
| EventBus.Subscription.Deliver | packages/openburrow-daemon/src/openburrow/daemon/bus.py:112-125 | an event the filter does not accept leaves the subscription alone, any other is put |
| EventBus.Subscription.Get | packages/openburrow-daemon/src/openburrow/daemon/bus.py:197-208 | the oldest queued event is handed over |
| EventBus.EventBus.Subscribe | packages/openburrow-daemon/src/openburrow/daemon/bus.py:74-95 | a subscription gets a number of its own and an empty queue; the bus takes the subscribe step |
| EventBus.EventBus.Unsubscribe | packages/openburrow-daemon/src/openburrow/daemon/bus.py:97-98 | the bus takes the unsubscribe step |
| EventBus.EventBus.FanOut | packages/openburrow-daemon/src/openburrow/daemon/bus.py:111-126 | every registered subscription is offered the event, no other changes, and the number returned counts those that took it |
| EventBus.EventBus.Publish | packages/openburrow-daemon/src/openburrow/daemon/bus.py:105-126 | the bus takes the publish step of one emit in flight |
| EventBus.EventBus.Append | packages/openburrow-daemon/src/openburrow/daemon/bus.py:145-160 | the bus takes the commit step |
| EventBus.EventBus.Listen | packages/openburrow-daemon/src/openburrow/daemon/bus.py:185-210 | the bus takes the read step, and an event that is handed over is in the log |
| EventDelivery.DeliveredExactly | packages/openburrow-daemon/src/openburrow/daemon/bus.py:42-60 | in every history an event published while a subscription was registered is delivered to it or dropped, once, if its session and its type fit the fields of the filter, and neither if they do not |
| EventDelivery.NothingElseIsDelivered | packages/openburrow-daemon/src/openburrow/daemon/bus.py:55-60 | a reader that asked for a session is given nothing of another one, and one that asked for types nothing of another type |
| EventDelivery.PublishExactly | packages/openburrow-daemon/src/openburrow/daemon/bus.py:111-125 | one publish queues the event behind the others where it fits and there is room, counts it as dropped where it fits and there is none, and leaves every other subscription as it is |
| EventDelivery.ReturnsTheReached | packages/openburrow-daemon/src/openburrow/daemon/bus.py:105-126 | the number a publish returns is that of the registered subscriptions the event fits and that have room |
| EventDelivery.SubscribersAreTold | packages/openburrow-daemon/src/openburrow/daemon/bus.py:65-98 | which subscriptions there are, with which filter and bound, and which are still registered, is told by the steps of the run |
| EventDelivery.UnboundedDropsNothing | packages/openburrow-daemon/src/openburrow/daemon/bus.py:74-88 | a subscription without a bound never drops anything |
| ChunkAssembler.Assembler.Feed | packages/openburrow-adapters/src/openburrow/adapters/base.py:254-270 | a read releases the complete non-blank lines of buffer and text, keeps the rest, and leaves a buffer within the bound |
| ChunkAssembler.Assembler.Flush | packages/openburrow-adapters/src/openburrow/adapters/base.py:272-277 | the end of the stream releases a remainder that is not blank |
| ChunkAssembler.ReadStream | packages/openburrow-adapters/src/openburrow/adapters/base.py:795-804 | the reader loop releases what the fold over the reads does |
| ChunkAssembler.FittingStream | packages/openburrow-adapters/src/openburrow/adapters/base.py:254-277 | every chunking of a stream whose lines fit gives the non-blank lines of the stream |
| ChunkAssembler.OverflowShows | packages/openburrow-adapters/src/openburrow/adapters/base.py:267-269 | a stream with a line that does not fit is not read correctly in single characters |
| ChunkAssembler.ChunkingIndependentExactly | packages/openburrow-adapters/src/openburrow/adapters/base.py:254-277 | every chunking gives the non-blank lines if and only if each line is at most the bound, or one longer and not blank |
| ChunkAssembler.OnlyBlanksLost | packages/openburrow-adapters/src/openburrow/adapters/base.py:261-277 | in line mode, for every bound and chunking, overflow included, the units are contiguous pieces of the stream's lines, none with a line break in it, in order; each ends where its line or the buffer ends, and what lies between them are whole blank segments with their line breaks |
| ChunkAssembler.RawKeepsReads | packages/openburrow-adapters/src/openburrow/adapters/base.py:258-259 | in the other mode the units are the reads that are not empty, and concatenate to the stream |
| ManagedBlock.MarkersAreProper | packages/openburrow-brain/src/openburrow/brain/agents_md.py:37-38 | the two markers and the notice open with a character they do not repeat, contain no line break and differ, which is all the laws need |
| ManagedBlock.SortedSorts | packages/openburrow-brain/src/openburrow/brain/agents_md.py:144 | the rendered order is a permutation of the entries, ordered by kind and title |
| ManagedBlock.RenderBlock | packages/openburrow-brain/src/openburrow/brain/agents_md.py:141-148 | the lines joined are the two markers around the notice and the sorted bullets |
| ManagedBlock.Find | packages/openburrow-brain/src/openburrow/brain/agents_md.py:159-160 | the first occurrence of a marker, or none anywhere |
| ManagedBlock.SecondSplice | packages/openburrow-brain/src/openburrow/brain/agents_md.py:158-170 | a second sync of a well-marked file keeps the text around the block and what the first block had after its own first end marker |
| ManagedBlock.CleanExactly | packages/openburrow-core/src/openburrow/core/models/knowledge.py:122-133 | a rendered block hides no end marker if and only if no rendered entry contains one |
| ManagedBlock.SecondSyncExactly | packages/openburrow-brain/src/openburrow/brain/agents_md.py:151-170 | syncing twice leaves what the second sync alone would have left if and only if the file was well marked (first end after first begin, or neither) and no first entry renders to the end marker |
| ManagedBlock.LoneBegin | packages/openburrow-brain/src/openburrow/brain/agents_md.py:162-170 | a begin marker without an end marker: the second sync takes everything from it to the appended block |
| ManagedBlock.StrayEnd | packages/openburrow-brain/src/openburrow/brain/agents_md.py:162-170 | an end marker that comes first, or alone: every sync appends another block |
| ManagedBlock.OutsidePreserved | packages/openburrow-brain/src/openburrow/brain/agents_md.py:151-170 | text before the first begin and after the first end marker of a well-marked file, or the whole of a file without markers, survives character for character; in the latter the block comes after a blank line |
| ManagedBlock.LastSyncWins | packages/openburrow-brain/src/openburrow/brain/agents_md.py:151-170 | any number of clean syncs of a well-marked file amounts to the last one |
| BlockLayout.BlockStandsAlone | packages/openburrow-brain/src/openburrow/brain/agents_md.py:151-170 | in a file without a begin marker the block is put at the end, the text before it is the person's with at most a blank line added and ends in one, and one line break comes after it; in a file without text the block stands first |
| BlockLayout.BlockIsLines | packages/openburrow-brain/src/openburrow/brain/agents_md.py:141-148 | the block is the markers around the notice and one bullet for each entry, each followed by an empty line |
| BlockLayout.BulletSays | packages/openburrow-core/src/openburrow/core/models/knowledge.py:122-133 | a bullet is the kind, the path if there is one, the title and the body, in that order, without the white space at the end |
| BlockLayout.SortedByName | packages/openburrow-brain/src/openburrow/brain/agents_md.py:144 | the bullets come in the order of the names of their kinds and, within one kind, of their titles, each entry once |
| AnsiSpans.CsiLength | apps/web/src/lib/reel.ts:238 | a control sequence is at least three characters and ends within the text |
| AnsiSpans.OscLength | apps/web/src/lib/reel.ts:239 | an operating system command ends within the text |
| AnsiSpans.CsiExactly | apps/web/src/lib/reel.ts:238 | a control sequence of that length is found if and only if that prefix is one, character by character |
| AnsiSpans.OscExactly | apps/web/src/lib/reel.ts:239 | the same for an operating system command |
| AnsiSpans.TokensCoverText | apps/web/src/lib/reel.ts:326-341 | every character of the text belongs to one character token or one sequence |
| AnsiSpans.Pen.ApplySgr | apps/web/src/lib/reel.ts:346-397 | the loop over the parameters changes the style object as the recursive meaning of the parameters does |
| AnsiSpans.Pen.Turn | apps/web/src/lib/reel.ts:349-392 | one turn of that loop takes an extended colour with all its parameters, and anything else alone |
| AnsiSpans.SequencesSplitExactly | apps/web/src/lib/reel.ts:346-397 | one sequence with two parameter lists does what two sequences do, for every style and second list, if and only if the first list does not cut an extended colour short |
| AnsiSpans.CubeColour | apps/web/src/lib/reel.ts:269-275 | every triple of steps of the colour cube is found at its index |
| AnsiSpans.SgrSpans | apps/web/src/lib/reel.ts:304-344 | for every input the spans, read character by character, are the meaning of the text: each character in the style left by the sequences before it, a marker for every other sequence; their texts concatenate to `stripAnsi(input)`, and no span is empty |
| AnsiSpans.Sequence | apps/web/src/lib/reel.ts:328-340 | one turn of the scanning loop: the text before the sequence, then the sequence |
| AnsiSpans.Obey | apps/web/src/lib/reel.ts:332-338 | a style sequence changes the style only; any other leaves one marker |
| AnsiSpans.InterpretSplits | apps/web/src/lib/reel.ts:326-341 | the style of a character is the left fold of the style sequences before it |
| AnsiSpans.SpansSpellStripped | apps/web/src/lib/reel.ts:242-244 | spans that show the meaning of the text spell the stripped text and mark each non-style sequence once, in order |
| AnsiSpans.StrippingMayLeaveASequence | apps/web/src/lib/reel.ts:241-244 | an input whose stripped text still contains a control sequence |
| AnsiStyles.AppliesLastWriter | apps/web/src/lib/reel.ts:346-397 | after a whole list of parameters, colour, background, bold, dim, italic and underline are each what the last group that speaks of it says, by its codes, and what they were if none does |
| AnsiStyles.ShownLastWriter | apps/web/src/lib/reel.ts:326-341 | the same over all the style sequences of a text: a character is shown with what was last said of each attribute before it, in whichever sequence |
| AnsiStyles.PaletteStartsAlike | apps/web/src/lib/reel.ts:262-263 | the first sixteen colours of the palette are those that single parameters name |
| AnsiStyles.Greys | apps/web/src/lib/reel.ts:264-268 | the last colours of the palette are greys in steps of ten |
| AnsiStyles.CodesReadBack | apps/web/src/lib/reel.ts:346-347 | numbers written with semicolons between them are read back, one parameter each |
| AnsiStyles.NumbersAreDigits | apps/web/src/lib/reel.ts:347 | a part is a number if and only if it has nothing but digits; the empty part is zero |
| AnsiStripping.LengthIsEnd | apps/web/src/lib/reel.ts:238-239 | each regular expression matches at an escape character if and only if the text after it, read one character at a time, finishes an unfinished opener, and the match ends there |
| AnsiStripping.OutIs | apps/web/src/lib/reel.ts:241-244 | what a pass leaves, read off the input: at each character that earlier removals leave, the pass either removes a sequence and goes on after it or keeps the character |
| AnsiStripping.FinishesIs | apps/web/src/lib/reel.ts:241-244 | what a pass leaves finishes an opener if and only if a scan of the input that passes over the removed sequences does |
| AnsiStripping.ReadsAfter | apps/web/src/lib/reel.ts:241-244 | at a character that a pass keeps, a sequence is read after the pass if and only if the input finishes an opener from there, straight on or over a removed sequence |
| AnsiStripping.OwnKindLeft | apps/web/src/lib/reel.ts:241-244 | a pass leaves a sequence of its own kind if and only if, on the input, an unfinished opener stands directly before a removed sequence and what follows that finishes it |
| AnsiStripping.CommandsLeft | apps/web/src/lib/reel.ts:241-244 | the second pass leaves the operating system commands it finds and those it puts together, and no others |
| AnsiStripping.SequenceLeftExactly | apps/web/src/lib/reel.ts:241-244 | stripping leaves an escape sequence if and only if, in one of the passes over the input, an unfinished opener stands directly before a removed sequence and what follows that finishes it |
| AnsiStripping.StripsOnceExactly | apps/web/src/lib/reel.ts:241-244 | stripping twice is stripping once if and only if that is not so |
| AnsiStripping.StripsEveryEscapeExactly | apps/web/src/lib/reel.ts:241-244 | stripping leaves no escape character, of a sequence or not, if and only if every one that the first pass keeps opens a sequence that the second removes |
| LaneTrack.BuildLaneTrack | apps/web/src/lib/reel.ts:422-434 | the track holds the joined output, the end of each event in it and the times |
| LaneTrack.SearchRightExactly | apps/web/src/lib/reel.ts:446-458 | the binary search finds exactly the events up to every moment if and only if the times are in order |
| LaneTrack.FindEvent | apps/web/src/lib/reel.ts:446-458 | the loop is the recursive search |
| LaneTrack.TextAt | apps/web/src/lib/reel.ts:440-465 | on a lane in order, the last 60000 characters of everything with a time up to `t`, clipped if and only if there is more; on any lane, the same of what the search found |
| LaneTrack.JoinedExtends | apps/web/src/lib/reel.ts:423 | the output up to an event is a prefix of the joined output |
| CausalChain.IndexLooksUp | apps/web/src/lib/reel.ts:499 | the index holds the last entry with each id |
| CausalChain.WalkBack | apps/web/src/lib/reel.ts:506-527 | for any timeline, cyclic or dangling, the loop ends with the one walk back that follows the links, repeats no entry and stops only at an end, a repeat or 64 entries |
| CausalChain.CausalChain | apps/web/src/lib/reel.ts:495-530 | the chain is that walk turned round; truncated if and only if it has 64 entries or met a repeat; dangling names the missing cause if and only if that is why it stopped |
| CausalChain.WalkIsUnique | apps/web/src/lib/reel.ts:506-527 | there is only one such walk |
| CausalChain.TruncatedExactly | apps/web/src/lib/reel.ts:474-475 | truncated is set if and only if following the links back from the entry does not end, at a root or at a missing cause, in fewer than 64 entries |
| CausalChain.RootAtTheLimit | apps/web/src/lib/reel.ts:515-519 | a chain of 64 entries that ends at its root is reported with truncated set and nothing dangling |
| CausalChain.WalkFollows | apps/web/src/lib/reel.ts:495-530 | the walk begins at the entry asked about, each entry after it is the cause that the one before names and the last of the timeline with its id, and there are at most 64 |
| CausalChain.DanglingExactly | apps/web/src/lib/reel.ts:495-530 | a cause is reported dangling if and only if the links come to it in fewer than 64 entries and no entry has that id |
| BrainStore.StoredTitleFitsExactly | packages/openburrow-core/src/openburrow/core/models/knowledge.py:81-87 | for every case-folding table in which no character vanishes, a stored title folds to what the title it was made from folds to if and only if that has at most 200 characters without the space around it |
| BrainStore.StableExactly | packages/openburrow-brain/src/openburrow/brain/store.py:263-273 | a candidate is looked for under the key it would be kept under if and only if its title fits and its path has no space around it |
| BrainStore.PromoteKeepsUnique | packages/openburrow-brain/src/openburrow/brain/store.py:130-158 | promoting such a candidate keeps the live keys unique |
| BrainStore.SupersedeExactly | packages/openburrow-brain/src/openburrow/brain/store.py:182-192 | superseding keeps the live keys unique if and only if the entry is not a retired one whose key has been taken since |
| BrainStore.UniqueExactly | packages/openburrow-brain/src/openburrow/brain/store.py:130-198 | over every run of promote, confirm, supersede and retire there is at all times at most one entry that is not retired per normalised title and path, if and only if every promotion that makes an entry finds its key free and no supersession revives an entry whose key has been taken |
| BrainStore.OneEntryPerKey | packages/openburrow-brain/src/openburrow/brain/store.py:130-198 | in particular when the titles fit, no path has space around it and no supersession revives an entry |
| BrainStore.UnstableTwice | packages/openburrow-brain/src/openburrow/brain/store.py:139-158 | a title of more than 200 characters, or a path with space around it, promoted twice makes two entries of one key |
| BrainStore.SupersedeAfterRetire | packages/openburrow-brain/src/openburrow/brain/store.py:182-198 | promote, retire, promote and supersede leaves two live entries of one key |
| BrainStore.PromotedOnceExactly | packages/openburrow-brain/src/openburrow/brain/store.py:139-143 | in the run in which a candidate is promoted again and again there is one entry for it, if and only if its title fits and its path has no space around it |
| BrainStore.SupersededTakesReports | packages/openburrow-brain/src/openburrow/brain/store.py:263-273 | a superseded entry takes every later report of its key: no new entry is made and it does not become active again |
| BrainStore.WitnessCount | packages/openburrow-brain/src/openburrow/brain/store.py:291-292 | two witnesses are counted exactly when both lanes have names and the names differ |
| BrainStore.ConfidenceIsBelief | packages/openburrow-brain/src/openburrow/brain/store.py:275-321 | over every run the confidence in an entry is settled by its source, by whether a human vouched for it, and by who reported it since |
| BrainStore.PassesFloorExactly | packages/openburrow-brain/src/openburrow/brain/store.py:46-47 | an entry no human vouched for passes the injection floor if and only if some report did not come, by name, from its own lane; a report without a name is enough |
| BrainStore.CorroboratedExactly | packages/openburrow-brain/src/openburrow/brain/store.py:40-44 | such an entry reaches 0.8 if and only if a named lane other than its own named source reported it |
| BrainStore.MarkedExactly | packages/openburrow-brain/src/openburrow/brain/store.py:305-309 | such an entry is recorded as confirmed and promoted by corroboration under the same condition, and otherwise as confirmed by nobody |
| BrainStore.UnnamedNeverCorroborated | packages/openburrow-brain/src/openburrow/brain/store.py:291-305 | in no run does an entry whose first report had no name reach 0.8, whoever reports it, unless a human vouches for it |
| BrainStore.UncorroboratedExactly | packages/openburrow-brain/src/openburrow/brain/store.py:37-38 | in every run an entry no human vouched for is at 0.45 if and only if every report of it came, by name, from its own lane |
| BrainStore.AgreementLowersExactly | packages/openburrow-brain/src/openburrow/brain/store.py:305 | the confidence in an entry a human vouched for goes down if and only if a named lane other than its own agrees |
| BrainStore.OwnWordExactly | packages/openburrow-brain/src/openburrow/brain/store.py:282-289 | in the run in which one lane promotes the same candidate again and again its entry stays at 0.45 if and only if the lane has a name without space around it |
| BrainStore.BrainStore.FindMatch | packages/openburrow-brain/src/openburrow/brain/store.py:263-273 | the loop finds the newest entry that is not retired and has the key, or there is none |
| BrainStore.BrainStore.Corroborate | packages/openburrow-brain/src/openburrow/brain/store.py:275-321 | one report of an existing entry, and which of the three answers it gets |
| BrainStore.BrainStore.PromoteCandidate | packages/openburrow-brain/src/openburrow/brain/store.py:130-172 | the entries after a promotion, and which of the five answers it gets |
| BrainStore.BrainStore.ConfirmEntry | packages/openburrow-brain/src/openburrow/brain/store.py:174-180 | confirming sets the confidence to one and names who did |
| BrainStore.BrainStore.SupersedeEntry | packages/openburrow-brain/src/openburrow/brain/store.py:182-192 | superseding marks the entry stale, whatever it was |
| BrainStore.BrainStore.RetireEntry | packages/openburrow-brain/src/openburrow/brain/store.py:194-198 | retiring marks the entry retired |
| BrainStore.BrainStore.Drive | packages/openburrow-brain/src/openburrow/brain/store.py:130-198 | a run of calls leaves the entries of its history |
| BrainStore.NormalTitles | packages/openburrow-brain/src/openburrow/brain/store.py:268 | the normalised title of every entry is at all times what the comparison makes of its title |
| BrainRecords.PromotionExactly | packages/openburrow-brain/src/openburrow/brain/store.py:139-172 | in every run a promotion reports the newest entry that is not retired and has the candidate's title, but for case and space around it, and its path; with none it makes one, unless the candidate has no title |
| BrainRecords.FoldsAlikeExactly | packages/openburrow-brain/src/openburrow/brain/store.py:268 | two titles fold alike if and only if they differ at most in the case of letters of ASCII |
| BrainRecords.RecordIsTold | packages/openburrow-brain/src/openburrow/brain/store.py:143-198 | in every run the title, body, path and lane of an entry are those of the candidate that made it, and its status, promoter and confirmer are told by the calls since |
| BrainRecords.ConfidenceIsTold | packages/openburrow-brain/src/openburrow/brain/store.py:275-309 | in every run the confidence is 0.8 once two lanes with names stand behind the entry, else 1 if somebody vouched for it, else 0.45 while only its own lane, by name, reported it, else 0.6 |
| BrainOverlap.AtOnce | packages/openburrow-brain/src/openburrow/brain/store.py:139-172 | a call that reads, decides and saves with nothing in between does what it does in one step |
| BrainOverlap.SaveKeepsUniqueExactly | packages/openburrow-brain/src/openburrow/brain/store.py:139-159 | a row saved late, new or over the one that was read, keeps the live keys unique if and only if its key is free or it goes over a live row |
| BrainOverlap.OverlapUniqueExactly | packages/openburrow-brain/src/openburrow/brain/store.py:130-198 | in every interleaving of overlapping calls the live keys are at all times unique if and only if every row saved does so |
| BrainOverlap.BothMake | packages/openburrow-brain/src/openburrow/brain/store.py:139-159 | two promotions of one key that both search before either saves make two entries |
| BrainOverlap.LateSaveUndoes | packages/openburrow-brain/src/openburrow/brain/store.py:174-198 | a row saved late is the one its call decided on: a confirmation, retirement or report made in between is undone |
| BrainSelection.SelectionStore.SelectForInjection | packages/openburrow-brain/src/openburrow/brain/store.py:211-260 | the entries chosen, and exactly their counters go up by one |
| BrainSelection.ChosenAreBest | packages/openburrow-brain/src/openburrow/brain/store.py:234-249 | what is chosen is active, above the floor and relevant, in rank order; what is eligible and left out is outranked by everything chosen |
| BrainSelection.ChosenExactly | packages/openburrow-brain/src/openburrow/brain/store.py:231-249 | told on the fields and numbers: what counts in and what it is worth, each chosen entry above the next and above all that is left out, and as many as the budget allows |
| BrainSelection.BudgetCapsExactly | packages/openburrow-brain/src/openburrow/brain/store.py:227-229 | the budget caps what is chosen if and only if it is not negative or cuts off at least as many entries as there are; a budget that is not negative is used up if it can be |
| BrainSelection.OneLaneIsNotEnough | packages/openburrow-brain/src/openburrow/brain/store.py:236-237 | whatever a run of the store did, what one named lane alone keeps saying is never chosen |
| PlanDependencies.ResultFrom | packages/openburrow-daemon/src/openburrow/daemon/planner.py:133-170 | of at most twelve proposed steps the titled ones are kept, with the dependencies that name kept, earlier steps |
| PlanProposals.ResultExactly | packages/openburrow-daemon/src/openburrow/daemon/planner.py:133-170 | the result has one step for each of the first twelve proposals that is an object with a title, in order, and no other |
| PlanProposals.StepExactly | packages/openburrow-daemon/src/openburrow/daemon/planner.py:139-170 | its title is the first 200 characters of the proposed one, and its dependencies are the listed numbers of earlier proposals that count, in order |
| PlanDependencies.RankIsIndexExactly | packages/openburrow-daemon/src/openburrow/daemon/planner.py:141-168 | the position of a kept step is its index if and only if no step before it was dropped |
| PlanDependencies.LinksRightExactly | packages/openburrow-daemon/src/openburrow/daemon/planner.py:163-193 | every created step depends on the steps its indices name if and only if no step was dropped before one that another depends on |
| PlanDependencies.MeantGoesBack | packages/openburrow-daemon/src/openburrow/daemon/planner.py:163-167 | read through the positions of the kept steps, every dependency goes to an earlier created step |
| PlanDependencies.NoDropsGoBack | packages/openburrow-daemon/src/openburrow/daemon/planner.py:188-193 | with no step dropped, the order of the created steps is a topological order |
| PlanDependencies.LinksGoBackExactly | packages/openburrow-daemon/src/openburrow/daemon/planner.py:163-193 | a created step depends on earlier steps only if and only if each of its dependencies in range reaches back over more steps than were dropped before it |
| PlanDependencies.SelfLinkExactly | packages/openburrow-daemon/src/openburrow/daemon/planner.py:188-193 | a created step depends on itself if and only if a dependency of it reaches back over as many steps as were dropped before it |
| PlanDependencies.DropMakesALoop | packages/openburrow-daemon/src/openburrow/daemon/planner.py:188-193 | a dropped first step leaves a step that depends on itself |
| PlanDependencies.SomeStepIsReady | packages/openburrow-core/src/openburrow/core/models/plan.py:167-180 | when every dependency goes to an earlier step, some step that is left can always be taken up |
| PlanOrder.WorksOffExactly | packages/openburrow-core/src/openburrow/core/models/plan.py:167-180 | all the steps of a plan can be done, each when it is ready, if and only if no step depends on itself over however many others |
| PlanOrder.PlanWorksOffExactly | packages/openburrow-daemon/src/openburrow/daemon/planner.py:133-196 | for every proposal: the plan made of it can be worked off if and only if the proposed steps have no circle in which each lists the next one's index less the number of steps dropped before that one |
| PlanOrder.DropsMakeALongerLoop | packages/openburrow-daemon/src/openburrow/daemon/planner.py:188-193 | a proposal with two dropped steps whose plan cannot be worked off: two steps that depend on earlier ones come to wait for each other |
| PlanDependencies.Plan.AddStep | packages/openburrow-core/src/openburrow/core/models/plan.py:278-287 | the step is appended and gets its place in the order if it had none |
| PlanDependencies.Plan.ApplyToPlan | packages/openburrow-daemon/src/openburrow/daemon/planner.py:173-196 | the steps are appended with fresh ids, the dependencies are the ids at the positions in range, and the plan is snapshotted once if anything was created |
| PlanDependencies.PlanFrom | packages/openburrow-daemon/src/openburrow/daemon/planner.py:133-196 | both functions composed: the links of the created steps for any proposal |
| FileWatch.SortedSetSorts | packages/openburrow-daemon/src/openburrow/daemon/filewatch.py:262-264 | sorting a list as a set gives its paths once each, in ascending order |
| FileWatch.CollapsePartitions | packages/openburrow-daemon/src/openburrow/daemon/filewatch.py:253-264 | however paths were recorded, a batch lists each of them once, in one of three sorted, disjoint lists, and no other |
| FileWatch.CollapseSets | packages/openburrow-daemon/src/openburrow/daemon/filewatch.py:262-264 | what was recorded as deleted is reported so, what was added unless it was deleted, and what was modified unless it was either |
| FileWatch.CollapseKeepsSomething | packages/openburrow-daemon/src/openburrow/daemon/filewatch.py:266-267 | a pending batch that is not empty is never collapsed to nothing: the second test never stops it |
| FileWatch.Watcher.Flush | packages/openburrow-daemon/src/openburrow/daemon/filewatch.py:253-267 | the collapsed batch is emitted and the pending one emptied |
| FileWatch.Watcher.Tick | packages/openburrow-daemon/src/openburrow/daemon/filewatch.py:204-215 | one poll reports exactly the added, deleted and touched paths between two snapshots, and nothing if and only if they are equal |
| FileWatch.Watcher.Record | packages/openburrow-daemon/src/openburrow/daemon/filewatch.py:236-251 | one raw event goes to the list of its kind |
| FileWatch.Watcher.Burst | packages/openburrow-daemon/src/openburrow/daemon/filewatch.py:193-195 | a burst of raw events is recorded and flushed once |
| FileWatch.RunPolling | packages/openburrow-daemon/src/openburrow/daemon/filewatch.py:201-215 | at every tick, replaying the batches so far over the first snapshot's files gives the latest snapshot's files |
| FileWatch.ReportsReplay | packages/openburrow-daemon/src/openburrow/daemon/filewatch.py:201-215 | the same for any chain of correct reports |
| FileWatch.RereadsReplay | packages/openburrow-daemon/src/openburrow/daemon/filewatch.py:204-215 | a reader who looks again at the reported paths, and at no others, has every file with its latest time |
| FileWatch.BurstReplaysExactly | packages/openburrow-daemon/src/openburrow/daemon/filewatch.py:236-264 | the batch of a burst tells a reader which files there are, whatever there were, if and only if no path is deleted and then made again within the burst |

## Left out

- Processes, pseudo-terminals, sockets, SQLite, HTTP, git, mail and model calls: they appear
  as events (bytes arrived, page answered, handler returned) or as parameters.
- LineFraming.Drive: requests are dispatched at once and dispatching does not fail; what a
  frame that makes the dispatcher fail does to the writes is in `RequestStream.WroteExactly`.
- RequestStream.ClientSeesHandler: handlers stream finitely many chunks, writes succeed and
  JSON text is already parsed; the error texts of the server are shortened to their codes and
  names.
- BusFeed.FeedIsTop: pages have distinct numbers, as the log guarantees; without that it is
  false (`BusFeed.DuplicateInsidePage`). Events carry a number and one body.
- PollLoop.Poll.Drive: an abort error arises only from the loop's own abort. Rendering state
  (`loading`, `refreshing`, the data and error shown) is not modelled, and time is only the
  delay a timer was set for.
- EventBus.RecoversExactly: the window of a subscriber starts after as many events of its kind
  as had been published before it was made, which is where a subscriber that saw nothing reads
  from. Appends commit in the order of their numbers, as with a single writer.
- Negotiation.Run: references, requested changes and message bodies are not modelled, nor is
  the trimming of summaries by the record; the two lanes are different lanes.
- ChunkAssembler.ReadStream: the text is already free of escape sequences, which the reader
  removes per read before assembling.
- AnsiSpans.Pen.ApplySgr: parameters are natural numbers or not numbers; the rounding of
  parameters of more than fifteen digits is not modelled.
- BrainStore.BrainStore.PromoteCandidate: anchored symbols and commits, tags, timestamps and
  drift checks are left out. The comparison of titles folds the letters of ASCII only; what is
  said of titles that do not fit holds of every folding table
  (`BrainStore.StoredTitleFitsExactly`). The models strip the white space that the host
  language's `strip` does.
- BrainStore.BrainStore.FindMatch: titles are compared with only the letters of ASCII folded,
  and of entries made in the same instant the later one counts as newer.
- PlanDependencies.ResultFrom: descriptions and target paths are not modelled, and proposals
  on which the host language's conversions would raise are left out.
- PlanOrder.WorksOffExactly: a step is done or it is not; owners, failed and blocked steps are
  left out.
- FileWatch.Watcher.Record: paths outside the worktree and ignored paths are filtered before;
  the ignore patterns are not modelled, nor is the order in which the operating system reports.
- `performatives.py`'s summary of positions, lesson eviction, task lifecycle, delegation,
  policy gate, CRDT merging and all rendering: leaf logic or logic of libraries.
