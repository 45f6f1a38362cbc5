# Zou, in Dafny

A model of the parts of zou where being right is hard, and proofs of what those
parts are for. `dafny verify dfyconfig.toml` checks all of it.

**The write ahead log and who may write it** (`Chain`, `ChainHead`, `Landing`,
`Takeover`, `Judging`, `Recovery`, `Sweeping`, `TakeoverRaces`, `Quorum`). A
shard's log is a chain of segments in an object store, each created once. A
takeover finds the head, seals the next position, swaps the manifest, sweeps
what a fenced writer left behind, and then writes windows of its own, many in
flight at once. `Takeover` is a machine with one action per request to the
store, any number of takeovers and writers, and requests that arrive whenever
they like. Its invariant gives the law the log is there for: an acknowledged
window stays where it landed, and no position is acknowledged twice. It holds of
every run in which a delete arrives while the manifest still names the line that
sent it. `Judging` is about what is called litter: only what is found while the
manifest names the finder.

`Recovery` is about reading the log back. A takeover looks at the one segment it
takes for the head. Whether its seal links is proved to be exactly a matter of
kinds and digests from that segment down to the seal the manifest names. Whether
it goes on to link is a matter of whose windows those are, and a digest does not
say: a window sent again after a failover has the digest it had before. Runs
that seal only over the owner's windows are proved readable and their holes
near, and a break that was sealed over is proved to stay for good. The code
checks neither what it seals over nor who the manifest names when a delete
arrives, and `TakeoverRaces` has a run for each: a slow sweep deletes a window
that a later owner acknowledged, a takeover that dies between its seal and its
swap leaves the shard unreadable, and so does a window sent again. `Landing` is
one writer's windows coming back in any order, and how far past the first hole
they can be. `Sweeping` is what a new owner clears away, and that this is
enough. `Quorum` is one position on three media: when a seal is refused by
nobody, when a probe finds what no reader does, and when a late put ends the
owner.

**The watch over one call** (`WatchCells`, `CpuClock`, `BufferBudget`,
`Watchdogs`). A handful of atomics, shared without a lock between the isolate's
thread, its allocator and the watchdogs. Each is a machine with one action per
atomic instruction, and the results are about every interleaving.

**Answering a call** (`Calls`). The op state a function reaches through its ops,
over any number of calls in one isolate.

**DNS** (`Walks`, `DnsNames`, `DnsWriting`, `DnsMessage`, `DnsLayout`,
`DnsResponse`, `DnsVerdicts`). Reading a packet against an inductive description
of what a packet says, compression pointers included, every response as laid out,
and for every packet whatever, whether it is an answer and how it fails.

**npm** (`Versions`, `Ranges`), **import maps** (`Jsonc`, `ImportMaps`),
**re-exports** (`Reexports`). What a range allows, what a specifier means, and
which names a script is asked for.

**The conformance harness** (`Calendar`, `Stamps`, `Statements`, `JsonDiff`,
`Answers`, `Base32`, `OneTimeCodes`). The calendar in closed form against the
calendar a day at a time, SQL cut into statements against an automaton, the
difference of two answers, and base32 secrets with the codes they give.

`Wrappers`, `Runs`, `Orders`, `Sorting`, `Arithmetic`, `Decimals` and `Texts`
hold what several of these share.

Where the code and its documentation disagree, the model follows the code:

- crates/zou-log/src/chain.rs:19-20 says a crash between seal and manifest swap
  leaves nothing wedged. `TakeoverRaces.ChainsCanBreak` is such a crash.
- crates/zou-log/src/chain.rs:260-265 says a takeover is safe against any number
  of rivals, and 387-395 that the sweep touches no rival's fresh chain.
  `TakeoverRaces.AcksCanBeLost` is a rival that loses a window to it.
- crates/zou-log/src/media.rs:30-32 says a seal that cannot reach two media lost
  to a fully landed segment. `Quorum.RefusedByAnOwnerIff` says when not.
- crates/zou-log/src/media.rs:18-21 says a position is in the chain exactly when two
  media hold identical bytes. A probe compares headers, and
  `Quorum.ProbedInVainIff` says when that is not the same.
- crates/zou-log/src/segment.rs:96-98 says a digest tells a predecessor that landed
  from a zombie. `TakeoverRaces.ResendsCanBreak` is a run in which it does not.
- crates/zou-log/tests/freeze_thaw.rs:24-25 says the successor keeps the shard. On
  three media `Quorum.OneStragglerFencesIff` says when it does not.
- crates/zou-deno/src/limits.rs:781-785 says a refused allocation ends the call.
  `Watchdogs.RefusalStopsTheCallIff` says when it is sure to.
- crates/zou-deno/src/limits.rs:447-448 says only the first of a warning in a call
  is sent.
  `Watchdogs.ToldTwiceIff` says when it is not.
- crates/zou-deno/src/npm.rs:330-331 says a bare `x` and a tilde on it are one
  range. `Ranges.TildeIsBareIff` says for which words.
- conformance/src/derive.rs:512-513 says the text is cut at every semicolon that
  ends a statement. `Statements.StopsAlikeIff` says which quotes the code reads
  past.
- crates/zou-server/src/totp.rs:63-65 says anything that is not base32 is
  refused. `OneTimeCodes.HalvesDifferIff` says what else the server reads.

## Model

| member | source | states |
|---|---|---|
| Takeover.StepKeeps | crates/zou-log/src/chain.rs:266-339 | every request of every takeover, sweep and writer, in any order, keeps the invariant as long as deletes arrive while the manifest names the line that sent them: lines sealed in version order, windows where they landed or their line fenced below, a seal past a line's own always in that line's way |
| Recovery.LinkedIsOwn | crates/zou-log/src/chain.rs:529-562 | where no line's window follows one with the digest the owner's window has at that position, the only windows that link past the seal the manifest names are the owner's |
| Takeover.AckedStays | crates/zou-log/tests/freeze_thaw.rs:17-20 | in every run whose deletes arrive in time, whatever seals land where, an acknowledged window is in the store as its line wrote it |
| Recovery.GuardIsExact | crates/zou-log/src/chain.rs:266-339 | whoever wrote what, a seal carries on the chain if and only if its digest is still that of the position below it, and that position holds a seal or ends a run of windows that link, back to the seal the manifest names |
| Recovery.OwnersRunIff | crates/zou-log/src/segment.rs:96-106 | where nothing was sent again, such a run is the owner's if and only if kinds and digests say it links |
| Recovery.AckedIsRead | crates/zou-log/tests/freeze_thaw.rs:17-20 | in every run whose seals go on a seal or on a run of the owner's own windows, whatever the digests, recovery reads everything that was acknowledged |
| Recovery.ChainReads | crates/zou-log/src/chain.rs:506-576 | in every such run recovery never fails on a broken link and reaches the head the manifest names |
| Recovery.TakeoverReadsIff | crates/zou-log/src/chain.rs:266-339 | after such a run, a takeover that seals and swaps leaves recovery reaching its seal if and only if what it sealed over looks right from kinds and digests |
| Recovery.NothingIsFar | crates/zou-log/src/chain.rs:150-160 | in every such run of lines that keep to their limit, whichever lines left what, nothing stands more than 64 past the first position above the manifest's head where nothing does |
| Recovery.HeadOf | crates/zou-log/src/chain.rs:159-196 | so the search over what stands there ends right before that position, which is an answer the takeover of the model may get |
| Recovery.BrokenForGood | crates/zou-log/src/chain.rs:506-576 | once recovery fails on a break it fails on that break in every state the shard goes on to |
| Takeover.OneLineAcknowledges | crates/zou-log/src/chain.rs:3-7 | no two lines acknowledge one position |
| Takeover.FencedLinesStop | crates/zou-log/src/chain.rs:9-16 | a line the manifest no longer names has acknowledged nothing at or past the seal of the one it does |
| Judging.FencedLinesJudgeNothing | crates/zou-log/src/chain.rs:341-385 | from any state reached in which the manifest names another line, and whatever arrives after, a line judges nothing to be litter that it had not judged before |
| Judging.ClearsWereJudged | crates/zou-log/src/media.rs:342-375 | in every run a delete on its way to a taken position was judged for by its own line, at a moment when the manifest named that line |
| Judging.PutsGoForward | crates/zou-log/src/media.rs:342-375 | every request about a window takes it further and none back, so no window is put more than twice |
| Sweeping.SweepStragglers | crates/zou-log/src/chain.rs:396-430 | the walk, 32 probes at a time, takes away exactly the windows past its seal up to the first seal or to 64 positions in a row with nothing there |
| Sweeping.NewOwnersAreClear | crates/zou-log/src/chain.rs:387-430 | in every run that keeps the guard on seals and the limit, whichever lines left what, a takeover that sealed the first hole leaves by its sweep no window past its seal that another seal does not come before |
| Sweeping.SweepsStopAtSeals | crates/zou-log/src/chain.rs:393-425 | in every run whose deletes arrive in time, a sweep with a seal ahead of it that no probe missed never comes to it, and deletes nothing at or past it |
| Sweeping.SweepsClear | crates/zou-log/src/chain.rs:396-430 | request by request, a sweep left alone takes away exactly the windows from its seal to where it is |
| Sweeping.SweepsGoForward | crates/zou-log/src/chain.rs:396-430 | in every run each request of a sweep takes it on or ends it, nothing else moves it, and one that is over stays over |
| TakeoverRaces.AcksCanBeLost | crates/zou-log/src/chain.rs:387-429 | a run as coded in which an older owner's sweep, its probes answered at different times, deletes a window a later owner acknowledged |
| TakeoverRaces.ChainsCanBreak | crates/zou-log/src/chain.rs:266-339 | a run as coded, with no delete in it, in which a takeover stops between seal and swap, the next one takes a window in flight behind the seal for the head and acknowledges, and every read in every later state fails |
| TakeoverRaces.UndisturbedTakeoverReadsIff | crates/zou-log/src/chain.rs:266-339 | a takeover with nobody in its way whose search found no hole leaves the log unreadable if and only if it found a window and, at or below that and past the manifest's seal, a seal or a window that does not link |
| TakeoverRaces.ResendsCanBreak | crates/zou-log/src/segment.rs:96-106 | a run as coded in which a window sent again after a failover lets a fenced line's window link, a takeover that looks at kinds and digests seals over it, the owner puts its own there, and every later read fails below what was acknowledged |
| TakeoverRaces.DeleteLosesIff | crates/zou-log/src/chain.rs:387-429 | the first delete of a run to arrive late loses an acknowledged window if and only if the position it deletes was acknowledged and the manifest names another line by then |
| Chain.Walk | crates/zou-log/src/chain.rs:506-576 | the walk stops at the first segment that does not link, with an error exactly when that is at or below the last seal |
| Chain.ReadsWhatIsLinked | crates/zou-log/src/chain.rs:506-576 | where the chain is linked up to the manifest's head, a read gets at least as far as it is linked |
| Chain.ReadsToTheHeadIff | crates/zou-log/src/chain.rs:506-576 | a read reaches the head the manifest names if and only if the chain is linked that far |
| ChainHead.Head | crates/zou-log/src/chain.rs:159-196 | gallop, halving and the look back over a window find the segment before the first hole, with stragglers up to 64 past the hole or without |
| ChainHead.Gallop | crates/zou-log/src/chain.rs:163-173 | doubling steps end at a position that is there and one that is not |
| ChainHead.Halve | crates/zou-log/src/chain.rs:174-183 | halving ends at a position that is there with none right after it |
| Landing.Lander.Complete | crates/zou-log/src/sequencer.rs:238-287 | a put that came back parks, and exactly the contiguous ones resolve, each to what it is due by how all before it came back |
| Landing.Lander.Admit | crates/zou-log/src/sequencer.rs:289-299 | a window gets a slot exactly when fewer than the limit are dispatched and unresolved, and keeps every window within the limit of the first not known to have landed, the one already in hand when a failure is noticed included |
| Landing.Lander.SentAfterLanding | crates/zou-log/src/sequencer.rs:289-299 | a window goes out only once every window more than the limit before it came back well |
| Landing.Lander.StragglersAreNear | crates/zou-log/src/sequencer.rs:289-292 | whatever failed and whatever is in flight, nothing a line landed is further than the limit past the first hole it left |
| Landing.HeadLeftBy | crates/zou-log/src/chain.rs:150-196 | so the search for the head, over what a line left that stopped at any moment, ends right before the first hole |
| Landing.OrderIsNothing | crates/zou-log/src/sequencer.rs:212-218 | the order puts come back in changes nothing of what they resolve to |
| Landing.DurableIff | crates/zou-log/src/sequencer.rs:24-27 | a window is called durable if and only if it and every one before it came back well |
| Quorum.FetchIsTheOwner | crates/zou-log/src/media.rs:170-244 | the reader returns an object exactly when two media hold it, and then a probe finds it too |
| Quorum.PresentIff | crates/zou-log/src/media.rs:177-198 | a probe finds something if and only if two media, one of them a zone, hold objects of one header |
| Quorum.ProbedInVainIff | crates/zou-log/src/media.rs:177-198 | a probe says yes where no reader finds anything if and only if two media, one of them a zone, hold objects of one header and no two hold one object |
| Quorum.TwoWinsOwn | crates/zou-log/src/media.rs:13-21 | whoever two media took the bytes of owns the position in every interleaving, so an ack and a seal exclude each other |
| Quorum.OwnedForGood | crates/zou-log/src/media.rs:13-21 | what is owned stays owned whatever is put after |
| Quorum.RefusedByAnOwnerIff | crates/zou-log/src/media.rs:132-168 | a seal that is up owns its position, and one is refused with no owner if and only if the zones were torn already or one is empty while the other, the standard bucket and the seal are three different byte strings |
| Quorum.RefusedByAWindowIff | crates/zou-log/src/media.rs:29-32 | in every interleaving of any number of agents putting one window and one seal, a seal is refused with no owner if and only if the two have a zone each and the standard bucket is empty |
| Quorum.EveryMediaIsReached | crates/zou-log/src/media.rs:249-317 | with agents of any bytes a position comes to hold any bytes on any of the media, so both of those states are reached |
| Quorum.TornForGood | crates/zou-log/src/media.rs:143-168 | a torn position refuses every one of any sequence of seals, changes under none and is never fetched |
| Quorum.TornEndsIff | crates/zou-log/src/media.rs:212-244 | after any puts a torn position can be fetched if and only if the first of them to reach an empty standard bucket was of the object of a zone |
| Quorum.TornIsProbedIff | crates/zou-log/src/media.rs:177-198 | a torn position still probes as taken if and only if two of its headers are the same |
| Quorum.PhantomIsReached | crates/zou-log/src/media.rs:249-317 | two writers of one position with one header that each reached one zone leave what every probe finds, no fetch does, and no seal changes |
| Quorum.KeepsTheShardIff | crates/zou-log/src/media.rs:249-375 | an owner writes on past a taken position if and only if the first two media to answer were empty, or two media hold a window that is not its own |
| Quorum.OneStragglerFencesIff | crates/zou-log/src/chain.rs:358-384 | one late put of a fenced writer on one zone ends the owner if and only if that zone is one of the first two to answer |
| Quorum.TornIsReached | crates/zou-log/src/media.rs:249-317 | a writer and a sealer that each reached one zone and stopped leave it torn |
| CpuClock.ReadingNeverOvercounts | crates/zou-deno/src/limits.rs:394-427 | in every interleaving a reading within one call counts no poll twice and exceeds the true time by at most the gap between its load and its clock |
| CpuClock.UndisturbedReadingIsExact | crates/zou-deno/src/limits.rs:420-427 | a reading nothing moved during is exact but for a poll between its swap and its add |
| CpuClock.ReadingIsRightIff | crates/zou-deno/src/limits.rs:420-445 | however many restarts came after its first load, a reading is off by exactly what it loaded against what is spent and in transit now, so it is right if and only if those are equal |
| CpuClock.RestartBetweenLoadsOvercounts | crates/zou-deno/src/limits.rs:439-445 | a run in which a restart between the two loads reports the last call's time in a call that ran for none |
| BufferBudget.CountIsHonest | crates/zou-deno/src/limits.rs:708-763 | in every interleaving the count is live bytes plus requests being refused, live bytes stay within twice the limit, no grant exceeds the limit, and a refusal leaves a limit recorded |
| BufferBudget.QuietCountIsExact | crates/zou-deno/src/limits.rs:454-461 | with nothing passing through, the count is exactly what is held |
| BufferBudget.GivingBackIsNeverStuck | crates/zou-deno/src/limits.rs:726-731 | in every interleaving every request can go on: to be decided, freed or given back, which never takes more than the count has, and a refusal to be recorded |
| BufferBudget.RefusalsAreWarranted | crates/zou-deno/src/limits.rs:712-724 | in every interleaving a request is refused only for passing the limit itself or for a total past twice the limit, and is let through only otherwise |
| BufferBudget.NoRequestIsLost | crates/zou-deno/src/limits.rs:708-763 | in every interleaving every request ever made is still out, freed, or refused with its record owed or made, and none twice, and each is decided once |
| Watchdogs.ExactlyTheFirstRecordWins | crates/zou-deno/src/limits.rs:482-497 | over every recorder and any number of restarts exactly the first record succeeds, and what is reached is what it said |
| Watchdogs.ReachedNeverChanges | crates/zou-deno/src/limits.rs:482-491 | once a limit is reached the same one is reported for ever |
| Watchdogs.LimitsAreTheirRecorders | crates/zou-deno/src/limits.rs:640-685 | in every run a watchdog records one of the two clocks and everybody else memory |
| Watchdogs.RecordsWhatRanOut | crates/zou-deno/src/limits.rs:612-650 | a watchdog about to record a clock found that clock over, and says the wall clock where both were |
| Watchdogs.EachWarningIsSentOnce | crates/zou-deno/src/limits.rs:449-452 | no two warnings of one kind are won in one call, however often any watchdog looks |
| Watchdogs.ToldItsOwnIff | crates/zou-deno/src/limits.rs:592-650 | whatever it goes on to do, a call is handed only warnings won in it if and only if no watchdog had one to hand over when it began |
| Watchdogs.ToldTwiceIff | crates/zou-deno/src/limits.rs:592-650 | with no limit reached, a call can be told of one thing twice if and only if a watchdog had a warning to hand over when it began |
| Watchdogs.LateWarningIsSentTwice | crates/zou-deno/src/limits.rs:592-650 | a run in which a watchdog of the last call hands its warning into the next, which is told twice |
| Watchdogs.RefusalStopsTheCallIff | crates/zou-deno/src/limits.rs:586-668 | a refused allocation is sure to stop the call if and only if the watchdog has not passed its check when the refusal records |
| Watchdogs.OtherWinnersStopTheCall | crates/zou-deno/src/limits.rs:671-685 | any other winner has stopped the isolate or is about to |
| Watchdogs.OneCollectionAtATime | crates/zou-deno/src/limits.rs:468-480 | a collection is asked for only when the last one is over |
| Watchdogs.CollectingIff | crates/zou-deno/src/limits.rs:468-480 | in every run the flag is up if and only if a collection is under way, or one was asked of an isolate that was gone |
| Watchdogs.TurnsAreInOrder | crates/zou-deno/src/limits.rs:586-655 | whatever happens between, a watchdog wakes, checks, asks, warns, hands over and decides in that order with none left out |
| Watchdogs.CollectionsAreInOrder | crates/zou-deno/src/limits.rs:658-669 | in every run a collection says whether it is over the limit, stops the isolate only then, and is done before the next one begins |
| WatchCells.OrSetsOneWarning | crates/zou-deno/src/limits.rs:207-215 | the mask is the set of warnings sent: setting one bit says that warning and no other |
| WatchCells.Watch.LeaveAndRead | crates/zou-deno/src/limits.rs:402-427 | what is read while a poll runs is what is read once it has left |
| WatchCells.Watch.CpuAt | crates/zou-deno/src/limits.rs:420-427 | the time read is what the total comes to if the running poll ends at that instant, and does not go back |
| WatchCells.Watch.Left | crates/zou-deno/src/limits.rs:402-411 | a poll that began moves its length into the total, and one that did not changes nothing |
| WatchCells.Watch.Restart | crates/zou-deno/src/limits.rs:439-445 | the clocks and the warnings begin again and what was reached stays |
| WatchCells.Watch.First | crates/zou-deno/src/limits.rs:449-452 | a warning is the first of its kind exactly when its bit was clear, and it is set after |
| WatchCells.Watch.Record | crates/zou-deno/src/limits.rs:493-497 | recording wins exactly when nothing was recorded |
| WatchCells.Watch.Take | crates/zou-deno/src/limits.rs:712-724 | bytes are granted exactly within the limit and twice the limit in all; a refusal leaves the count as it was and a limit recorded |
| Calls.AnswersReachTheirOwnCaller | crates/zou-deno/src/isolate.rs:109-179 | over every sequence of ops and calls a caller is sent at most one answer, made while its own call was being handled |
| Calls.SentIsDue | crates/zou-deno/src/isolate.rs:109-179 | from a call's arrival to the next, the caller is sent exactly the status of the first start of a stream or else, once the handler settles, of the last answer set |
| Calls.ChunksAreStreamed | crates/zou-deno/src/isolate.rs:143-179 | exactly the bytes written between that start and the first end of the stream reach the caller, in order |
| Calls.StreamIsBrokenOffIff | crates/zou-deno/src/isolate.rs:143-179 | a stream is broken off if and only if the function failed it while it was open |
| Calls.EndedIsTheOutcome | crates/zou-deno/src/isolate.rs:1160-1266 | what is known of how a call came out is fixed by its actions alone, and nothing is learned of any other call |
| Calls.NobodyIsLeftWaiting | crates/zou-deno/src/isolate.rs:1197-1236 | past the handler no sink is left behind: every caller so far was answered once or let go |
| Calls.SettlingAnswersOrFails | crates/zou-deno/src/isolate.rs:1212-1236 | a handler that settles has answered its caller exactly once or its call fails |
| Calls.WellMeansAnswered | crates/zou-deno/src/isolate.rs:1160-1266 | a call that came out well answered its caller |
| Calls.WriterIsLeft | crates/zou-deno/src/isolate.rs:1197-1210 | a run in which a handler that started a stream and failed leaves its writer in the op state |
| Calls.WriterIsLeftIff | crates/zou-deno/src/isolate.rs:109-179 | from a call's arrival to the next, whether it fails, settles or is over, its writer is in the op state if and only if the first start of a stream came while the handler ran and no end or failure of the stream came after it |
| Calls.OpsWorkIff | crates/zou-deno/src/isolate.rs:109-179 | from a call's arrival on, a start works if and only if no start, settling or failing came before, a chunk if and only if the stream is open and read, the other ops always, and one that does not work changes nothing |
| Calls.OpState.StartAnswer | crates/zou-deno/src/isolate.rs:126-141 | takes the sink and sends, or changes nothing when it is gone |
| Calls.OpState.Ran | crates/zou-deno/src/isolate.rs:1197-1236 | the sink and the answer leave the op state on every path past the handler |
| DnsNames.ReadIsExact | crates/zou-deno/src/dns.rs:440-489 | on every packet a name is read exactly when one is spelled there with pointers that go strictly backwards, and it is that one |
| DnsNames.Reading.Name | crates/zou-deno/src/dns.rs:440-489 | the loop reads that name and leaves the cursor past it, or fails, on any bytes |
| DnsNames.Reading.Bytes | crates/zou-deno/src/dns.rs:434-438 | exactly the bytes asked for, or nothing and the cursor where it was |
| DnsNames.MasksAreRanges | crates/zou-deno/src/dns.rs:447-471 | the masks and shifts on length bytes are the comparisons and arithmetic used here |
| DnsNames.ExtentWithin | crates/zou-deno/src/dns.rs:440-489 | a name that is read lies within the packet |
| DnsWriting.Written | crates/zou-deno/src/dns.rs:369-389 | a name is written exactly when it can be asked about, as its labels with their lengths and at most 255 bytes |
| DnsWriting.AskableIff | crates/zou-deno/src/dns.rs:369-389 | a name can be asked about if and only if it is labels of 1 to 63 bytes with no dot in any, joined by dots into at most 253, with a dot after them or none |
| DnsWriting.SplitThenJoin | crates/zou-deno/src/dns.rs:369-389 | splitting a name at its dots loses nothing |
| DnsWriting.WireLength | crates/zou-deno/src/dns.rs:369-389 | a name on the wire is two bytes longer than its text |
| DnsWriting.WrittenReadsBack | crates/zou-deno/src/dns.rs:369-489 | every name that can be written reads back, with the cursor just past it, whatever is around it |
| DnsWriting.CompressedReadsBack | crates/zou-deno/src/dns.rs:440-489 | labels and then a pointer to an earlier spelling read as the labels and that name, the cursor two bytes past the pointer |
| DnsWriting.CompressionKeepsTheName | crates/zou-deno/src/dns.rs:440-489 | replacing a suffix by a pointer to where it was written leaves the name unchanged |
| DnsMessage.Read | crates/zou-deno/src/dns.rs:499-570 | the loops over questions and answers compute the message a packet is, on any bytes |
| DnsMessage.ReadAnswers | crates/zou-deno/src/dns.rs:534-560 | as many answers as the header says, in order, or a failure, the cursor always within the packet |
| DnsMessage.ReadAnswer | crates/zou-deno/src/dns.rs:536-549 | one answer's owner, fields and data, the cursor past them and within the packet |
| DnsMessage.SkipQuestions | crates/zou-deno/src/dns.rs:529-533 | the questions are passed over whole or not at all, the cursor within the packet |
| DnsMessage.ReadRecord | crates/zou-deno/src/dns.rs:594-664 | the record of each type its data spells |
| DnsVerdicts.DecodedIff | crates/zou-deno/src/dns.rs:594-664 | a record is read out of data if and only if the data says it in the form of that type |
| DnsVerdicts.AnswersIff | crates/zou-deno/src/dns.rs:499-570 | any packet is an answer with given records if and only if it has a whole header with the question's id and no error code, is laid out as its counts say, and those are its records of the asked type and class, in order |
| DnsVerdicts.FailsAs | crates/zou-deno/src/dns.rs:499-570 | every other packet fails: with the code's own failure for codes 1 to 5, as a bad response for a higher code, another question or a layout that does not hold, and with no data exactly where it is laid out and holds nothing asked for |
| DnsLayout.RecordReadsBack | crates/zou-deno/src/dns.rs:594-664 | every record laid out as its type's data decodes to itself |
| DnsResponse.AnswersAreRead | crates/zou-deno/src/dns.rs:534-560 | answers laid out one after another are read as exactly those of the asked type and class |
| DnsResponse.ReadAnswersAreLaidOut | crates/zou-deno/src/dns.rs:534-560 | answers are read from a packet if and only if such a list of them is laid out in it |
| DnsResponse.PacketIsRead | crates/zou-deno/src/dns.rs:499-570 | a packet holding a response to the question reads as exactly its decodable records of the asked type and class, in order |
| DnsResponse.ResponseIsSuchAPacket | crates/zou-deno/src/dns.rs:673-693 | the response built from any question and records is such a packet |
| DnsResponse.MessageIsRead | crates/zou-deno/src/dns.rs:499-570 | the same of any packet that lays its answers out, built here or not |
| Versions.VersionsAreTotal | crates/zou-deno/src/npm.rs:106-144 | versions are totally ordered, equal only when identical, prereleases of every shape included |
| Versions.BelowIff | crates/zou-deno/src/npm.rs:106-144 | a version is below another if and only if item 11 of Semantic Versioning 2.0.0 says so: numbers first, a prerelease below its release, then identifier by identifier, numbers as numbers and below texts, texts by character, the shorter list below |
| Ranges.BestIsUnique | crates/zou-deno/src/npm.rs:230-241 | the best version is the one listed and allowed that no other listed and allowed one is above, and there is one |
| Ranges.BestDependsOnlyOnWhatIsAllowed | crates/zou-deno/src/npm.rs:230-241 | order, repetition and versions the range rejects change nothing |
| Ranges.SetsAreConvex | crates/zou-deno/src/npm.rs:244-266 | the releases one set of comparators allows have no gap |
| Ranges.PrereleasesAreAskedFor | crates/zou-deno/src/npm.rs:244-253 | a prerelease no comparator names the numbers of is not allowed |
| Ranges.AllowsIff | crates/zou-deno/src/npm.rs:226-266 | a range allows a version if and only if in one of its sets every comparator stands under that order and, of a prerelease, one is a prerelease of the same numbers |
| Ranges.CaretAndTildeOfAPrerelease | crates/zou-deno/src/npm.rs:337-374 | of prereleases, a caret or tilde allows exactly those of P's own numbers at or past P, when P is one |
| Ranges.BareOfAPrerelease | crates/zou-deno/src/npm.rs:377-415 | of prereleases, a bare P allows exactly P, when written in full |
| Ranges.CaretKeepsTheLeftmost | crates/zou-deno/src/npm.rs:337-356 | a release is in `^P` if and only if it is at least P's floor and keeps P's leftmost nonzero number |
| Ranges.TildeKeepsTheMinor | crates/zou-deno/src/npm.rs:358-374 | a release is in `~P` if and only if it is at least the floor and keeps the major, and the minor when named |
| Ranges.BareMeansWhatItNames | crates/zou-deno/src/npm.rs:377-415 | a release is in a bare P if and only if it agrees with all P names |
| Ranges.BelowWithinAbove | crates/zou-deno/src/npm.rs:377-502 | each release is in exactly one of `<P`, P and `>P` |
| Ranges.OppositesSplitTheReleases | crates/zou-deno/src/npm.rs:474-502 | `>=P` is exactly not `<P`, and `<=P` exactly not `>P` |
| Ranges.HyphenIsTwoBounds | crates/zou-deno/src/npm.rs:283-313 | `A - B` is `>=A` and `<=B`, prereleases included, and nothing when B names no major |
| Ranges.EqualsFillsHolesWithZeros | crates/zou-deno/src/npm.rs:474-502 | `=P` is the one version with zeros in the holes |
| Ranges.TildeIsBareIff | crates/zou-deno/src/npm.rs:330-374 | a tilde on words with a hole is the bare words if and only if they name a major |
| Jsonc.Plain | crates/zou-deno/src/imports.rs:261-343 | the one pass gives what dropping comments and then trailing commas gives, on every text |
| Jsonc.OnePassIsBoth | crates/zou-deno/src/imports.rs:261-343 | looking ahead in the text at a comma sees what stripping the comments first would |
| Jsonc.LiteralsSurvive | crates/zou-deno/src/imports.rs:267-286 | string literals come through verbatim, all of them and nothing else |
| Jsonc.LineCommentGoes | crates/zou-deno/src/imports.rs:287-292 | in any text and at any place outside a string or comment, a line comment changes nothing, and its line break stays |
| Jsonc.BlockCommentGoes | crates/zou-deno/src/imports.rs:293-299 | nor does a block comment, which ends at the first mark that can end it |
| Jsonc.OpenCommentsGo | crates/zou-deno/src/imports.rs:287-299 | a comment that does not end takes the rest of the text |
| Jsonc.CommaGoesIff | crates/zou-deno/src/imports.rs:300-329 | a comma goes if and only if, white space aside, a closing bracket or brace is next |
| Jsonc.OthersComeThrough | crates/zou-deno/src/imports.rs:330-339 | every other character comes through too, a slash that begins no comment among them |
| Jsonc.StringsComeThrough | crates/zou-deno/src/imports.rs:267-286 | a string comes through whole, escapes and all, and what follows is outside one |
| Jsonc.OnlyLeavesOut | crates/zou-deno/src/imports.rs:261-343 | the output is the input with characters left out |
| Jsonc.UnchangedIff | crates/zou-deno/src/imports.rs:261-343 | a text is unchanged if and only if no comment starts and no comma trails outside a string |
| Jsonc.Peek | crates/zou-deno/src/imports.rs:300-325 | the look ahead finds the next character that is neither white space nor in a comment |
| Jsonc.TwoCommas | crates/zou-deno/src/imports.rs:300-329 | one pass over two trailing commas leaves one, so a second pass can change the text again |
| ImportMaps.MatchedByTheLongest | crates/zou-deno/src/imports.rs:140-177 | the longest covering key decides, and a package's subpath only when no key covers |
| ImportMaps.ExactKeyWins | crates/zou-deno/src/imports.rs:140-144 | an exact key answers whatever prefixes there are |
| ImportMaps.UnmatchedIff | crates/zou-deno/src/imports.rs:140-177 | a specifier is unanswered if and only if no key covers it and no package has it |
| ImportMaps.CoversIff | crates/zou-deno/src/imports.rs:140-152 | a key covers itself, and if it ends in a slash whatever goes on from there, and nothing else |
| ImportMaps.CoversInPackageIff | crates/zou-deno/src/imports.rs:166-175 | a package covers its name, a slash and anything after, and nothing else |
| ImportMaps.WrittenOrderIsNothing | crates/zou-deno/src/imports.rs:218-243 | the order entries are written in changes no answer |
| ImportMaps.ResolvedByTheInnermost | crates/zou-deno/src/imports.rs:120-136 | the longest containing scope that answers decides, and the top of the map when none does |
| Reexports.NamesAreHonest | crates/zou-deno/src/cjs.rs:189-227 | on every graph, cycles included, each file is read once at most, every name is a usable one of a reachable file, and a failure is that of a reachable file |
| Reexports.NamesOfNineFilesAreAll | crates/zou-deno/src/cjs.rs:45-227 | where at most nine files are reachable the names are exactly all of theirs, and it fails exactly when one cannot be read |
| Reexports.WalkIsDone | crates/zou-deno/src/cjs.rs:196-227 | with nine files to reach, every link of a file that is done has been seen whatever the depth limit cut |
| Reexports.UsableIff | crates/zou-deno/src/cjs.rs:236-281 | a name is usable if and only if it is a letter, underscore or dollar followed by those or digits, and not reserved |
| Reexports.TwoStepsAwayIsMissed | crates/zou-deno/src/cjs.rs:196-227 | ten files of which one two re-exports away is missed, because the walk came to the file before it the long way first |
| Calendar.CivilIsTheCalendar | conformance/src/sigv4.rs:187-198 | for every count of days the closed form is the date reached from 1970-01-01 a day at a time under the rule of four, a hundred and four hundred |
| Calendar.DatesCompareAsDays | conformance/src/sigv4.rs:187-198 | dates are ordered as day counts are |
| Stamps.StampSays | conformance/src/sigv4.rs:173-198 | a stamp before the year 10000 is sixteen characters whose digits are the date of the day a day at a time from 1970-01-01 and the time of that day |
| Stamps.StampsAreOrderedIff | conformance/src/sigv4.rs:173-182 | stamps compare as texts the way their seconds do, before a moment, if and only if it is no later than the start of the year 10000 |
| Stamps.FiveDigitsReadAsEarlier | conformance/src/sigv4.rs:173-182 | the first stamp of the year 10000 reads as before the epoch's |
| Statements.Split | conformance/src/derive.rs:512-575 | on every text the statements are its pieces at exactly the semicolons in code for an automaton that goes past a dollar tag by its bytes, as the code does |
| Statements.EvenTextsAreCutAsWritten | conformance/src/derive.rs:539-545 | those are the semicolons of an automaton that takes dollar quotes as they are written, in every text whose quotes have tags of one byte characters or go on to its end |
| Statements.StopsAlikeIff | conformance/src/derive.rs:539-545 | for any quote, the code goes on where the quote ends if and only if its tag has as many bytes as characters or the text ends there |
| Statements.WidthIs | conformance/src/derive.rs:540-545 | a character takes as many bytes as the table of section 3 of RFC 3629 says |
| Statements.WideTagSwallowsASemicolon | conformance/src/derive.rs:540-545 | a text whose tag has a letter of two bytes, and whose one semicolon the code does not cut at |
| Statements.WideTagMissesItsEnd | conformance/src/derive.rs:540-545 | one where the code does not find the closing tag at all |
| Statements.StatementsJoin | conformance/src/derive.rs:512-514 | joining the statements gives the text back |
| Statements.SemisAreAll | conformance/src/derive.rs:551-567 | those semicolons are all and only the ones in code, in order |
| Statements.CommentsHide | conformance/src/derive.rs:521-527 | from two dashes in code no semicolon cuts up to the line break, and after it is code |
| Statements.QuotesHide | conformance/src/derive.rs:528-538 | from a quote in code none cuts up to the next quote, and after it is code |
| Statements.DollarsHide | conformance/src/derive.rs:539-550 | from a dollar tag none cuts up to that same tag again, and after it is code |
| Statements.PlainTextsAreCode | conformance/src/derive.rs:551-567 | with no dash, quote or dollar every semicolon cuts |
| Statements.PassDollar | conformance/src/derive.rs:539-550 | a quote is passed up to so many characters past its first closing tag as the reader goes past a tag, or to the end of the text, and any other dollar is code |
| Statements.Find | conformance/src/derive.rs:602-606 | the first place a tag is written from a position on |
| JsonDiff.WalkNamesNothingIff | conformance/src/diff.rs:174-210 | the walk names nothing if and only if the two trees are equal |
| JsonDiff.WalkNamesEachOnce | conformance/src/diff.rs:174-216 | no place is named twice, because escaping keys is injective, and the sides differ at each |
| JsonDiff.WalkNamesTheInnermost | conformance/src/diff.rs:174-210 | no place that is named could be walked into: two objects never are, nor two arrays of one length |
| JsonDiff.FieldsAreInOrder | conformance/src/diff.rs:182-194 | the differences under an object are named in the order of its keys, before they are escaped |
| JsonDiff.ItemsAreInOrder | conformance/src/diff.rs:200-204 | and under an array in the order of its places |
| JsonDiff.WalkShows | conformance/src/diff.rs:174-216 | each pointer, followed in either tree, gives what the line says that side has |
| JsonDiff.EscapedOnce | conformance/src/diff.rs:212-216 | what a key is escaped to says what the key was |
| JsonDiff.EscapedReadsBack | conformance/src/diff.rs:212-216 | and it is read back by the rule of section 4 of RFC 6901 |
| Answers.Compare | conformance/src/diff.rs:33-172 | the verdict is Different if and only if status, headers, body or the multiset of number literals differ, Same if and only if the bytes agree too, and the lines are all there is to say and no more: status, each differing header by name, the first dozen differing places of the bodies and how many more, the numbers, or the bytes, in that order |
| Answers.PlacesAreShown | conformance/src/diff.rs:158-210 | each place named is a pointer that finds in either body what its line says, and the two differ |
| Answers.Numbers | conformance/src/diff.rs:103-136 | the number literals outside strings as written, in order of text |
| Answers.LiteralsAreNumbers | conformance/src/diff.rs:103-136 | place by place: each literal begins at a digit or minus where an automaton for strings and escapes is outside both, goes on as far as a number does, and every such place is one |
| Base32.Encode | crates/zou-server/src/totp.rs:45-61 | the 32 bit accumulator writes characters of the alphabet, and their places in it spell the bytes' number with zeros up to a whole symbol |
| Base32.Decode | crates/zou-server/src/totp.rs:66-82 | the 32 bit accumulator gives the bytes of the symbols' number, every whole eight bits and no more, and nothing exactly when a character has no place in the alphabet |
| Base32.EncodingDecodes | crates/zou-server/src/totp.rs:43-82 | decoding undoes encoding at every length |
| Base32.TheAlphabet | crates/zou-server/src/totp.rs:45-61 | the alphabet is table 3 of RFC 4648 |
| Base32.Wrapped | conformance/src/totp.rs:65-79 | the bits read off the word are the bits of the unbounded number |
| Base32.WordsAreNumbers | crates/zou-server/src/totp.rs:45-82 | the shifts, ors and masks on the word are the arithmetic used here |
| OneTimeCodes.SecretsReadBack | conformance/src/totp.rs:58-79 | a secret written in either case with any padding decodes to its bytes on the server and in the harness |
| OneTimeCodes.EncodedReadsBack | conformance/src/totp.rs:58-79 | what the encoder writes for any bytes is read back as those bytes by the server and by the harness |
| OneTimeCodes.HarnessIsFollowed | conformance/src/totp.rs:1-12 | the server gives the harness's bytes for every secret the harness accepts |
| OneTimeCodes.HalvesDifferIff | conformance/src/totp.rs:58-79 | the two decoders differ on a text if and only if every character the server reads has a place for it, and there is white space around the text, something after its padding, or a letter outside ASCII |
| OneTimeCodes.ReadsALowByteIff | crates/zou-server/src/totp.rs:70-74 | the two look a letter up differently if and only if it is outside a byte and its low byte is in the alphabet |
| OneTimeCodes.ServerReadsALowByte | crates/zou-server/src/totp.rs:70-74 | a letter outside ASCII is a symbol to the server when its low byte is |
| OneTimeCodes.SixDigitsOfTheTruncation | conformance/src/totp.rs:33-47 | always six digits, the low six of 31 bits of the four bytes the digest points into itself at |
| OneTimeCodes.CodesLast | crates/zou-server/src/totp.rs:123-153 | what a phone shows is let in for thirty seconds either side |
| OneTimeCodes.CodesExpire | crates/zou-server/src/totp.rs:123-140 | where no two steps show one code, it is let in for less than a minute either way |
| OneTimeCodes.CountersApart | crates/zou-server/src/totp.rs:138-140 | steps less than a whole word apart are hashed as different counters |
| OneTimeCodes.Same | crates/zou-server/src/totp.rs:169-179 | the comparison that never stops early is equality |

## Left out

- Takeover.AckedStays: holds of runs whose deletes arrive while the manifest names the line that sent them, and `TakeoverRaces.DeleteLosesIff` says when another delete loses what was acknowledged.
- Recovery.ChainReads: holds of runs in which seals go on a seal or on a run of the owner's own windows. `Recovery.GuardIsExact` says when a seal links at all, and `TakeoverRaces.ResendsCanBreak` that one which links on other windows need not stay linked.
- Takeover.StepKeeps: leaves out consolidation, so the log begins at position 1. What the digests of a line's windows say is chosen when the line begins.
- Landing.HeadLeftBy: is about one line; `Recovery.NothingIsFar` is about all of them, in runs that keep the guard on seals. Nothing is said of how far from a hole the rest leave what they wrote.
- Quorum.KeepsTheShardIff: is about one position and is not put together with `Takeover`, whose store has one medium.
- Quorum.RefusedByAnOwnerIff: is about a sealer nobody interrupts; `Quorum.TwoWinsOwn` is about every interleaving.
- ChainHead.Head: is about a store that does not change while it is probed; `Takeover` lets the answer of the search be any position at or past the manifest's head that was taken when it answered, which every order of probes is a case of.
- BufferBudget.CountIsHonest: does not model the machine word the counter wraps in, which takes more bytes than there is address space.
- CpuClock.ReadingNeverOvercounts: does not model 64 bit wrap-around of nanoseconds, which is past five hundred years.
- Calls.AnswersReachTheirOwnCaller: says when an answer was made and not by whose code; work a timed out drain left running can still answer in the next call.
- DnsMessage.Read: keeps names as bytes; the lossy conversion to UTF-8 for the caller is not modelled.
- Ranges.CaretKeepsTheLeftmost: numbers are unbounded, so a bound past the largest 64 bit number is not modelled; reading a range from its text is left out, with the extra components `loose` tolerates.
- Answers.Compare: a body and its text are two fields of an answer; the parser and serializer between them are not modelled, and how a line is printed and cut is not.
- Statements.Split: which characters are letters and digits is a parameter, and nested comments and escape strings are left out because the code does not know them.
- OneTimeCodes.CodesLast: the keyed hash is a parameter.
- Segment encoding, the tee, consolidation and garbage collection of the log, and writer epochs per tenant.
- Sockets, resolvers and the choice of transaction ids around the DNS messages.
- v8, tokio and the interrupts the watchdog raises; they are steps of the machines here.
- Where modules come from: package trees, tarballs, fetching, and the parser that finds a script's exports.
- The import map file around its entries: pointing at another file, joining urls, and the entries thrown away.
- Request signing, apart from its time stamp; hashing and keyed hashing everywhere.
- The storage engine, the page server, branching, authentication and the rest of the server.
