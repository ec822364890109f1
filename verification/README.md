# The control and obfuscation layer, modelled and proved

This project is a Dafny model of the parts of the repository that keep state over
unbounded runs and promise something about all of them:

- the disco demultiplexer: its replay window, tag and peer indexes, codec, padding
  target and epoch ticker (`DiscoReplay`, `DiscoConn`, `DiscoCodec`, `WireLens`,
  `DiscoTicker`);
- the path selector (`PathSelector`, `SelectorHistory`);
- the replay defence of Salamander v2 and the corrected clock it may run on (`Salamander`,
  `TimeSource`);
- Gecko fragmentation (`GeckoFrame`, `GeckoConn`);
- hole punching: the probe generator, the plan, the pacing and the send loop
  (`NatProbes`, `PunchPlans`, `PunchPacing`, `PunchEngine`);
- the link monitor's coalescing loop (`LinkMon`) and the SNTP client (`Sntp`).

`Common.dfy` holds what they share: time in nanoseconds, addresses, an ideal sealed box,
big-endian integers and sorting. `dafny verify dfyconfig.toml` checks the whole project.

Objects whose methods update fields are classes, loops are loops with invariants, and each
such method is proved against a function or a predicate about which the main results are
then stated. Concurrent code is a state machine whose steps are lock sections, atomic
operations and channel operations; its results hold for every interleaving of them.

How the outside world enters:

- Every clock reading is a parameter, and nothing is assumed about readings unless a
  contract says so. Go's `time.Time` carries a wall clock and, from `time.Now`, a monotonic
  one that `Sub`, `Before` and `After` go by. Where the code uses both (`Salamander`,
  `TimeSource`, `Sntp`) a reading is an `Instant` with both; a module that uses one of them
  takes that one as an integer: the wall clock in `DiscoCodec`, `DiscoConn` and `WireLens`,
  elapsed time elsewhere.
- ChaCha20-Poly1305 is a value that only its own key, nonce and additional data open. A tag
  is an arbitrary function of key and epoch, so tags may collide.
- Random draws are parameters or arbitrary choices, and the results hold for all of them.
- Sockets are the sequences of datagrams they deliver and take.

## What turned out to have an edge

Most properties hold as the comments state them. These hold on a condition, which is proved
exact in both directions:

- Salamander v2 takes the timestamp window by the wall clock and turns its replay buckets by
  elapsed time. It accepts no packet twice as long as the wall clock never lags more than 29
  seconds and one nanosecond behind elapsed time from one call to another; on a clock without
  a monotonic part that means never falling further than that below an earlier reading. One
  nanosecond more and, on either kind of clock, there is a run that accepts a packet twice. On
  `time.Now` that run's readings only rise: the wall clock was set back between two calls
  (`Salamander.ToleranceIsExact`, `Salamander.TwiceOnSystemClock`,
  `Salamander.TwiceOnStrippedClock`).
- `timesource.Clock` keeps its correction through any movement of the system clock of up to 15
  seconds either way, which is meant to stay well inside the replay window
  (`extras/timesource/clock.go:8-12`). Its readings can then fall by 30 seconds, so a receiver
  timed by it can accept a packet twice; up to 14.5 seconds it cannot
  (`TimeSource.ThresholdIsExact`, `TimeSource.StepThresholdIsTooLarge`).
- A tag table covers every packet the timestamp check lets through exactly when the wall clock
  is within 90 seconds, either way, of where it stood at the refresh
  (`DiscoCodec.StaleLimitIsExact`).
- The boot barrier is lifted by elapsed time. What it keeps out is every packet stamped before
  the second of the start, less the time by which the wall clock has come to lag since: started
  at 1000 s, set back to 900 s and read 31 seconds after the start, it lets a stamp of 900 s
  through (`Salamander.NothingFromBeforeBoot`, `Salamander.BarrierIsExact`,
  `Salamander.SetBackLiftsBarrier`).
- A restart loses the replay set and keeps the key. No packet accepted before it is accepted
  after it exactly when the new process starts, by the wall clock and less any lag it comes to
  have, more than 30 seconds after the acceptance, counted in whole seconds. Within that time a
  packet stamped by a clock running ahead is accepted twice: one stamped 1030 s is accepted at
  1000 s, and again by a process that started at 1001 s. The comment on the barrier
  (`extras/obfs/salamander_v2.go:95-101`) says it makes the replay set cover all of history
  before boot (`Salamander.RestartIsExact`, `Salamander.AcceptedAcrossRestart`).
- A healthy connection that sends keep-alives is never left, however it is polled, exactly
  when its packets are at most the threshold apart. An idle one, whose packets are the answers
  to its pings, is kept exactly when no answer takes more than the 2 s slack longer than the
  estimate, which is what bounds the reroute it survives
  (`PathSelector.ThresholdIsExact`, `PathSelector.IdleConnectionIsKept`,
  `PathSelector.IdleRerouteTolerated`).
- "Each candidate is tried once" (`core/selector/selector.go:75-77`) holds on a connection
  as long as no reading finds it at an address the policy did not put it at. After such a
  reading a candidate can be ordered again (`PathSelector.SecondOrderNeedsMove`,
  `PathSelector.SecondOrderAfterMove`).
- `ProbeRate` is documented to cap the probes sent per second
  (`extras/realm/punch_engine.go:91`). It does, within every second of every run, exactly
  when it is at least 4096, the most probes a plan has, or when the second is a whole number
  of whole gaps, as for the default of 100. At 12 per second, for one, gaps of 83 333 333 ns
  let a thirteenth probe out (`PunchPacing.CapIsExact`). From 92 233 720 370 per second on
  the gap's computation wraps around in 64 bits, which has no effect: one burst then holds
  every probe there can be (`PunchPlans.PacingKeepsRate`, `PunchPlans.PacedOrOneBurst`).
- The link monitor's timer is due by the cap after the burst began, but a notification taken
  while it is already due starts it afresh, to be due at once. A report made
  at the reading its timer is due lands by the cap exactly when the last notification of the
  burst was taken by then (`LinkMon.ReportByCap`, `LinkMon.ReportPastCap`); the comment at
  `app/internal/linkmon/linkmon.go:268-269` says it always lands by it.
- A disco address comes back from the wire unmapped and otherwise unchanged unless it
  carries an IPv6 zone, which the format drops (`DiscoCodec.WireAddrOnlyUnmaps`).
- An NTP timestamp reads back to within a nanosecond exactly for instants between 1968 and
  2104, and the client refuses a good reply answered at the very instant the 2036 era
  starts, because that timestamp is all zeros (`Sntp.StampRoundTrip`,
  `Sntp.GoodReplyAccepted`).

## Model

| member | source | states |
|---|---|---|
| DiscoReplay.Accept | extras/realm/disco_conn.go:1064-1100 | the 64-bit window refines the set of all accepted numbers: a number is accepted exactly when it is new and fewer than 64 behind the highest, and the window afterwards represents the enlarged set |
| DiscoReplay.SlideRefinesSet | extras/realm/disco_conn.go:1064-1100 | whatever set of accepted numbers a window represents, its verdict on the next is the set's and its next state represents the enlarged set |
| DiscoReplay.WithBitTest | extras/realm/disco_conn.go:1070-1100 | or-ing in one bit of the window's word sets that bit and changes no other |
| DiscoReplay.ShiftedBit | extras/realm/disco_conn.go:1070-1100 | shifting the 64-bit word moves each bit up by the distance and drops the ones that leave the window |
| DiscoReplay.LinkInvHolds | extras/realm/disco_conn.go:548-558 | in every interleaving of senders' loads and compare-and-swaps with deliveries, the counter is the number of numbers issued and below the ceiling, and the receiver's 64 bits represent all it let through |
| DiscoReplay.IssuedNumbersNeverWrap | extras/realm/disco_conn.go:548-558 | concurrent senders are issued 1, 2, 3, ... with none skipped or repeated and none at or above the ceiling |
| DiscoReplay.SwapIsExact | extras/realm/disco_conn.go:548-558 | a sender's compare-and-swap issues the next number if and only if none was issued since its load and the ceiling is not reached, so below the ceiling one fails only because another succeeded |
| DiscoReplay.AcceptedAtMostOnce | extras/realm/disco_conn.go:1051-1100 | over a network that drops, reorders and duplicates, the window, with its 64 bits for all memory, lets every number through at most once and only if it was sent |
| DiscoReplay.FirstArrivalInWindowAccepted | extras/realm/disco_conn.go:1070-1100 | at any point of any run the window's verdict on a delivery is true exactly for a number that never got through before and is fewer than 64 behind every number that did |
| DiscoTicker.InvHolds | extras/realm/disco_conn.go:961-1049 | the invariant of the two-lock protocol holds at every step of every interleaving of admissions, removals, Close, their syncs and the ticker goroutine |
| DiscoTicker.QuiescentTickerMatchesTable | extras/realm/disco_conn.go:961-998 | once no sync is pending the ticker runs exactly when the conn is open and has a session |
| DiscoTicker.StartFindsNoGoroutine | extras/realm/disco_conn.go:1000-1017 | a ticker is only started when no earlier goroutine is left, so there are never two |
| DiscoTicker.CloseIsFinal | extras/realm/disco_conn.go:1038-1049 | after Close nothing is admitted, and with no sync pending there is no goroutine |
| DiscoTicker.SessionsAreTheTable | extras/realm/disco_conn.go:370-462 | in every run the table is what the admissions, removals and Close of the run make of it |
| DiscoTicker.AdmissionIsExact | extras/realm/disco_conn.go:370-413 | an admission goes through if and only if there was no Close and its id is not in that table |
| DiscoTicker.QuiescentTickerMatchesEvents | extras/realm/disco_conn.go:961-998 | with no sync pending the goroutine exists if and only if there was no Close and the events of the run leave a session |
| DiscoTicker.InternalStepsRunOut | extras/realm/disco_conn.go:986-1036 | every step of a change, a sync or the goroutine, except a new tick, lowers a measure of what remains |
| DiscoTicker.WorkIsBounded | extras/realm/disco_conn.go:986-1036 | in every run those steps number at most what remained at its start, plus six for each call begun and four for each tick, so nothing spins |
| DiscoTicker.EveryScheduleFinishes | extras/realm/disco_conn.go:980-1036 | with no new call and no tick every schedule ends within what remains, and one that cannot go on has finished every change and sync and left the ticker matching the table |
| DiscoTicker.SessionLockIsReleased | extras/realm/disco_conn.go:980-998 | whoever holds the session lock, a change, a sync's read or the goroutine's refresh, waits for nothing and can let go of it |
| DiscoTicker.SomeInternalStep | extras/realm/disco_conn.go:980-1036 | while a change or a sync is pending some step is possible: tickerMu, the session lock, the stop channel and the join never deadlock |
| DiscoTicker.PendingSyncsFinish | extras/realm/disco_conn.go:986-1036 | from every state that keeps the invariant some schedule carries the pending changes and syncs to the end without changing what the table says, and the ticker then matches it |
| DiscoCodec.AppendCallMe | extras/realm/disco.go:548-564 | the candidate loop appends what the specification of the payload says, or fails on the first address that is not one |
| DiscoCodec.ParseCallMe | extras/realm/disco.go:608-635 | the parsing loop returns exactly what the recursive specification of the candidate list does, errors included |
| DiscoCodec.AddrRoundTrip | extras/realm/disco.go:689-731 | an address parses back from its bytes, whatever follows them, in wire form and with its length |
| DiscoCodec.CandidatesRoundTrip | extras/realm/disco.go:548-635 | a list is encodable exactly when every address is valid, takes at most 20 bytes a candidate, and parses back |
| DiscoCodec.PayloadRoundTrip | extras/realm/disco.go:533-687 | for all five types: encodable exactly when well formed, at most 321 bytes, and parsing back to the packet in wire form |
| DiscoCodec.EncodeFits | extras/realm/disco.go:411-454 | encoding succeeds exactly for encodable packets with room, never fails for want of room from 369 to 1452 bytes, and gives exactly the length asked for |
| DiscoCodec.EnvelopeRoundTrip | extras/realm/disco.go:411-531 | encoded by one role, a packet decodes at the other if and only if its second is within 30 of the receiver's clock and its number is not zero, and then comes back with its addresses in wire form; outside the 30 seconds it is refused with its skew, or as no disco packet once its tag is no longer held |
| DiscoCodec.DecodedWasSealed | extras/realm/disco.go:497-531 | whatever decodes was sealed by the key for this tag and nonce, starts with 0x02, holds a second within 30 of now and a number that is not zero, and is the packet those bytes write down |
| DiscoCodec.SealedIsDecoded | extras/realm/disco.go:497-531 | and whatever was so sealed and written decodes to that packet |
| DiscoCodec.ParsesAsWritten | extras/realm/disco.go:582-731 | a payload parses to a packet if and only if it is that packet written down, to its last byte, an IPv4 address in either of its two forms |
| DiscoCodec.EncodedLayout | extras/realm/disco.go:411-454 | what is encoded, byte by byte: version, type, length, second, number, payload and zeros under the seal, with the epoch's tag bound to it |
| DiscoCodec.KeysFollowRole | extras/realm/disco.go:280-325 | keys exist exactly for secrets of 32 bytes or more, and each direction has its own |
| DiscoCodec.ReflectionNeverAuthentic | extras/realm/disco.go:280-325 | a packet bounced back at the end that sealed it is never authentic there |
| DiscoCodec.WireAddrOnlyUnmaps | extras/realm/disco.go:689-731 | the wire changes an address only by unmapping it, exactly unless it carries a zone |
| DiscoCodec.StaleLimitIsExact | extras/realm/disco.go:88-106 | three epochs of tags cover every packet in the timestamp window if and only if the wall clock is at most 90 seconds from where it stood at the refresh |
| DiscoCodec.TagHeldWhenFresh | extras/realm/disco.go:329-358 | a packet the timestamp check lets through carries a tag held by a table refreshed at most 90 seconds away |
| DiscoConn.Session.AcceptSeq | extras/realm/disco_conn.go:1051-1062 | a session's window keeps representing every number it accepted, and the verdict is the set's |
| DiscoConn.AppendedIndexes | extras/realm/disco_conn.go:896-910 | appending to a bucket adds exactly one pair to the relation an index holds |
| DiscoConn.DroppedIndexes | extras/realm/disco_conn.go:864-894 | dropping from a bucket removes exactly one pair and leaves no empty bucket |
| DiscoConn.Conn.RebuildTags | extras/realm/disco_conn.go:922-944 | the rebuilt index holds exactly the live sessions under their three tags of the new epoch |
| DiscoConn.Conn.AddTags | extras/realm/disco_conn.go:846-862 | an incremental addition leaves the same index a rebuild would, and rebuilds when the epoch has turned |
| DiscoConn.Conn.DropTags | extras/realm/disco_conn.go:864-894 | dropping removes a session's own tags from the relation and nothing else |
| DiscoConn.Conn.RefreshTags | extras/realm/disco_conn.go:946-959 | a refresh keeps every index exact and leaves a table with sessions at the current epoch |
| DiscoConn.Conn.AddSession | extras/realm/disco_conn.go:370-413 | admission succeeds exactly for a new id with a valid peer on an open conn, adds that session alone, and keeps every index exact |
| DiscoConn.Conn.SetSessionPeer | extras/realm/disco_conn.go:423-444 | only the named session's peer changes, to the normalised address, and the peer index stays exact |
| DiscoConn.Conn.RemoveSession | extras/realm/disco_conn.go:446-462 | exactly that id goes, from all three tables |
| DiscoConn.Conn.Close | extras/realm/disco_conn.go:1038-1049 | all tables are empty and the conn is closed |
| DiscoConn.Conn.SampledSessions | extras/realm/disco_conn.go:592-608 | the lookup by peer gives exactly the live sessions with that peer, each once |
| DiscoConn.Conn.Route | extras/realm/disco_conn.go:751-795 | the bucket walk finds a session exactly when some live session holds the tag and opens the datagram |
| DiscoConn.Conn.Dispatch | extras/realm/disco_conn.go:751-795 | a datagram is consumed exactly when it is claimed, goes to QUIC otherwise, and changes only the one session that takes it, by one number and at most one event; what is delivered is within 30 seconds of now, sealed by the session's key and under a number it had not accepted |
| DiscoConn.OneLookupIsTrialDecoding | extras/realm/disco_conn.go:751-795 | when the table's epoch is current, one lookup claims a datagram if and only if decoding it under some live session's keys would find it authentic |
| DiscoConn.GenuinePacketFound | extras/realm/disco_conn.go:751-795 | a peer's packet within the timestamp window is claimed and read as sent by any table refreshed at most 90 seconds away |
| DiscoConn.PeerPacketIsJudged | extras/realm/disco_conn.go:751-795 | what becomes of a peer's packet whenever it comes: refused with its skew outside 30 seconds, refused for a zero number, dropped as a replay exactly when the number was accepted before or is 64 or more behind one that was, delivered as sent otherwise |
| DiscoConn.OnlyItsOwnSession | extras/realm/disco.go:497-531 | sessions that claim one datagram open with the same key, even where tags collide |
| WireLens.CountRuns | extras/realm/disco_conn.go:710-728 | counting runs in a sorted list finds its mode, ties to the longer |
| WireLens.ModeUnique | extras/realm/disco_conn.go:659-664 | the mode with ties to the longer is unique, so the contracts below determine the target |
| WireLens.Lens.Observe | extras/realm/disco_conn.go:642-657 | the ring holds the last 64 accepted samples, and a length no disco packet can have is not accepted |
| WireLens.Lens.Mode | extras/realm/disco_conn.go:684-728 | zero exactly when nothing was accepted, otherwise the mode of the last 64 samples no more than 10 seconds older than the newest |
| WireLens.ConsideredInRange | extras/realm/disco_conn.go:659-683 | the target is always a length sent within that window, and one a disco packet can be built at |
| WireLens.ConsideredCounts | extras/realm/disco_conn.go:684-728 | a length counts once for each of the last 64 accepted samples that has it and is at most ten seconds older than the newest of them |
| WireLens.MajorityDecides | extras/realm/disco_conn.go:659-683 | a strict majority of the fresh samples decides the target |
| PathSelector.Selector.Observe | core/selector/selector.go:528-613 | the imperative decision takes the same branch and leaves the same state as the policy function |
| PathSelector.Selector.FindNext | core/selector/selector.go:635-645 | the first configured candidate that is neither tried nor current |
| PathSelector.Selector.SwitchFailed | core/selector/selector.go:622-633 | exactly when the policy is still on the failed address, that address counts as tried and the address and silence from before the switch come back; a lost connection ends the search |
| PathSelector.SwitchesBounded | core/selector/selector.go:504-669 | on one connection the switches are at most the distinct candidates plus the readings that found another address than the policy believed |
| PathSelector.ThresholdIsLeast | core/selector/selector.go:366-442 | the threshold is the least time that leaves a round trip and two seconds after both the bounded keep-alive period and one and a half probe timeouts |
| SelectorHistory.DecisionIsExact | core/selector/selector.go:528-613 | every decision of every run follows from what was read, reported and decided before: stay without a connection, before the threshold of silence, or with keep-alives off; past it give up exactly when the candidates are used up or the connection is gone, and otherwise switch to the first one left |
| SelectorHistory.FieldsTrackHistory | core/selector/selector.go:444-503 | at every point of every run the selector's fields are that history's place, silence and struck-off addresses |
| SelectorHistory.SilenceGoesBackTo | core/selector/selector.go:528-570 | the silence a live reading is judged by goes back to the last reading that showed life, found another address or drew an order |
| SelectorHistory.NoKeepAliveStays | core/selector/selector.go:66-75 | with keep-alives off no reading of any run draws anything but stay |
| PathSelector.SecondOrderNeedsMove | core/selector/selector.go:75-93 | between two orders of one candidate on a connection lies a reading that found another address than the policy believed |
| PathSelector.SecondOrderAfterMove | core/selector/selector.go:528-613 | after such a reading a candidate can be ordered a second time |
| PathSelector.HealthyConnectionStays | core/selector/selector.go:427-442 | while packets arrive at most a threshold apart from the first reading on, no polling schedule draws anything but stay |
| PathSelector.ThresholdIsExact | core/selector/selector.go:427-442 | the threshold is exactly the longest such spacing: with any longer one some healthy connection is left |
| PathSelector.SlowConnectionIsLeft | core/selector/selector.go:528-613 | a healthy run with packets a given gap apart, and readings at which it is left when the gap exceeds the threshold |
| PathSelector.IdleConnectionIsKept | core/selector/selector.go:114-136 | with each packet the answer to a ping sent an interval after the one before, an idle connection is never left, however polled, if and only if no round trip exceeds the estimate by more than the slack |
| PathSelector.LateAnswerIsLeft | core/selector/selector.go:398-410 | for every ping whose answer takes longer, readings at which the connection is left |
| PathSelector.PingsAreAnswered | core/selector/selector.go:371-381 | for any round trips at all there are arrivals that follow the recurrence |
| PathSelector.IdleRerouteTolerated | core/selector/selector.go:398-410 | whenever the path is rerouted, the connection is never left if and only if the new round trip is at most the slack longer than the estimate |
| PathSelector.SwitchHasSilenceBehindIt | core/selector/selector.go:528-613 | a switch is to a candidate and only with keep-alives on, and behind it is a span of at least the threshold, from one live reading on, in which every reading found the connection, the counter and the address unchanged |
| PathSelector.WalkIsTheList | core/selector/selector.go:635-645 | the order of candidates is the configured one without repeats and without those tried |
| PathSelector.DeadNetworkWalk | core/selector/selector.go:569-613 | with nothing received each threshold of silence draws the next candidate of that list, and giving up comes exactly when it is used up |
| PathSelector.DeadNetworkGivesUp | core/selector/selector.go:569-613 | once it gives up, every later reading gives up, and the switches went exactly through the list |
| Salamander.SentPacket | extras/obfs/salamander_v2.go:202-217 | a packet is sent exactly for a payload with room for 32 bytes more, and is the payload and the second sealed for the other role |
| Salamander.RoundTrip | extras/obfs/salamander_v2.go:229-282 | at any call of any run a packet from the other role whose salt no earlier call carried is accepted, unchanged, if and only if its second is within 30 of the wall clock and either 30 seconds have passed since the start or it is not before the second of the start; otherwise it counts as skewed |
| Salamander.AcceptedWasSealed | extras/obfs/salamander_v2.go:229-282 | whatever is accepted was sealed by the key under its salt, holds at least a byte and such a second, and comes out as sealed |
| Salamander.CopyIsReplayed | extras/obfs/salamander_v2.go:229-335 | while the wall clock keeps up, a copy of an accepted packet whose second is still good is called a replay |
| Salamander.ReflectionFails | extras/obfs/salamander_v2.go:141-186 | a packet bounced back at its own role fails to open and records nothing |
| Salamander.SalamanderV2.SeenOrAddSalt | extras/obfs/salamander_v2.go:316-335 | the rotating loop over the buckets computes the set's verdict and successor |
| Salamander.SalamanderV2.Receive | extras/obfs/salamander_v2.go:229-282 | the method gives the specified verdict and set, on both clocks of the reading, and a refusal adds one to exactly one counter |
| Salamander.RotationKeeps | extras/obfs/salamander_v2.go:316-335 | a salt recorded in one bucket survives until the rotation has come round to that bucket |
| Salamander.SecondAcceptanceNeedsLag | extras/obfs/salamander_v2.go:229-335 | between two acceptances of one packet the wall clock fell more than 29 seconds and one nanosecond behind elapsed time |
| Salamander.NeverAcceptedTwice | extras/obfs/salamander_v2.go:229-335 | in every run whose wall clock lags no further, no packet is accepted twice |
| Salamander.LagIsPairwise | extras/obfs/salamander_v2.go:268-335 | on time.Now that condition is a bound on the lag between any two calls, and on a clock without a monotonic part on the fall below any earlier reading |
| Salamander.TwiceOnSystemClock | extras/obfs/salamander_v2.go:268-335 | one nanosecond further there is a run on time.Now, neither of whose clocks ever falls, that accepts a packet twice |
| Salamander.TwiceOnStrippedClock | extras/obfs/salamander_v2.go:268-335 | and one on a clock without a monotonic part |
| Salamander.ToleranceIsExact | extras/obfs/salamander_v2.go:268-335 | on either kind of clock no receiver accepts a packet twice if and only if the lag is within that tolerance |
| Salamander.ReplayVerdictIsExact | extras/obfs/salamander_v2.go:290-335 | a packet is called a replay only when an earlier call recorded the same salt |
| Salamander.NothingFromBeforeBoot | extras/obfs/salamander_v2.go:268-282 | whatever the clocks do, an accepted packet is stamped no earlier than the second of the start less the lag of the wall clock since |
| Salamander.BarrierIsExact | extras/obfs/salamander_v2.go:268-282 | with the wall clock lagging by at most a given time, a stamp can pass the window if and only if it is not before the second of the start less that time |
| Salamander.SetBackLiftsBarrier | extras/obfs/salamander_v2.go:268-282 | a process whose wall clock was set back accepts a packet stamped before its start |
| Salamander.AcceptedAcrossRestart | extras/obfs/salamander_v2.go:229-282 | for every acceptance and every restart up to thirty seconds later, less the lag, a packet accepted in a run before and a run after it |
| Salamander.RestartIsExact | extras/obfs/salamander_v2.go:95-101 | no packet accepted in any run before a restart is accepted at any call of any run after it if and only if the restart comes, less the lag, more than thirty whole seconds later |
| TimeSource.Clock.Now | extras/timesource/clock.go:45-69 | the reading is the corrected one while the system clock is within the threshold of where elapsed time puts it, and otherwise the system clock's, the correction gone |
| TimeSource.Clock.Correct | extras/timesource/clock.go:73-80 | the correction in effect is the new one, anchored at this reading |
| TimeSource.HeldThroughout | extras/timesource/clock.go:45-69 | a correction in effect at the end of a run of readings was in effect at every one |
| TimeSource.CorrectedDropIsBounded | extras/timesource/clock.go:8-12 | while a correction is in effect no reading falls more than twice the threshold below an earlier one, whatever is done to the system clock |
| TimeSource.ThresholdIsExact | extras/timesource/clock.go:8-12 | whatever the correction, no receiver timed by the corrected clock accepts a packet twice if and only if twice the threshold is within the tolerance |
| TimeSource.TwiceWhileCorrected | extras/timesource/clock.go:58-68 | from just over 14.5 seconds on, steps the clock does not notice and a receiver run timed by it that accepts a packet twice |
| TimeSource.StepThresholdIsTooLarge | extras/timesource/clock.go:8-12 | the threshold of fifteen seconds is past it |
| GeckoFrame.EncodeFrame | extras/obfs/gecko_frame.go:39-61 | refuses an invalid header or a short buffer without touching it, and otherwise writes exactly the frame and no byte beyond it |
| GeckoFrame.FrameLayout | extras/obfs/gecko_frame.go:29-61 | the bytes of a frame: marker, message id, index and total in a nibble each, the padding's length high byte first, padding, payload |
| GeckoFrame.FrameRoundTrip | extras/obfs/gecko_frame.go:39-86 | every frame decodes to its header and payload, whatever the padding |
| GeckoFrame.DecodedIsFrame | extras/obfs/gecko_frame.go:63-86 | bytes decode to a header and payload if and only if they are their frame, up to the reserved bits of the first byte |
| GeckoConn.SplitJoins | extras/obfs/gecko.go:144-154 | the chunks of a packet split 2 to 8 ways join to the packet |
| GeckoConn.ChunkSizes | extras/obfs/gecko.go:144-154 | every chunk but the last has an equal share and the last what is left |
| GeckoConn.PadLen | extras/obfs/gecko.go:176-183 | the padded datagram lies between the two bounds, or is not padded when it cannot |
| GeckoConn.EverySizeIsDrawn | extras/obfs/gecko.go:176-183 | every size between the bounds is what some draw gives |
| GeckoConn.Conn.WriteFragmented | extras/obfs/gecko.go:144-171 | one frame per chunk, in order, under one new message id, with the drawn padding |
| GeckoConn.Conn.AcceptChunk | extras/obfs/gecko.go:231-281 | table and output are those of the specification, an evicted entry is an oldest one, and every per-source count stays equal to the count over the table |
| GeckoConn.Conn.DropEntry | extras/obfs/gecko.go:309-318 | removes that entry alone and keeps the counts exact |
| GeckoConn.Conn.EvictOldest | extras/obfs/gecko.go:322-336 | removes an entry with the earliest deadline and nothing else |
| GeckoConn.Conn.GcExpired | extras/obfs/gecko.go:298-306 | an entry is left if and only if its deadline has not passed, unchanged |
| GeckoConn.RunsStayBounded | extras/obfs/gecko.go:231-336 | in every run at most 4096 entries, at most 8 per source, each holding between 1 and total minus 1 chunks with received equal to their number |
| GeckoConn.ChunkOpens | extras/obfs/gecko.go:231-262 | a message's first chunk is refused when its source has eight entries and otherwise opens an entry with that chunk alone, due in eight seconds |
| GeckoConn.ChunkFills | extras/obfs/gecko.go:252-281 | a later chunk is ignored when it is there already or disagrees on their number, stored while others are missing, and otherwise ends the entry and brings out the chunks joined |
| GeckoConn.OthersStay | extras/obfs/gecko.go:231-336 | no event touches another message's entry, except the collector past its deadline and an eviction at a full table |
| GeckoConn.OnlyShortFormsPass | extras/obfs/gecko.go:203-228 | a datagram that is no frame comes out as it is if it is of the short form and not at all otherwise |
| GeckoConn.OpenedBy | extras/obfs/gecko.go:231-262 | every entry of every run was opened by a chunk of its message, has been there since, and is due eight seconds after it |
| GeckoConn.CollectedExactly | extras/obfs/gecko.go:298-306 | in every run a pass of the collector leaves exactly the entries whose first chunk came at most eight seconds before |
| GeckoConn.SourceIsReadmitted | extras/obfs/gecko.go:231-306 | a source that sent nothing in the last eight seconds has no entry after it, and its next message is admitted |
| GeckoConn.ProgressHolds | extras/obfs/gecko.go:231-281 | until its last chunk an entry holds exactly the chunks of its packet that have arrived |
| GeckoConn.PacketReassembled | extras/obfs/gecko.go:231-281 | in any order, with repeats and anything in between, the chunk that completes the set yields exactly the packet and no earlier one yields anything |
| GeckoConn.UndisturbedIsReassembled | extras/obfs/gecko.go:231-336 | the same from what can be seen: fewer than 8 entries of the source at the first chunk, no collection past its time to live and no full table while chunks are missing |
| GeckoConn.TwoChunksReassemble | extras/obfs/gecko.go:231-281 | for every packet there is a run that meets both sets of premises: its two halves in order, under any padding, give the packet back |
| NatProbes.Classify | extras/realm/nat.go:47-60 | endpoint-dependent exactly when two observations agree on the unmapped address and differ in port, and unknown otherwise |
| NatProbes.DependentHosts | extras/realm/nat.go:66-84 | exactly the IPv4 hosts with two announced ports, or with any when forced, each with its ports ascending and without repeats |
| NatProbes.PortStride | extras/realm/nat.go:180-194 | finds the step exactly when the ports are an arithmetic progression with a positive one |
| NatProbes.PickIsPrefix | extras/realm/nat.go:113-132 | the budget changes neither which guesses are taken nor their order: what is picked is a prefix of the first occurrences of acceptable guesses |
| NatProbes.FirstOccurrencesAre | extras/realm/nat.go:113-132 | those are distinct, and are the targets of exactly the guesses in range and not announced |
| NatProbes.Prober.Add | extras/realm/nat.go:118-132 | one offer of the picking specification, refused for good only when the list is full |
| NatProbes.Prober.AddTier1 | extras/realm/nat.go:134-145 | the interleaved neighbour loops, with their early exit, offer what the whole tier's stream would |
| NatProbes.Prober.AddTier2 | extras/realm/nat.go:146-159 | the same for the extrapolated strides |
| NatProbes.Prober.AddTier3 | extras/realm/nat.go:160-177 | the random tier ends for every sequence of draws: with a full list, or after 256 rounds in a row that hit nothing new |
| NatProbes.SymmetricProbes | extras/realm/nat.go:99-178 | at most limit distinct probes, none announced, ports 1024 to 65535, only on hosts worth probing, picked from the three tiers in order |
| NatProbes.HostsAscend | extras/realm/nat.go:107-112 | the hosts are taken in the order of their address bytes |
| NatProbes.Tier1Is | extras/realm/nat.go:134-145 | the first tier is the ports within 64 of an announced one, on its host, in order of distance |
| NatProbes.Tier2Is | extras/realm/nat.go:146-159 | the second is the next sixteen steps of each host whose ports are an arithmetic progression |
| NatProbes.GuessedPortsProbed | extras/realm/nat.go:99-178 | a list with room to spare holds every port of either tier from 1024 on that was not announced |
| PunchPlans.CandidateAddrs | extras/realm/punch_engine.go:533-560 | the targets are the eligible unmapped peer addresses without repeats, sorted, of as many leading peers as give sixteen |
| PunchPlans.EligibleV4 | extras/realm/punch_engine.go:533-620 | which IPv4 addresses are punched at, by their bytes: not 0.0.0.0, 224 to 239 or port 0, 127 only when such an address is local, and of a wanted family |
| PunchPlans.EligibleV6 | extras/realm/punch_engine.go:533-620 | and which IPv6 ones |
| PunchPlans.FamilyOfSocket | extras/realm/stun.go:292-308 | a socket bound to an address narrows an unrestricted attempt to its family |
| PunchPlans.PacingKeepsRate | extras/realm/punch_engine.go:314-320 | gaps between 52.6 ms and a second that keep to the rate to the nanosecond, exactly when the computation does not wrap around |
| PunchPlans.PacedOrOneBurst | extras/realm/punch_engine.go:314-320 | past that bound a burst holds every probe a plan can have |
| PunchPlans.NewSourceFilter | extras/realm/punch_engine.go:458-494 | each policy accepts exactly the candidates, their hosts, everyone or no one |
| PunchPlans.PlanProbing | extras/realm/punch_engine.go:250-282 | at most min(probes, 4096) probes with the pacing and budget in force, refused exactly for a negative setting, the first of them in order |
| PunchPlans.PlanTimeout | extras/realm/punch_engine.go:284-304 | the configured or default timeout, capped when both ends are symmetric, refused exactly for a negative one |
| PunchPlans.NewPlan | extras/realm/punch_engine.go:213-310 | refused exactly when some fault applies, and for one that does; otherwise a plan with targets, a positive interval, exactly the timeout that applies, generated and paced probes exactly where probing can help, and a filter that expects everyone it sends to |
| PunchPacing.PacedIsSpaced | extras/realm/punch_engine.go:343-358 | however the clock jumps, the k-th send is at least k gaps after the start |
| PunchPacing.NoReadingIsLate | extras/realm/punch_engine.go:343-358 | and with readings in order none between start and end is a gap or more after the last send |
| PunchPacing.WindowBound | extras/realm/punch_engine.go:349-358 | sends less than a span apart are at most the batch size times (span / gap + 1), wherever the span begins |
| PunchPacing.CapIsExact | extras/realm/punch_engine.go:91-92 | the rate caps the probes within any second if and only if no plan has more probes than that or a second is a whole number of whole gaps |
| PunchPacing.UnevenRateOverflows | extras/realm/punch_engine.go:314-320 | for every other rate, readings at which more probes than the rate go out within a second |
| PunchPacing.DefaultRateIsCap | extras/realm/punch_engine.go:21 | the default rate caps every second |
| PunchEngine.NextWake | extras/realm/punch_engine.go:360-376 | a wait ends at the first thing that is due, or a millisecond on when something already is |
| PunchEngine.SendTargets | extras/realm/punch_engine.go:343-348 | all targets get a hello exactly at the readings where a round is due |
| PunchEngine.RepeatedAt | extras/realm/punch_engine.go:343-348 | every round sends to every target once, in order |
| PunchEngine.SendProbes | extras/realm/punch_engine.go:349-358 | the probes go out in order, each once, a burst at each reading where one is due within the budget |
| PunchEngine.RunPunch | extras/realm/punch_engine.go:322-397 | every pass but the last is in time, has a live context and brought nothing or a packet from a source not believed; the last ends the attempt as its context, the deadline, the read error or a packet of either kind from a believed source says; what was sent is what was due; one ack at most, to the peer found; and never more packets than targets times rounds, probes and one |
| PunchEngine.PlannedAttemptEnds | extras/realm/punch_engine.go:378-397 | in a planned attempt a packet is an answer if and only if the policy in force expects its source among the targets and probes |
| PunchEngine.PacketBudget | extras/realm/punch_engine.go:322-397 | at most targets times (timeout / interval + 1), plus the probes, plus one packet, for any readings and arrivals |
| PunchEngine.ProbesArePaced | extras/realm/punch_engine.go:349-358 | by any moment at most burst times (elapsed / gap + 1) probes, or one burst when the gap is not positive and a burst holds them all |
| PunchEngine.PlanIsPaced | extras/realm/punch_engine.go:268-276 | every plan has one or the other |
| PunchEngine.ProbesInWindow | extras/realm/punch_engine.go:349-358 | the probes of a run sent less than a span apart are at most burst times (span / gap + 1) |
| PunchEngine.RateCapsProbes | extras/realm/punch_engine.go:91-92 | in a run of a plan whose rate divides the second evenly, or exceeds every plan, no second sees more probes than the rate |
| PunchEngine.FoundPeerWasAddressed | extras/realm/punch_engine.go:378-397 | under the candidates policy the peer found is a target or a probe |
| PunchEngine.RealmBudget | extras/realm/punch_engine.go:41-46 | sixteen targets and 4096 probes bound what any plan can send |
| LinkMon.WithDefaults | app/internal/linkmon/linkmon.go:112-129 | the result is usable, a usable configuration is left alone, and a positive setting is kept |
| LinkMon.ConservedHolds | app/internal/linkmon/linkmon.go:231-299 | at every step, what is delivered, in the slot, in hand and pending adds up to the notifications taken, in count and in change bits |
| LinkMon.NothingLost | app/internal/linkmon/linkmon.go:279-299 | so nothing is lost or counted twice, for a consumer of any speed |
| LinkMon.ConsumerToldAll | app/internal/linkmon/linkmon.go:279-299 | once no timer runs and nothing is under way the consumer has been told everything |
| LinkMon.BurstIsCapped | app/internal/linkmon/linkmon.go:231-277 | a timer runs exactly while a burst lasts, due no later than the larger of its start and the cap after the burst began |
| LinkMon.TimerIsExact | app/internal/linkmon/linkmon.go:231-277 | the timer is due at the earlier of the debounce time after the last notification and the cap after the first, and at once when that has passed |
| LinkMon.ReportWaits | app/internal/linkmon/linkmon.go:231-277 | so every report is the debounce time after the last notification or the cap after the first |
| LinkMon.ReportIsTheBurst | app/internal/linkmon/linkmon.go:253-265 | a report has the count and the changes of exactly the notifications since the one before |
| LinkMon.ReportByCap | app/internal/linkmon/linkmon.go:240-277 | a report made when its timer is due lands by the cap if and only if the last notification of its burst was taken by then |
| LinkMon.ReportPastCap | app/internal/linkmon/linkmon.go:240-265 | for any overshoot, a run whose report lands that far past the cap |
| LinkMon.CoveringHolds | app/internal/linkmon/linkmon.go:231-265 | no report is empty |
| LinkMon.EverythingIsDelivered | app/internal/linkmon/linkmon.go:231-299 | once notifications stop, at most ten steps of the timer, emit and the consumer, which are always possible, deliver everything |
| LinkMon.EmitFinishes | app/internal/linkmon/linkmon.go:287-299 | emit is never stuck: each of its steps, and the consumer's, brings it nearer its end |
| LinkMon.MergeKeepsTheLater | app/internal/linkmon/linkmon.go:38-49 | a merged report carries the later of the two settle times |
| Sntp.StampRoundTrip | extras/timesource/sntp.go:241-251 | a timestamp reads back to within a nanosecond exactly in the years the era rule of section 3 of RFC 4330 covers |
| Sntp.ZeroStampIsEraStart | extras/timesource/sntp.go:221-223 | the only instant of those years with an all-zero timestamp is the start of the era |
| Sntp.ReplyIsUsed | extras/timesource/sntp.go:204-238 | a reply is used if and only if it is whole, synchronised, from a server of stratum 1 to 15, returns the nonce, has a transmit time and implies a path of nothing to five seconds; its offset is then taken from the middle of that path |
| Sntp.RefusedReply | extras/timesource/sntp.go:204-232 | and each error is given only for what it says |
| Sntp.GoodReplyAccepted | extras/timesource/sntp.go:204-232 | a server's good reply over a path of up to five seconds is accepted unless answered at that instant, even if the wall clock is stepped while it is awaited |
| Sntp.OffsetWithinHalfRtt | extras/timesource/sntp.go:225-238 | for any one-way delays, any error of the wall clock and any step of it during the exchange the offset is within half the round trip of the true one, plus rounding (section 5 of RFC 4330) |
| Sntp.Query | extras/timesource/sntp.go:153-178 | servers are asked until the context is done, any answer is enough, and the answer is a median by offset |
| Sntp.AnswersAre | extras/timesource/sntp.go:153-178 | what the median is taken of holds every measurement as often as a server gave it |
| Sntp.MajorityBoundsMedian | extras/timesource/sntp.go:146-152 | when more than half of the answers lie in a range, so does the chosen one |

## Left out

- Cryptographic strength, secrecy and what an observer can tell from traffic: boxes and tags are ideal, and a failing key derivation is not modelled.
- Sockets, deadlines, goroutine start-up and system calls, and the rejection counters except Salamander's.
- DiscoTicker.EveryScheduleFinishes: a step that never gets scheduled is not excluded, and a goroutine told to stop may still take ticks that are due, as Go's select may; WorkIsBounded counts their work, but how many they are is left to chance. Read sections of the session lock exclude each other in the model.
- DiscoConn.Conn.SetSessionPeer: one atomic step, as are refreshTags, admission and removal; finer interleavings of them are not modelled, only the ticker's are.
- DiscoCodec.EnvelopeRoundTrip: only for a sender's clock between 1970 and 2106, the seconds a 32-bit timestamp can hold.
- WireLens.Lens.Mode: torn reads of the atomic slots, which the source accepts by design, and the wrap-around of the 64-bit count are not modelled.
- PathSelector.ThresholdIsExact: for round-trip readings that stay fixed, as on a path whose estimate has settled, and likewise IdleConnectionIsKept: how the estimate follows once a late answer is in is not modelled.
- GeckoConn.OnlyShortFormsPass: the caller's buffer, which cuts what does not fit, is not modelled, nor is the interval of the collector.
- GeckoConn.UndisturbedIsReassembled: says nothing about a message that is refused, expired or evicted; the source loses it.
- PunchPacing.CapIsExact: the overshoot at other rates is bounded by WindowBound; how likely a reading schedule is that reaches it is not modelled.
- PunchPlans.CandidateAddrs: the textual order of addresses is an arbitrary ranking given as a parameter.
- LinkMon.NothingLost: until cancellation; after it the source drops what is pending.
- TimeSource.Clock.Now: one atomic step, as is Correct; Bootstrap, which decides whether there is a correction at all, is not modelled.
- Sntp.Query: what the joined errors say is not modelled.
- Sntp.OffsetWithinHalfRtt: supposes that the monotonic clock measures the exchange truly.
- Durations are unbounded integers except in ProbePacing: overflow of 64-bit nanoseconds elsewhere is not modelled.
- The masked punch header (extras/realm/punch.go) and the nonce index, pump and length sampler of extras/realm/punch_conn.go: a round trip and an index of the same kinds as those proved here.
- ProbeToken, WriteDisco's choice of padding and the punch retry policy above the loop: branching without a law of their own.
- QUIC, HTTP/3, congestion control, UDP reassembly, Salamander v1, outbounds, resolvers, proxies and the command line.
