# tperf in Dafny

A model of the logic of tperf, a multi-host bandwidth tester, with proofs of what its
documentation and comments promise. Sockets, DNS, SQLite and the clock are replaced by
sequences of bytes, lists of frames, step systems and streams of observations; what is kept is
what decides whether tperf's numbers can be trusted:

- the **pairs schedule**: the circle method yields a round-robin tournament for every number of
  hosts, a tournament gives every host exactly its mesh targets, and the repeating schedule is
  fair at every moment;
- **UDP loss accounting**: what the sequence-number slot counts over any arrivals, and how far
  workers that share one counter can make it over-count on an ordered network;
- the **control protocol**: when all servers are on the same round, what a late ack does to that,
  and what one server session does for every sequence of requests and failures;
- **counters and metric windows**: interleaved atomic additions, non-atomic snapshots, and the
  one-second grid;
- **host patterns, frames, datagrams, addresses and rate statistics**.

Concurrent parts are step systems: a `State`, an `Event`, `Enabled` and `Step`, with `Runs` and
`After` for event sequences, and the theorems quantify over all of them. Code that updates
variables, buffers or fields is a method or a class that is proved to compute a function, and the
theorems are about that function. `dafny verify dfyconfig.toml` checks everything (Dafny 4.11).

| file | source |
|---|---|
| RoundRobin, Assignments | src/testplan.rs |
| PairRounds, ControlRounds, ControlWire, LateAcks, RoundSafety | src/client.rs, with the server's side from src/server.rs |
| ServerSession, MetricsLoop, Windows | src/server.rs |
| UdpSequence, UdpNetwork, UdpDatagram | src/dataplane.rs |
| Accounting, SentPasses, StoredCounters | src/dataplane.rs, src/metrics.rs |
| Metrics | src/metrics.rs |
| HostPattern, RangeProduct | src/config.rs |
| Framing | src/proto.rs |
| RateStats, RateOrder | src/analyze.rs |
| HostPort | src/netutil.rs |
| BigEndian, Decimal, Text, Common | shared vocabulary |

## Findings

- The **round barrier** holds in every interleaving without an ack timeout, even with Error
  replies and lost connections. After a timeout it can fail (`LateAcks.LateAckBreaksBarrier`).
  Whatever happened before, and whichever connections are down, it is guaranteed from a round on if
  and only if no earlier Start or ack is outstanding when that round begins, or so few acks can
  still arrive that no round completes without another timeout (`RoundSafety.BarrierIff`).
- **Drops** are missing numbers plus late arrivals. On an ordered network a gap is at most the
  number of other workers plus the losses, and that many is reached without any loss
  (`UdpNetwork.GapBoundIsReached`). So with more than one worker per destination drops are reported
  although everything arrives (`UdpNetwork.FalseDropsReached`); once an ordered lossless network is
  empty, every reported drop is one of those (`UdpNetwork.EveryDropIsFalse`). The account in terms of `expected` is exact if and only if the largest 64-bit
  number has not arrived.
- A **frame** with an empty encoding would be written but refused by the reader. No message of
  tperf has one.
- **Windows** of a counter never report more than was added to it between its first and its last
  load, and exactly that if and only if it did not wrap at 64 bits in between
  (`Windows.WindowsNeverOverstate`). Against the stored snapshots they add up to last minus first
  if and only if no load falls, and to more otherwise (`Windows.RunTelescopesIffNoFall`).
- **No drift**: if successive clock readings are at most eps apart and six of them fit into a
  second, every window closes at its mark or at most 6 eps after it, however long the test runs.
  Lateness beyond that is made up for, a second per window.
- The **average** rate of recorded windows can fall below the minimum once the sum of bytes
  saturates (`RateOrder.SaturationBreaksAverage`); for n windows of at most B bytes that is
  excluded if and only if n · B fits 64 bits. It never exceeds the maximum, for all byte counts, if
  and only if all windows have a duration or none has; the filter in `load` lets only windows of at
  least 50 ms through, so this always holds in a report. The totals of a report are always the
  per-second ones: the overriding branch is always taken.
- The stored 64-bit **total** covers the stored counters of its peers if and only if those, with
  the wrapped count of what belongs to no peer or is still owed to one, fit 64 bits together
  (`StoredCounters.CoversIffFits`). With a single target it always does, because the two wrap
  together; with two targets it can be zero while they are not (`StoredCounters.WrapLosesCover`).
- `parse_host_port` undoes `join_host_port` for **hosts** with white space at the end, but not at
  the start; `HostPort.Printable` is the exact condition.
- A **pattern** whose only closing brace is its range's, such as `{x{1..3}`, is refused although the
  range is found (`RangeProduct.OpenBraceFails`); `RangeProduct.SingleRange` has the exact condition.
- The repository's README lists the four-host rounds as `1-2 & 3-4`, `1-3 & 2-4`, `1-4 & 2-3`; the
  code plays `1-4 & 2-3`, `1-3 & 4-2`, `1-2 & 3-4` (`RoundRobin.FourHosts`), and the model follows it.
- The README says in one place that stopping flushes the last metric window, and in another that a
  stop before the mark discards the partial interval. The code does the latter, and so does
  `MetricsLoop.MetricsLoop`: no window is closed before its mark, and a token found set earlier than
  two observations before the close drops the interval (`MetricsLoop.StopDropsInterval`).

## Model

| member | source | states |
|---|---|---|
| RoundRobin.RoundRobinRounds | src/testplan.rs:11-36 | the loop that folds the list and rotates it in place computes `Rounds`, and for two or more distinct hosts that is a tournament |
| RoundRobin.CircleMethodIsTournament | src/testplan.rs:5-10 | for every list of n ≥ 2 distinct hosts: n-1 rounds (n if odd) of n/2 disjoint pairs, every two hosts paired in exactly one place, no bye for even n and exactly one per host for odd n |
| RoundRobin.FaceIffRoundOf | src/testplan.rs:21-34 | two entries of the rotating list face each other in round r if and only if r is the closed-form solution of x + y + 2r ≡ 0 modulo n - 1 |
| RoundRobin.PlaysIffFace | src/testplan.rs:23-27 | a pair of a round joins two hosts exactly if their seats are opposite each other |
| RoundRobin.MeetOnce | src/testplan.rs:5-7 | any two hosts are paired in one round, once, and never again |
| RoundRobin.RoundsDisjoint | src/testplan.rs:6-7 | within a round no host sits in two pairs, and no host plays itself |
| RoundRobin.ByeIff | src/testplan.rs:7-10 | a host sits out exactly in the round in which it faces the padding entry, hence never for even n |
| RoundRobin.RoundSize | src/testplan.rs:9-10 | every round has n/2 pairs, rounded down |
| RoundRobin.RotateOnce | src/testplan.rs:29-33 | popping the last entry and inserting it behind entry 0 takes the circle of round r to that of round r + 1 |
| RoundRobin.FourHosts | src/testplan.rs:21-34 | the rounds of four hosts, in the order and orientation the code produces |
| Assignments.AssignmentsForPairs | src/testplan.rs:60-86 | pushing both sides of every pair, with first-index lookup and 32-bit ids, gives each host exactly the targets its pairs bring, in order |
| Assignments.TargetsIffPaired | src/testplan.rs:71-84 | host i is told to target host j exactly if some pair joins them |
| Assignments.RoundIsSymmetric | src/testplan.rs:71-84 | j is a target of i if and only if i is a target of j |
| Assignments.OpponentsMet | src/testplan.rs:21-34 | after k rounds a host has met exactly those hosts whose common round is below k |
| Assignments.TournamentIsMesh | src/testplan.rs:38-86 | over one tournament the targets given to a host are, as a multiset, its targets in the mesh |
| Assignments.MeshAssignmentIs | src/testplan.rs:38-58 | host i of the mesh is told its own name and id, and every other host in list order with its name and id, no address yet |
| Assignments.FillResolved | src/testplan.rs:88-95 | in place, every bind becomes the resolved address of its own id, every target address that of the target's id, and names, ids and the number of targets stay |
| Assignments.AllResolvable | src/testplan.rs:88-95 | the ids made from a list of at most 2^32 hosts all index its resolved addresses |
| Assignments.TargetsReachBinds | src/testplan.rs:88-95 | after filling, each target carries the name and the bind address of the assignment with its id |
| PairRounds.RunPairRounds | src/client.rs:120-164 | for any number of cancellation checks that pass and of rounds that can be sent, exactly the smaller of the rounds the checks allow and of the rounds that can be sent go out, in schedule order, each with its filled assignments; it ends in an error exactly if the sends run out first |
| PairRounds.StartsAreRight | src/client.rs:154-156 | in every round sent, host x is told its own name, its id and its resolved address as bind, every target has the name, id and resolved address of one host, and host y is among them exactly if some pair of the round joins the two |
| PairRounds.RoundsAllowedIs | src/client.rs:141-147 | with m rounds in a tournament, c checks allow m · (c / (m + 1)) rounds and the rest of that division less one |
| PairRounds.ScheduledPlays | src/client.rs:141-162 | after t tournaments and i rounds a pair has played t times, plus once if its round is over |
| PairRounds.ScheduleIsFair | src/client.rs:141-162 | at every point any two pairs differ by at most one game; after t complete tournaments each has played exactly t times |
| ControlRounds.EveryRunInOrder | src/client.rs:166-186 | in every run, timeouts included, a server consumes the Starts of consecutive rounds, none skipped, and runs the last one consumed or nothing |
| ControlRounds.RoundBarrier | src/client.rs:188-213 | in every interleaving without a timeout, when the ack loop is left uncancelled every server has consumed this round's Start, and runs it unless its connection is gone |
| ControlRounds.ServersWithinOneRound | src/server.rs:73-90 | without a timeout the rounds last consumed by any two servers differ by at most one, at every step |
| ControlWire.WireIsFifo | src/client.rs:215-232 | in every run what a server wrote is, in order, what the client took from that connection followed by what is under way, so no frame is lost, made up or reordered |
| ControlWire.OneReplyPerStart | src/server.rs:73-101 | in every run a server writes one reply for each Start it has read, in order, an Ack exactly if the test was started; only the one in hand is still to come, or is lost with the connection |
| ControlWire.ClientCanFinish | src/client.rs:188-213 | from every point of every run a cancellation ends the client's rounds, after the Starts of the round that are left |
| ControlWire.AnyConnectionMayBreak | src/client.rs:173-183 | any connection may break at any moment of any run, and the send of a Start to it may then fail |
| ControlWire.AnyStartMayFail | src/server.rs:92-100 | any start of a test may fail, and then its server writes an Error and is ready for the next Start |
| ControlWire.MetricsAnytime | src/server.rs:277 | a running test whose connection is up can write a metrics frame at any moment |
| ControlWire.ClientFinishes | src/client.rs:168-178 | once a Start cannot be sent, or the run is cancelled, the client begins no further round |
| ControlWire.LostStaysLost | src/server.rs:66-118 | a server whose connection broke runs nothing and writes nothing for the rest of the run |
| LateAcks.BarrierRecovers | src/client.rs:172 | after any run, timeouts included, the barrier holds again from a round that begins with nothing outstanding |
| LateAcks.LateAckBreaksBarrier | src/client.rs:194-200 | a concrete run of two servers in which a late ack completes the next round while a server still runs the old one |
| RoundSafety.OutstandingBreaksBarrier | src/client.rs:225-228 | from any state in which a round begins with a Start or ack outstanding and as many acks as servers can still arrive, some continuation completes the acks without the barrier |
| RoundSafety.TooFewAcks | src/client.rs:190-205 | if fewer acks than servers can still arrive when a round begins, no continuation without a timeout ever leaves the ack loop uncancelled |
| RoundSafety.BarrierIff | src/client.rs:188-205 | whatever happened before, with connections up or down, the barrier is guaranteed from a round on if and only if nothing is outstanding when it begins or fewer acks than servers can still arrive |
| RoundSafety.BarrierIffQuiet | src/client.rs:188-205 | with all connections up and no Error under way that ends a reader, the barrier is guaranteed from a round on if and only if nothing is outstanding when it begins |
| RoundSafety.LateStartIsUnsafe | src/client.rs:194-200 | the exact condition finds the round of LateAckBreaksBarrier unsafe from its beginning |
| ServerSession.EveryRunSafe | src/server.rs:61-118 | in every session the handler owns the only live test, replies carry its state truthfully, and stopped tests stay silent |
| ServerSession.AtMostOneTest | src/server.rs:61-118 | never two tests at once, and none left on any exit path |
| ServerSession.SessionEnds | src/server.rs:68-118 | after the first failed read, or failed write of a Start or Stop ack, the session only stops what it still holds and exits with nothing live, whatever follows |
| ServerSession.FailedReadEnds | src/server.rs:68-71 | a run with a failed read is stopping its test in order to leave, or has exited with no test live |
| ServerSession.FailedAckEnds | src/server.rs:79-107 | the same for a Start ack that cannot be written; when a Stop ack cannot be written the session has exited |
| ServerSession.LeavingCompletes | src/server.rs:50-59 | a session that is leaving can always complete, and then has exited with nothing live |
| ServerSession.SessionGoesOn | src/server.rs:92-111 | an unexpected message, or an Error that cannot be written, leaves the session and its test as they are |
| ServerSession.EveryMetricsFrameWritten | src/server.rs:277 | the metrics frames on the wire are exactly those emitted, in order, whatever else is written between them |
| ServerSession.NoMetricsAfterStop | src/server.rs:50-59 | no metrics frame of a test after the next reply that follows its stop |
| ServerSession.EveryRequestAnswered | src/server.rs:73-108 | while writes succeed, each Start gets one Ack or Error and each Stop one Ack, in request order |
| ServerSession.RepliesTellTheTruth | src/server.rs:73-107 | while writes succeed, the replies written, with the one owed, are an Ack under the next number for each launch that succeeded, an Error for each that failed and an Ack for each Stop, in order |
| ServerSession.RequestServed | src/server.rs:67-112 | in any reachable state between requests each request can be served, with the effect on the running test, the numbering and the replies that `Serve` gives |
| ServerSession.EveryRequestServed | src/server.rs:67-112 | every list of requests, with any outcomes of the launches, can be served to the end, and then the session is as `ServeAll` says |
| ServerSession.MetricsAnytime | src/server.rs:277 | the running test can write a metrics frame at any moment, which changes nothing else |
| ServerSession.SessionCanEnd | src/server.rs:68-118 | every session can end within five steps, with nothing live |
| ServerSession.AnyWriteMayFail | src/server.rs:79-107 | any reply may fail to be written, and then nothing of it is on the stream |
| UdpSequence.SeqSlot.NoteSeq | src/dataplane.rs:341-361 | the slot and the reported drop after one arrival, saturation included |
| UdpSequence.ReceiveAll | src/dataplane.rs:388-394 | noting the arrivals one by one and adding up the drops computes `Receive` |
| UdpSequence.ExpectedFollowsMax | src/dataplane.rs:341-361 | whatever arrives, in whatever order, the slot holds the successor of the largest arrival |
| UdpSequence.DropsAndRecordsFillTheSpan | src/dataplane.rs:388-394 | drops plus the arrivals that set a new maximum make up the whole range from the first arrival to the largest |
| UdpSequence.ConservationIffUnsaturated | src/dataplane.rs:341-361 | drops = expected − first − new maxima, if and only if the largest 64-bit number has not arrived |
| UdpSequence.DropsAreMissingPlusLate | src/dataplane.rs:341-361 | total drops are the numbers in range that never arrived plus the distinct ones that arrived late; exactly the missing ones if and only if none was late |
| UdpSequence.IncreasingDropsAreTheLoss | src/dataplane.rs:341-361 | for increasing arrivals the drops are exactly the missing numbers |
| UdpNetwork.EveryRunNumbered | src/dataplane.rs:439-442 | on any network, every number held, in flight, received or lost is below the shared counter |
| UdpNetwork.EveryNumberIsSomewhere | src/dataplane.rs:439-445 | at every step each number is held by a worker, in flight, received or lost exactly once if it was taken and not at all otherwise, plus once for each time the network duplicated it |
| UdpNetwork.EveryEventCounts | src/dataplane.rs:388-394 | the counter, the arrivals and the losses are as many as the events that take, deliver and lose a number |
| UdpNetwork.DropsBoundedByNumbersTaken | src/dataplane.rs:433-456 | on any network, drops plus in-order arrivals never exceed the numbers taken |
| UdpNetwork.OrderedRun | src/dataplane.rs:433-456 | on an ordered network every number taken is accounted for, and each datagram in flight overtakes at most the other workers' numbers and the lost ones |
| UdpNetwork.GapBound | src/dataplane.rs:341-361 | with W workers on an ordered network a reported gap is at most W − 1 plus the losses so far |
| UdpNetwork.OneWorkerNeverDrops | src/dataplane.rs:433-456 | a single worker on an ordered network without loss or failed sends never causes a drop report |
| UdpNetwork.GapBoundIsReached | src/dataplane.rs:433-456 | for every W some run without any loss reports a gap of W − 1 |
| UdpNetwork.EveryDropIsFalse | src/dataplane.rs:341-361 | on an ordered lossless network with nothing held or in flight no number is missing, and the drops are exactly the late arrivals |
| UdpNetwork.CanSettle | src/dataplane.rs:433-456 | every run can be continued, in order and without a loss, until nothing is held or in flight |
| UdpNetwork.AnythingMayBeLost | src/dataplane.rs:341-361 | nothing is assumed of the network: from every point of every run all that is in flight may be lost, even after a copy of it was delivered |
| UdpNetwork.SendMayFail | src/dataplane.rs:445-454 | any number taken may go into no datagram at all |
| UdpNetwork.FalseDropsReached | src/dataplane.rs:341-361 | for every W some run on an ordered network loses nothing and delivers everything, and has at least W − 1 drops reported |
| UdpDatagram.WriteHdr | src/dataplane.rs:320-325 | the first 20 bytes of the buffer become the header, the rest stays |
| BigEndian.FourBytes | src/dataplane.rs:321-324 | the four bytes of a number on the wire, most significant first |
| UdpDatagram.ReadAfterWrite | src/dataplane.rs:327-339 | reading a written header gives its fields back, whatever follows |
| UdpDatagram.WriteAfterRead | src/dataplane.rs:327-339 | a buffer reads as a header exactly if it is long enough and begins with the magic, and then it begins with that header's bytes |
| UdpDatagram.SendPass | src/dataplane.rs:431-464 | one pass sends the datagrams of successive slices until cancelled or failed; a completed pass counts the payload and as many packets as it sent, an incomplete one counts nothing but a failed send |
| UdpDatagram.PassIsAccepted | src/dataplane.rs:378-383 | every datagram of a pass is at most 8192 bytes and accepted by the length check, and a completed pass delivers the payload |
| UdpDatagram.AcceptedIff | src/dataplane.rs:378-382 | a datagram is accepted with header h if and only if it begins with the bytes of h and is exactly as long as h says |
| UdpDatagram.SlicesMakeThePayload | src/dataplane.rs:431-446 | ceil(len / 8172) slices, one after the other, are the payload |
| Accounting.ProgramSums | src/dataplane.rs:388-394 | the additions of an update bring exactly its amounts to the total and leave no debt between total and peers |
| Accounting.ProgramTotalsFirst | src/dataplane.rs:447-464 | at no point inside an update has a peer been credited before the total |
| Accounting.EveryRunBalances | src/metrics.rs:28-50 | in every interleaving of single additions: total = peers + unattributed + owed, and what is counted plus what is pending is what was begun |
| Accounting.EveryPeerGetsItsOwn | src/dataplane.rs:384-394 | in every interleaving, for each peer and counter, what is counted plus what is pending for that peer is what the operations addressed to it brought: sends to it, and datagrams that carry its id as sender, if that is a known id other than the own one |
| Accounting.TotalCoversPeers | src/dataplane.rs:194-200 | at every step, for the exact count of each counter, total ≥ sum over the peers, and total ≤ what was begun |
| StoredCounters.EveryRunIsWrapped | src/metrics.rs:28-50 | in every run each stored 64-bit counter is its exact count modulo 2^64 |
| StoredCounters.StoredTotalCoversPeers | src/metrics.rs:28-50 | while what a run brings fits 64 bits, the stored total is at least the sum of the stored peers at every step |
| StoredCounters.CoversIffFits | src/metrics.rs:28-50 | at every step of every run, for every counter, the stored total covers the stored peers if and only if the peers' counts modulo 2^64 and the wrapped surplus of the exact total fit 64 bits together |
| StoredCounters.CoversIffPeersFit | src/metrics.rs:28-50 | between updates the stored sent and dropped totals cover the peers if and only if the peers' counts modulo 2^64 fit 64 bits together |
| StoredCounters.SingleTargetIsCovered | src/metrics.rs:28-50 | between updates a single target is always covered, wrapped or not |
| StoredCounters.CoversIffUnwrapped | src/metrics.rs:28-50 | while no peer's own counter has wrapped, covering means that the total has not wrapped either |
| StoredCounters.WrapLosesCover | src/metrics.rs:28-50 | a run with 2^63 bytes to each of two peers, after which the stored total is zero and the peers hold 2^64 together |
| Accounting.IdleTotalsAreExact | src/dataplane.rs:383-394 | between updates the total exceeds the peers by exactly the traffic of unknown or own senders |
| Accounting.IdlePeersAreExact | src/dataplane.rs:384-394 | between updates each peer counts exactly what the operations addressed to it brought |
| Accounting.SentAndDroppedHavePeers | src/dataplane.rs:226-243 | with valid targets no sent or dropped traffic of any run is unattributed |
| Accounting.SentAndDroppedAgree | src/dataplane.rs:447-464 | between updates, with valid targets, the peers' sent bytes, sent packets and drops add up to the total |
| SentPasses.UdpSentIsWholePasses | src/dataplane.rs:457-464 | between updates UDP bytes and packets sent are the completed passes times the payload length and times ceil(len / 8172), whatever passes failed or were cancelled |
| SentPasses.TcpSentIsWholeWrites | src/dataplane.rs:226-233 | between updates TCP bytes sent are the completed writes times the payload length, and packets sent their number |
| SentPasses.SentIsWholePasses | src/dataplane.rs:226-243 | at every step sent bytes and packets, with what is pending, are the completed TCP writes or UDP passes times what one counts, as `UdpDatagram.SendPass` counts it |
| Metrics.EntriesReadBack | src/metrics.rs:221-239 | leaving out peers without traffic loses nothing: every peer reads back with its own counts |
| Metrics.EntryIffTraffic | src/metrics.rs:221-239 | a peer has an entry, with its name and counts, if and only if one of its five counters is positive |
| Metrics.EntriesInOrder | src/metrics.rs:221-239 | the entries stand in the order of the host list |
| Metrics.WindowCarries | src/metrics.rs:240-256 | a window carries the server, the duration and the total that it was made for |
| Windows.EveryRunTelescopes | src/server.rs:253-259 | with additions between any two loads of a snapshot and no wrap-around, for every counter the deltas add up to last minus first snapshot |
| Windows.WindowsTelescope | src/server.rs:250-283 | what the windows report for a peer and field, or for the total, adds up to the last snapshot minus the first |
| Windows.TelescopesIffNoClip | src/metrics.rs:63-71 | saturating differences of successive loads add up to last minus first if and only if no load falls, and never to less |
| Windows.RunTelescopesIffNoFall | src/server.rs:253-259 | in every run, wraps included, a counter's windows add up to at least last minus first snapshot, and to exactly that if and only if no snapshot loaded less than the one before |
| Windows.WindowsNeverOverstate | src/server.rs:253-259 | in every run, wraps included, a counter's windows report at most what was added between its first and last load, and exactly that if and only if it did not wrap in between |
| Windows.ReportsNeverOverstate | src/server.rs:250-283 | the same for what the emitted windows report of a peer and field |
| Windows.WrapExceedsSnapshots | src/metrics.rs:63-71 | a run in which a counter wraps: the windows add up to more than last minus first stored snapshot, and to less than the counter gained |
| MetricsLoop.WaitUntilMono | src/server.rs:210-237 | returns at or after the deadline or on cancellation, and never waits on once a reading has passed the deadline; a wait that ends at its deadline can have found the token set in its last two observations only; every sleep aims at 200 µs before the deadline, and no reading before that is made without sleeping |
| MetricsLoop.MetricsLoop | src/server.rs:166-208 | every window closes at or after its mark, with the measured duration, and within five observations of the mark or of the beginning of its wait; at most one window is emitted after cancellation, and for no emitted window was the token found set during its wait before the last two observations |
| MetricsLoop.StopDropsInterval | src/server.rs:183-191 | if the token is found set during the wait for a window that is emitted all the same, this was in the observation of its close or one of the two before it; so a stop any earlier drops the interval |
| MetricsLoop.DurationsAddUp | src/server.rs:250-252 | reported durations add up to the time since the origin plus one nanosecond per window in which the clock did not move |
| MetricsLoop.LatenessShrinks | src/server.rs:183-202 | a window is never early, and late by at most what the one before was late beyond a second, plus six readings |
| MetricsLoop.NoDrift | src/server.rs:183-202 | if six readings fit into a second, every window is at most six readings late, however many came before |
| MetricsLoop.StretchLength | src/server.rs:183-202 | then any stretch of windows lasts its number of seconds up to six readings, whatever its length |
| HostPattern.FindRange | src/config.rs:367-392 | the index loop computes `FindFrom` |
| HostPattern.FindFromMeans | src/config.rs:367-402 | the leftmost range is found; failing that, an error exactly if some brace is never closed |
| HostPattern.OneBraceFewer | src/config.rs:354-361 | substituting digits for any range, nested or not, removes exactly one opening brace, which is why the recursion ends |
| HostPattern.ExpandPattern | src/config.rs:321-364 | terminates on every string and computes `Expansion`, the first failure included |
| HostPattern.ExpansionIsNormal | src/config.rs:321-364 | no host of an expansion contains a range |
| HostPattern.ExpandHostlist | src/config.rs:305-319 | succeeds if and only if every item expands and no host occurs twice in the concatenation, and returns that |
| HostPattern.ExpansionIsStable | src/config.rs:305-319 | expanding an expanded list gives the same list |
| RangeProduct.ExpansionIsProduct | src/config.rs:321-364 | a pattern of any number of ranges, open and closed braces around them included, from whose filling no further range arises, expands if and only if every range fits 64 bits and has at most 10,000 values and no brace stays open, and then to all combinations in order |
| RangeProduct.ExpansionInNormalText | src/config.rs:321-364 | in text without ranges or open braces no further range arises and no brace stays open, so only the ranges decide |
| RangeProduct.FoundBehind | src/config.rs:367-392 | the search passes over text in which it finds no range, open braces included, to the range behind it |
| RangeProduct.ProductAt | src/config.rs:344-361 | the combinations are complete and in lexicographic order: each choice of one number per range stands at its mixed-radix rank |
| RangeProduct.FindPast | src/config.rs:367-392 | text without ranges or open braces, closed braces included, does not change what is found behind it |
| RangeProduct.SingleRange | src/config.rs:325-361 | one range, whatever braces surround it as long as no other range comes about, expands if and only if it can and no brace stays open, to as many different hosts as it has numbers, in counting order, padded to the width of the start |
| RangeProduct.StartIsKept | src/config.rs:335-359 | the first text of every range is its start as written, leading zeros included |
| RangeProduct.TextsArePadded | src/config.rs:335-359 | each text is its number, filled up with zeros to the length of the start if that has two or more digits and a leading zero, and plain otherwise |
| RangeProduct.FirstHost | src/config.rs:321-364 | the first host of a pattern of one range is the pattern with the range replaced by its start as written |
| RangeProduct.OpenBraceFails | src/config.rs:387-389 | a pattern with a brace that only the range's closing brace closes is refused, although the range is found |
| RangeProduct.WrappedDistinct | src/config.rs:354-360 | different numbers, padded or not, give different hosts |
| Decimal.ValueOfPadded | src/config.rs:355-359 | a number printed with leading zeros reads back as itself |
| Decimal.FirstDigitCounts | src/config.rs:329-334 | the value of a digit string in place notation, its first digit by its power of ten |
| Framing.Stream.WriteFrame | src/proto.rs:79-88 | appends length and message, or refuses an over-long message and leaves the stream alone |
| Framing.Stream.ReadFrame | src/proto.rs:90-98 | consumes one frame from the front; every failure and what it leaves behind |
| Framing.ReadsBackIffNotEmpty | src/proto.rs:79-98 | a written frame reads back as its message, with what follows untouched, exactly if its encoding is not empty |
| Framing.CutShortIsNoMessage | src/proto.rs:90-98 | a frame cut short at any byte is never read as a message |
| Framing.ReadOnlyFrames | src/proto.rs:90-98 | a successful read means that a frame of 1 byte to 16 MiB was at the front |
| Framing.EveryRunInOrder | src/proto.rs:79-98 | however sends and reads interleave, the messages received are a prefix of those sent, no read fails, and the rest is in flight as whole frames |
| Framing.NextRead | src/proto.rs:90-98 | at any point of a run the next read gives the first message not yet received, or waits if there is none |
| Framing.SentIsAccepted | src/proto.rs:79-88 | the messages sent are those handed over, in order, whose encoding is at most 16 MiB |
| Framing.EverythingArrives | src/proto.rs:79-98 | reading on delivers every message sent, in order, and empties the stream |
| RateStats.FromSamples | src/analyze.rs:24-54 | nothing for no samples; otherwise the least and greatest rate and the saturated overall rate |
| RateStats.MinAvgMax | src/analyze.rs:22-54 | with positive durations average ≤ maximum, and minimum ≤ average unless the byte sum saturates |
| RateOrder.MinAvgIffFits | src/analyze.rs:22-54 | for any n windows of at most B bytes and at least a given positive length, minimum ≤ average is guaranteed if and only if n · B fits 64 bits |
| RateOrder.EqualWindows | src/analyze.rs:41-47 | for n equal windows minimum ≤ average holds if and only if their bytes together fit 64 bits |
| RateOrder.AvgMaxIffDurations | src/analyze.rs:44-47 | for given durations average ≤ maximum holds for all byte counts if and only if all are positive or all are zero |
| RateOrder.MetIffReal | src/analyze.rs:172-185 | a list of windows can be the samples of a pair, or of the total, if and only if each has bytes and lasts at least 50 ms |
| RateOrder.SaturationBreaksAverage | src/analyze.rs:41 | recorded rows of one-second windows whose reported average is below their minimum |
| RateOrder.EmptyWindowBreaksAverage | src/analyze.rs:44-47 | for any durations of which some are zero and some positive, byte counts whose average exceeds their maximum |
| RateStats.Group | src/analyze.rs:156-185 | one pass over the rows puts every counted sample, in order, with its pair, every counted rate into its second, and nothing else |
| RateStats.SamplesAre | src/analyze.rs:166-178 | a sample belongs to a pair if and only if some row of its sender, of at least 50 ms, reports those bytes as sent to its receiver, bytes positive and receiver other than sender |
| RateStats.BucketIs | src/analyze.rs:180-182 | a row belongs to the second of the wall clock in which its window began |
| RateStats.OneSecond | src/metrics.rs:202-207 | the rate of a one-second window is its bytes in bits per second |
| RateStats.PairStatsAreOrdered | src/analyze.rs:166-178 | every reported pair has a positive minimum and an average between its extremes |
| RateStats.Totals | src/analyze.rs:199-206 | the folds over the per-second sums, with minimum ≤ mean ≤ maximum |
| RateStats.BucketsConserve | src/analyze.rs:180-184 | the sums of all seconds together are the rates of all counted rows |
| RateStats.Load | src/analyze.rs:159-207 | there is a report exactly if some row counts; it has the statistics of every pair with a sample, and totals that are always the per-second ones |
| RateStats.SortedIsStableSort | src/analyze.rs:271-283 | the order is by (average, minimum), a permutation, and keeps tied pairs in place |
| RateStats.WorstPairs | src/analyze.rs:271-284 | five pairs or all; no omitted pair is strictly below a listed one |
| HostPort.ParsedIsSpelled | src/netutil.rs:34-67 | only `host:port` with one colon and `[host]:port`, with a non-empty host and a 16-bit port, are accepted |
| HostPort.SpelledIsParsed | src/netutil.rs:34-67 | every such spelling, with white space around it or not, is accepted as that host and port |
| HostPort.RoundTripIffPrintable | src/netutil.rs:76-82 | for every port, parsing what was joined gives host and port back if and only if the host is not empty, does not begin with a bracket, and has no closing bracket if it has a colon and no leading white space if it has none |
| HostPort.PlainIsNormalised | src/netutil.rs:34-82 | an accepted address without brackets is joined to a form that parses to the same again |
| HostPort.ParsePortIff | src/netutil.rs:48-62 | a port is accepted if and only if it is one or more digits, with or without a plus sign, whose value fits 16 bits |
| Text.TrimStrips | src/netutil.rs:35 | white space at both ends is removed, and nothing else |
| Text.WhitespaceIs | src/netutil.rs:35 | white space is the 25 characters that Unicode lists as such |

## Left out

- Sockets, name resolution, binding, interface enumeration, connect retry (src/netutil.rs:92-295, src/dataplane.rs:30-94), SQLite (src/db.rs), process sampling and clocks (src/metrics.rs:104-200): foreign calls, replaced by parameters, streams of observations or events.
- JSON and TOML: the encoding of messages is a parameter, required to be invertible; that serde's encoding is, for finite numbers, is not proved here.
- Command line, signals, report layout, number formatting and size parsing: no deep property.
- Floating point: rates are exact reals, so rounding in `bps` and in the sums is not modelled; neither are the rates, CPU and memory figures of a metric window.
- The atomics of `AtomStats`, the shared ack counter and the shared sequence counters are fields of the step systems' states, not objects, because what matters is their interleaving; each addition and load is one step, and weaker memory orders are not modelled.
- `RoundRobin` and `PairRounds` keep their lists as sequences that the loops reassign; only `FillResolved` and the packet buffer work on arrays.
- The standard library's sort is a function (`RateStats.Sorted`) that is proved to be a stable sort; map iteration order only decides which of two tied pairs is listed.
- The mesh path of the client, the drain of readers at the end, and the server's accept loop.
- TCP receivers are spawned outside the test's task set, so they can outlive its stop for a moment; a late addition goes to counters that no window reads any more.
- Drop counts across tests: each Start makes new counters and new slots at both ends at different moments, and the code promises nothing there.
- Frame writes are taken to be atomic in ServerSession and ControlRounds; aborting the metrics task in the middle of a write would cut a frame, and nothing is claimed for that case.
- Memory use: the program lists the numbers of a range before it checks that there are at most 10,000.
- UdpNetwork.GapBound: sequence numbers stay below the largest 64-bit value; the counter's wrap-around is not modelled.
- Windows.WindowsTelescope: assumes that no counter wraps; without that, RunTelescopesIffNoFall says exactly when the sum is right.
- Windows.EveryRunTelescopes: says nothing about peers against the total within one window, because a snapshot loads the total first and traffic continues.
- MetricsLoop.NoDrift: assumes that the grid does not saturate the 64-bit clock, and that readings are at most eps apart, where the reading after a sleep is counted from the time the sleep aimed at and the time to send a window counts as the gap after it.
- Accounting.TotalCoversPeers: counts are exact there; what the 64-bit counters hold is stated in StoredCounters.
- RangeProduct.ExpansionIsProduct: ranges that come about only when others are filled in, such as `{{1..2}..3}`, are covered by ExpansionIsNormal and ExpandHostlist only.
