# WS63 firmware examples: a verified model

The repository is a set of firmware examples for the WS63 radio chip. Most of it drives registers or calls
radio, TCP/IP and RTOS crates. This project models the parts that hold algorithms and state machines of their
own, and proves what they keep over every input and every run.

The model follows the code's own form. Objects whose methods update fields are classes; loops over arrays and
counters are methods with loops. Each of those methods is proved to compute a specification function or
predicate, and the lemmas beside it say what that specification means. The environment (radio, sockets of
smoltcp, clock, UART) is not modelled: what it delivers is an argument, either a sequence of turns, so that a
theorem covers every prefix of a run, or a function from the number of a request to what that request meets.
What is printed becomes a result.

| file | component |
|---|---|
| `VendorLog.dfy` | the ring buffer for vendor log output and its drain in chunks, with pushes between the critical sections |
| `Checksum.dfy`, `ChecksumLaws.dfy` | the Internet checksum with its u32 accumulator, and the laws of RFC 1071 |
| `PingFrame.dfy`, `PingSeries.dfy`, `PingStats.dfy` | echo requests rewritten in one buffer, the two ping series, and their statistics |
| `LocalProbe.dfy`, `EchoNetwork.dfy` | the station's echo probe, the access point's echo service, and a network that loses, reorders and duplicates |
| `LeaseMachine.dfy` | the DHCP lease, the interface's address and route, and the restart timer |
| `DnsContract.dfy`, `DnsProbe.dfy` | the DNS query, the responses accepted for it, and the probe with its retries and rotating targets |
| `ScanFlow.dfy` | initialize, scan at most twice, connect and reconnect, with one event expected for each operation |
| `TxTimeline.dfy` | the two readers of the transmit timeline rings |
| `MacWords.dfy`, `Decimal.dfy`, `RomTable.dfy` | frames in MAC words, decimal text, the ROM symbol table |
| `Machine.dfy`, `Modulo.dfy`, `Bits.dfy`, `Net.dfy` | machine integers, division by a variable, bit masks, datagrams |

Some properties one would expect of this code do not hold of it without a condition. The code is kept as it is,
and the condition is proved to be exact:

- A changed word goes unnoticed by the checksum exactly when it changes between 0x0000 and 0xFFFF and some
  other word is not zero (`Rfc1071Laws.ChangedWordIsDetected`).
- The code computes the checksum of every region of a given length if and only if that length is at most 65537
  words; at every other length its 32-bit accumulator wraps for some region
  (`Rfc1071Laws.AccumulatorBoundIsTight`).
- A counted echo reply need not answer the probe that counts it: sequences start at 0 for every probe, and the
  payload does not tell the probes apart. In all runs every counted reply stems from a request of the same run
  if and only if neither a one-byte request nor a one-byte reply of an earlier probe, with a sequence below ten,
  is in flight when it starts; the runs that show the need of this have a monotone clock and end before the
  timeout (`EchoNetwork.AnswersThisRunIffNothingEarlier`). That the reply was at least echoed during the run needs
  only the second half (`EchoNetwork.SafeIffNoEarlierReply`). A datagram that already waits at a receiver counts as
  one in flight that is delivered first.
- `dns_probe` prints `targets[0]` and `targets[1]` before its first attempt and panics on a shorter list. A run
  that nothing ends early finishes with every entry tried twice if and only if the list has from 2 to 32767
  entries (`DnsProbe.FullRunTriesEachTwice`).
- `write_new_tx_timeline` cuts the completion ring off at the length of the submission ring. Over all histories
  and interleavings it reports the right events if and only if both have the same length: a longer cut-off
  misreads an overwritten event, a shorter one skips a retained one (`TxTimeline.SharedCutoffNeedsEqualRings`).
- Every scan and connection of a run finds the event queue empty if and only if no operation before the last one
  leaves an event behind (`ScanFlow.StartsCleanIffNothingLeft`).
- The timer bound of the DHCP restart holds up to the end of the u64 clock range, where the code's deadline
  saturates (`LeaseMachine.RestartTimerBound`).

Integers have the source's widths. Saturating, wrapping and truncating operations are written out, and a bit
mask or a shift as the division and remainder that select the same bits. A panic is an error result or a
halted state.

## Model

| member | source | states |
|---|---|---|
| `VendorLog.VendorLogBuffer.Push` | wifi_init_smoke/src/main.rs:337-363 | after any chunk, larger than the capacity or not, the readable bytes are the last min(total, capacity) bytes of everything pushed and `dropped` is the rest, saturated; neither `len` nor the evicted count ever goes down |
| `VendorLog.VendorLogBuffer.Trim` | wifi_init_smoke/src/main.rs:338-345 | an input of the capacity or more gives up the whole content and all but its own last capacity bytes |
| `VendorLog.VendorLogBuffer.MakeRoomAndAppend` | wifi_init_smoke/src/main.rs:349-362 | the oldest bytes that are in the way leave and are counted, and the new ones follow the rest |
| `VendorLog.VendorLogBuffer.Evict` | wifi_init_smoke/src/main.rs:349-357 | exactly the oldest bytes in the way are given up and counted |
| `VendorLog.VendorLogBuffer.CopyIn` | wifi_init_smoke/src/main.rs:358-361 | two slice copies write the bytes from `end` on, going round, and nothing else |
| `VendorLog.VendorLogBuffer.Append` | wifi_init_smoke/src/main.rs:358-362 | the content grows by exactly the new bytes, behind the old ones |
| `VendorLog.VendorLogBuffer.CopyFrom` | wifi_init_smoke/src/main.rs:365-372 | the output gets the content from the offset on as far as it reaches, across the wrap, and is unchanged behind that |
| `VendorLog.ObservedAfterPush` | wifi_init_smoke/src/main.rs:337-363 | the view after a push follows from the view before it, without the history |
| `VendorLog.ChunkingIsInvisible` | wifi_init_smoke/src/main.rs:337-363 | content and dropped count after any chunks are those of the one concatenated stream |
| `VendorLog.SameStreamSameView` | wifi_init_smoke/src/main.rs:337-363 | two ways to cut the same stream into chunks give the same content and the same dropped count |
| `VendorLog.ReadSection` | wifi_init_smoke/src/main.rs:397-401 | one critical section reads exactly the bytes behind what is evicted by then and what was read before, as many as the chunk and the history hold |
| `VendorLog.DrainAll` | wifi_init_smoke/src/main.rs:394-410 | the loop ends whatever is pushed between its critical sections, with as many bytes put out as the log then holds, and the dropped count it ends with is the one of its last section |
| `VendorLog.FlushVendorLog` | wifi_init_smoke/src/main.rs:388-411 | whatever is pushed between critical sections the drain ends and `len - offset` never underflows; the output is pieces in order, the k-th of which is exactly what the k-th critical section found in the history as it was then; between two pieces as many bytes are missing as were evicted between these two sections |
| `VendorLog.SectionAt` | wifi_init_smoke/src/main.rs:397-410 | the k-th piece starts behind what the history of its own critical section had lost, does not reach beyond that history, and is filled as far as chunk and history go |
| `VendorLog.NothingEvictedNothingMissed` | wifi_init_smoke/src/main.rs:394-410 | pieces between which nothing was evicted are one contiguous part of the history |
| `VendorLog.DrainWithoutEviction` | wifi_init_smoke/src/main.rs:394-410 | a drain during which nothing is evicted puts out the content exactly |
| `Rfc1071.InternetChecksum` | wifi_init_smoke/src/main.rs:2250-2263 | the complement of the end-around sum of the wrapped accumulator, odd tail included, which is the RFC 1071 checksum for up to 65537 words |
| `Rfc1071.FoldCarries` | wifi_init_smoke/src/main.rs:2259-2261 | the fold loop takes at most two turns and ends with the end-around value of the sum, 0 only for sum 0 |
| `Rfc1071.AddUp` | wifi_init_smoke/src/main.rs:2251-2258 | the accumulator ends with the sum of the words and the odd byte as far as a u32 holds it |
| `Rfc1071.FoldKeepsValue` | wifi_init_smoke/src/main.rs:2259-2261 | one fold makes the sum smaller, keeps it positive and keeps its value |
| `Rfc1071.FoldNeedsAtMostTwoTurns` | wifi_init_smoke/src/main.rs:2259-2261 | two folds are enough for every u32 |
| `Rfc1071.EndAroundIsResidue` | wifi_init_smoke/src/main.rs:2259-2261 | the value is the sum's residue modulo 65535 |
| `Rfc1071.AccumulatorFits` | wifi_init_smoke/src/main.rs:2251-2258 | the u32 accumulator holds the exact sum of up to 65537 words |
| `Rfc1071Laws.AccumulatorBoundIsTight` | wifi_init_smoke/src/main.rs:2251-2262 | for every length: all regions of that length get their checksum if and only if it is at most 65537 words |
| `Rfc1071Laws.StoredChecksumVerifies` | wifi_init_smoke/src/main.rs:2118-2124 | storing the checksum of a region into its zeroed aligned field makes the whole region verify, for every content and any length (RFC 1071, section 1) |
| `Rfc1071Laws.ExampleOfSection3` | wifi_init_smoke/src/main.rs:2250-2263 | the example of RFC 1071, section 3, has the checksum given there |
| `Rfc1071Laws.VerifiesIffStored` | wifi_init_smoke/src/main.rs:2250-2263 | a region verifies if and only if its field holds that checksum, up to the two encodings of zero |
| `Rfc1071Laws.ChangedWordIsDetected` | wifi_init_smoke/src/main.rs:2250-2263 | changing one aligned word keeps the checksum if and only if the change is between 0x0000 and 0xFFFF beside a non-zero word |
| `Rfc1071Laws.WordOrderIsIrrelevant` | wifi_init_smoke/src/main.rs:2250-2263 | any permutation of the aligned words has the same checksum (RFC 1071, section 2) |
| `Rfc1071Laws.SwappedBytesSwapChecksum` | wifi_init_smoke/src/main.rs:2250-2263 | exchanging the bytes of every word exchanges the bytes of the checksum (RFC 1071, section 2) |
| `PingFrame.BuildFrame` | wifi_init_smoke/src/main.rs:2088-2103 | the zeroed array is filled to the frame with both addresses, length 60, TTL 64, ICMP echo type, identifier and payload, and zero id, sequence and checksums |
| `PingFrame.RefreshFrame` | wifi_init_smoke/src/main.rs:2117-2124 | whatever ids and checksums the last request left, the buffer becomes the request of this sequence number with both checksums right |
| `PingFrame.RequestVerifies` | wifi_init_smoke/src/main.rs:2116-2124 | every request has a verifying IPv4 header (RFC 791, section 3.1) and a verifying ICMP message |
| `PingFrame.RequestFields` | wifi_init_smoke/src/main.rs:2088-2124 | every field of a request by its offset in Ethernet, IPv4 and ICMP: the gateway first, own addresses, lengths, ids, type 8, identifier, sequence number and payload |
| `PingSeries.AwaitFrame` | wifi_init_smoke/src/main.rs:2138-2187 | the wait of at most 100 steps answers ARP requests for the own address and ends with the first matching echo reply |
| `PingSeries.WaitEndsWithFirstReply` | wifi_init_smoke/src/main.rs:2138-2187 | the sample is the round-trip time of the first matching reply among the first 100 steps, or no reply |
| `PingSeries.WaitAnswersArp` | wifi_init_smoke/src/main.rs:2140-2158 | exactly the ARP requests for the own address that come before the end of the wait are answered |
| `PingSeries.EchoReplyFields` | wifi_init_smoke/src/main.rs:2159-2166 | a frame counts exactly if its bytes say ICMP type 0 from the target to the own address with the identifier and the sequence number |
| `PingSeries.GenuineReplyCounts` | wifi_init_smoke/src/main.rs:2117-2166 | the reply RFC 792 asks for to request k counts for request j if and only if j is k, and the request itself never counts |
| `PingSeries.ArpIsAnswered` | wifi_init_smoke/src/main.rs:2141-2156 | an ARP packet (RFC 826) is answered if and only if it is a request for the own address, with a reply that tells its sender the own MAC |
| `PingSeries.RoundTripIsElapsed` | wifi_init_smoke/src/main.rs:2168-2170 | the round-trip time is the time that went by, at most what a u32 holds |
| `PingSeries.OneRequest` | wifi_init_smoke/src/main.rs:2116-2191 | one turn leaves the refreshed frame in the buffer, transmits it, and counts its end once |
| `PingSeries.RawSampleIsExact` | wifi_init_smoke/src/main.rs:2116-2191 | a request is an error exactly when it is not transmitted, and otherwise ends with the first reply among a hundred steps, having answered the ARP requests before it |
| `PingSeries.RawSeries` | wifi_init_smoke/src/main.rs:2076-2191 | five requests from one buffer, each with what its own window asks for, and statistics that are those of their five ends |
| `PingSeries.EveryRequestVerifies` | wifi_init_smoke/src/main.rs:2116-2131 | every frame a series hands to the transmitter verifies in both parts |
| `PingSeries.ReplyNamesItsRequest` | wifi_init_smoke/src/main.rs:2159-2166 | no frame is the reply to two sequence numbers, so a late one is not counted again |
| `PingSeries.FirstMatch` | wifi_init_smoke/src/network_runner.rs:337-340 | the place of the first message that comes from the target with the identifier and this sequence number; none before it does |
| `PingSeries.ReceiveBatch` | wifi_init_smoke/src/network_runner.rs:322-361 | the receive loop stops at that place |
| `PingSeries.AwaitReply` | wifi_init_smoke/src/network_runner.rs:318-369 | the wait for one reply ends as its window asks for |
| `PingSeries.SampleIsExact` | wifi_init_smoke/src/network_runner.rs:297-369 | a request is an error exactly when the socket does not take it, and otherwise ends with the first reply to it that its own window delivers, or without one |
| `PingSeries.AwaitEndsWithFirstMatch` | wifi_init_smoke/src/network_runner.rs:318-369 | the sample is the time of the first match among all that arrives before the timeout, or no reply |
| `PingSeries.DeliveredInTime` | wifi_init_smoke/src/network_runner.rs:319-325 | what a wait takes in is what waits in its turns up to the first that begins a second after the start |
| `PingSeries.RepliesAreExact` | wifi_init_smoke/src/network_runner.rs:329-340 | a message is a reply exactly if it is an echo reply from the target with the identifier and the sequence number |
| `PingSeries.Series` | wifi_init_smoke/src/network_runner.rs:288-370 | for any count each sequence number gives one sample from its own window, and the statistics are those of the samples |
| `PingStats.Counters.CountReply` | wifi_init_smoke/src/network_runner.rs:347-354 | counters that show the number, sum and extremes of any round-trip times show those of one more afterwards, and tx and the errors stay |
| `PingStats.StatsAreExact` | wifi_init_smoke/src/network_runner.rs:288-370 | tx plus errors is the number of requests, rx is the number of answered ones, total and extremes are those of their times, and no counter saturates, for every u16 count |
| `PingStats.AverageIsBetween` | wifi_init_smoke/src/main.rs:2230-2241 | the reported average is the mean of the answered requests' times, rounded down, and lies between the reported minimum and maximum |
| `PingStats.LossIsExact` | wifi_init_smoke/src/network_runner.rs:372-376 | the loss is the whole percentage of sent requests without a reply, within 0..100, and 100 when nothing was sent |
| `LocalProbe.ProbeLoop.ReceiveWaiting` | wifi_connectivity/src/network_runner.rs:699-719 | the receive loop takes every waiting datagram, and counts an answer to a sent sequence once |
| `LocalProbe.ProbeLoop.AnnounceAndSend` | wifi_connectivity/src/network_runner.rs:720-742 | what goes out is nothing or the sequence that is up next, at this moment, and only with an accepted send; the counter and the last send time follow it, and a notice comes exactly when recovery becomes announced |
| `LocalProbe.TurnKeepsPace` | wifi_connectivity/src/network_runner.rs:697-742 | a turn of a paced probe leaves it paced: order, distances, recovery delay and the one notice |
| `LocalProbe.LocalNeighborProbe` | wifi_connectivity/src/network_runner.rs:689-764 | the loop is the specified run over the turns before the timeout, an exit ends it at once, and only at the timeout is a report made |
| `LocalProbe.WaitingAnswersAreCounted` | wifi_connectivity/src/network_runner.rs:699-719 | every waiting answer to a sent sequence is marked and counted after the receive loop, whatever else is waiting |
| `LocalProbe.RunIsPacedAndCounted` | wifi_connectivity/src/network_runner.rs:690-746 | in every run counted replies are the set bits, each once, all below `sent` and below 16; with a monotone clock sends are 0, 1, 2 and so on, at most ten, 500 ms apart, the sixth and later after 5000 ms and the one recovery notice |
| `LocalProbe.TurnSendsWhenDue` | wifi_connectivity/src/network_runner.rs:720-742 | a turn sends the next sequence exactly when it is due and the socket takes it, over the whole range of the clock |
| `LocalProbe.TurnGivesNoticeWhenDue` | wifi_connectivity/src/network_runner.rs:721-730 | the recovery notice comes in the first turn with five sends behind it and five seconds gone by, and in no other |
| `LocalProbe.TurnCountsEarlierSends` | wifi_connectivity/src/network_runner.rs:698-719 | a turn counts only what waits from the target when it begins, for sequences sent in earlier turns |
| `LocalProbe.MaskFitsItsType` | wifi_connectivity/src/network_runner.rs:703-709 | the received mask fits a u16 and the shift stays below 16 in every run |
| `LocalProbe.InTimeForTwelveSeconds` | wifi_connectivity/src/network_runner.rs:696-696 | the loop goes on for twelve seconds |
| `LocalProbe.FirstAttemptIsImmediate` | wifi_connectivity/src/network_runner.rs:694-694 | the wrapped initial time makes the first attempt due at once, even next to the clock's origin |
| `LocalProbe.RunOnSchedule` | wifi_connectivity/src/network_runner.rs:696-746 | in a run with accepted sends and turns at most a gap apart each send is out by its latest time, and the clock never passes the time the next one is due |
| `LocalProbe.AllTenGoOut` | wifi_connectivity/src/network_runner.rs:696-746 | when that gap is less than 750 ms all ten sequences are out before the probe times out |
| `LocalProbe.LostIsExact` | wifi_connectivity/src/network_runner.rs:761-761 | `sent - replies` does not saturate and is the number of sent sequences that were never counted |
| `LocalProbe.ReportIsExact` | wifi_connectivity/src/network_runner.rs:749-763 | after any run the report gives the sends, the distinct replies, the loss, and reachable if and only if something was counted |
| `EchoNetwork.EchoService.ServiceEcho` | wifi_softap/src/network.rs:551-574 | exactly the oldest waiting datagram leaves the queue; everything admitted stays handled once in order or waiting, the outbox holds the replies to those that could be answered, each to its sender, both counters count them, and a sequence is returned exactly for a one-byte answer |
| `EchoNetwork.EchoService.Arrive` | wifi_softap/src/network.rs:107-116 | arrivals join the queue in order as long as a slot and room for the payload are left |
| `EchoNetwork.ArrivalsAreAdmitted` | wifi_softap/src/network.rs:107-116 | as long as sixteen slots and 512 bytes suffice, all arrivals are admitted |
| `EchoNetwork.ServeRounds` | wifi_softap/src/network.rs:136-160 | what the service holds, has handled and has sent after any turns of the access point is determined by what arrived and when it could send |
| `EchoNetwork.SilenceEmptiesQueue` | wifi_softap/src/network.rs:136-160 | as many turns without arrivals as there are datagrams waiting handle them all, in the order they came |
| `EchoNetwork.EchoIsSafe` | wifi_connectivity/src/network_runner.rs:689-762 | whatever the network loses, reorders, duplicates or brings from other hosts, every counted reply is a sequence the station sent and the access point echoed, counted once, provided no reply to an earlier probe is in flight |
| `EchoNetwork.TrafficIsGenuine` | wifi_connectivity/src/network_runner.rs:689-762 | with nothing in flight under a board's address at the start, whatever is in flight under one later was sent by that board |
| `EchoNetwork.StationTurnIsSound` | wifi_connectivity/src/network_runner.rs:697-742 | a turn of the station counts only replies below its send counter, each once and with the packet that made it count |
| `EchoNetwork.SendReachesNetwork` | wifi_connectivity/src/network_runner.rs:731-742 | a turn that sends puts exactly the probe with the next sequence into the network, and one that does not puts nothing |
| `EchoNetwork.SendTurnsSend` | wifi_connectivity/src/network_runner.rs:731-742 | turns that are due send: afterwards each probe is in flight exactly once beside what was there |
| `EchoNetwork.ApTurnIsService` | wifi_softap/src/network.rs:551-574 | the access point's step of the system takes and sends what its echo service does |
| `EchoNetwork.ApEchoes` | wifi_softap/src/network.rs:556-574 | a request is echoed to its sender with its payload exactly when that has at most 256 bytes and the socket sends |
| `EchoNetwork.NetworkMayDoAnything` | wifi_connectivity/src/network_runner.rs:103-106 | the network of the system may lose, double and add packets and deliver any of them next |
| `EchoNetwork.QueuesAlwaysFit` | wifi_connectivity/src/network_runner.rs:103-112 | in every reachable state both receive queues fit their sockets' slots and bytes |
| `EchoNetwork.RunKeeps` | wifi_connectivity/src/network_runner.rs:689-762 | each of three promises on all packets of a run holds in every reachable state if nothing in flight at the start spoils it |
| `EchoNetwork.ReportedLossIsExact` | wifi_connectivity/src/network_runner.rs:749-762 | whatever the network does and whatever is in flight, replies never exceed sends and the reported loss is exact |
| `EchoNetwork.ExchangeIsCounted` | wifi_connectivity/src/network_runner.rs:699-719 | a probe that is delivered, echoed and delivered back is counted |
| `EchoNetwork.EverySequenceCanBeCounted` | wifi_connectivity/src/network_runner.rs:696-746 | from an empty network, for every sequence below ten there is a timely run that sends it, has it echoed and counts it, and counts only answers of its own |
| `EchoNetwork.AtMostTenInSystem` | wifi_connectivity/src/network_runner.rs:31-31 | without duplication and other traffic at most ten datagrams exist anywhere, of one byte each |
| `EchoNetwork.ArrivalsFindRoom` | wifi_softap/src/network.rs:107-116 | then every datagram in flight finds a free packet slot and room for its payload at either receiver |
| `EchoNetwork.EarlierReplyIsCredited` | wifi_connectivity/src/network_runner.rs:703-710 | for every reply to an earlier probe in flight, with a sequence below ten, there is a run with a monotone clock that counts it before the timeout |
| `EchoNetwork.EarlierRequestIsCredited` | wifi_connectivity/src/network_runner.rs:703-710 | for every request of an earlier probe in flight there is such a run that counts its answer |
| `EchoNetwork.SafeIffNoEarlierReply` | wifi_connectivity/src/network_runner.rs:703-710 | all runs are safe if no reply to an earlier probe is in flight at the start, and only then all runs with a monotone clock before the timeout are |
| `EchoNetwork.AnswersThisRunIffNothingEarlier` | wifi_connectivity/src/network_runner.rs:703-710 | in all runs every counted reply stems from a request of the same run if neither a request nor a reply of an earlier probe is in flight at the start, and only then it does in all runs with a monotone clock before the timeout |
| `LeaseMachine.Interface.PollNetwork` | wifi_connectivity/src/network_runner.rs:606-671 | each event of the DHCP client changes lease, address list and default route as specified, and a lost lease resets the client exactly once |
| `LeaseMachine.SmokeInterface.PollNetwork` | wifi_init_smoke/src/network_runner.rs:206-263 | the second runner refines the first one up to the server address it does not keep |
| `LeaseMachine.SmokePolls` | wifi_init_smoke/src/network_runner.rs:206-263 | over any events its three records agree in every reachable state, and are those of the first runner |
| `LeaseMachine.RecordsFollowLastReport` | wifi_connectivity/src/network_runner.rs:606-671 | in every reachable state lease, address list and default route agree, and they hold the last report and nothing of an earlier one |
| `LeaseMachine.KeepPolling` | wifi_connectivity/src/network_runner.rs:519-564 | the loop is the specified run, the client is reset as often as the log says, and only a lost link or a failed backend ends it |
| `LeaseMachine.ExitsAreExact` | wifi_connectivity/src/network_runner.rs:971-1000 | a lost link ends the runner with its reason, a failed backend as such, and nothing else does |
| `LeaseMachine.EveryTurnIsExact` | wifi_connectivity/src/network_runner.rs:521-537 | in every run the timer fires exactly in the turns that find the lease still down past the deadline, never with a lease nor in the first turn of a spell; the only other reset is the one at the loss |
| `LeaseMachine.LogFollowsPolls` | wifi_connectivity/src/network_runner.rs:521-537 | the log tells the clock of every poll, and that there is no lease exactly when the client's last report says so |
| `LeaseMachine.TimerFiresOnTime` | wifi_connectivity/src/network_runner.rs:521-537 | said of the polls alone: the timer resets the client exactly when there was no lease before and is none after the turn and the clock is 10 s past the turn that armed it; a lost lease and nothing else resets it at once |
| `LeaseMachine.ResetsAreSpaced` | wifi_connectivity/src/network_runner.rs:527-537 | within a spell without a lease first seen at c0 the k-th timed reset is no earlier than c0 + 10000k ms |
| `LeaseMachine.ResetsKeepComing` | wifi_connectivity/src/network_runner.rs:527-537 | when polls are at most a gap apart the timer keeps firing, k resets within k deadlines and gaps |
| `LeaseMachine.TimedResetInBounds` | wifi_connectivity/src/network_runner.rs:517-537 | both bounds on a timed reset, for any log of exact turns |
| `LeaseMachine.RestartTimerBound` | wifi_connectivity/src/network_runner.rs:517-537 | said of the polls alone: for the k-th reset of any spell without a lease, no earlier than 10 s times k after its first turn, and with polls at most a gap apart no later than k deadlines and gaps |
| `DnsContract.BuildQuery` | wifi_connectivity/src/dns_contract.rs:24-34 | the array filled piece by piece is a standard query with recursion desired and one question (RFC 1035, section 4.1) |
| `DnsContract.QueryIsOneQuestion` | wifi_connectivity/src/dns_contract.rs:24-29 | by the header fields of RFC 1035 the query is a standard query with recursion desired, one question and no records |
| `DnsContract.QueryAsksForExampleCom` | wifi_connectivity/src/dns_contract.rs:3-32 | its question is the name example.com, type 1 and class 1, and nothing follows it |
| `DnsContract.HeaderHoldsItsFields` | wifi_connectivity/src/dns_contract.rs:43-60 | the header fields the acceptance is stated in make up the header bit for bit |
| `DnsContract.AcceptsExactlyAnswers` | wifi_connectivity/src/dns_contract.rs:36-74 | a response is accepted if and only if its RFC 1035 header and question answer this query successfully and untruncated, with its answer count as result |
| `DnsContract.AcceptedForOneId` | wifi_connectivity/src/dns_contract.rs:43-45 | no response is accepted for two transaction ids |
| `DnsContract.AnswerIsAccepted` | wifi_connectivity/src/dns_contract.rs:24-74 | an answer made from a query is accepted for that query only, exactly when its flags and answer count are good |
| `DnsProbe.ReceiveBatch` | wifi_connectivity/src/network_runner.rs:900-927 | the receive loop stops at the first acceptable datagram |
| `DnsProbe.AwaitResponse` | wifi_connectivity/src/network_runner.rs:895-934 | an attempt accepts the first acceptable datagram of its own window, and only without one does an exit or the timeout end it |
| `DnsProbe.DeliveredInTime` | wifi_connectivity/src/network_runner.rs:895-934 | what an attempt takes in is what waits in its turns up to the first that begins 1500 ms after the start, or up to an exit |
| `DnsProbe.AcceptableMeans` | wifi_connectivity/src/network_runner.rs:904-909 | what an attempt accepts is an answer to its query from port 53 of its target |
| `DnsProbe.MakeAttempt` | wifi_connectivity/src/network_runner.rs:883-939 | an attempt sends the query with its own id, and a failed send is the only end without a wait |
| `DnsProbe.MakeAttempts` | wifi_connectivity/src/network_runner.rs:879-941 | every attempt has the rotated target, its own id and an exact outcome, the counters are the tally of the attempts, and the loop ends with an acceptance, an exit, or all attempts made |
| `DnsProbe.ProbeTargets` | wifi_connectivity/src/network_runner.rs:868-942 | for any list: a panic before anything is sent if and only if it has fewer than two targets, and otherwise such a run with its statistics or its exit |
| `DnsProbe.AttemptsAreConserved` | wifi_connectivity/src/network_runner.rs:887-939 | attempts are tx errors plus timeouts plus responses, plus the attempt an exit ended; there is at most one response, and `successful_target` is set if and only if there is one |
| `DnsProbe.InvalidCountsRejected` | wifi_connectivity/src/network_runner.rs:904-925 | the invalid count is the number of datagrams that were taken and turned down |
| `DnsProbe.IdsAreDistinct` | wifi_connectivity/src/network_runner.rs:879-883 | all transaction ids of a run differ, across the wrap of the u16 |
| `DnsProbe.LateAnswersAreRejected` | wifi_connectivity/src/network_runner.rs:904-926 | a datagram acceptable for one attempt is acceptable for no other attempt of the run |
| `DnsProbe.EchoRepliesAreRejected` | wifi_connectivity/src/dns_contract.rs:40-42 | a stray one-byte echo reply is never acceptable |
| `DnsProbe.AcceptedAnswersCurrentQuery` | wifi_connectivity/src/network_runner.rs:904-918 | the accepted datagram came from the current target, carries the current id and question, and arrived in the current window |
| `DnsProbe.TwiceEachIffListFits` | wifi_connectivity/src/network_runner.rs:869-880 | the planned attempts give each index two turns if and only if the list has from 2 to 32767 entries |
| `DnsProbe.FullRunTriesEachTwice` | wifi_connectivity/src/network_runner.rs:869-880 | a run that nothing ends early finishes with every entry of the list tried exactly twice, if and only if the list has from 2 to 32767 entries |
| `DnsProbe.OneTargetPanics` | wifi_connectivity/src/network_runner.rs:869-874 | on a list of one target the run panics and the target is never tried, although two attempts were planned |
| `DnsProbe.LongListIsNotTried` | wifi_connectivity/src/network_runner.rs:869-879 | a list of 65536 targets, or a multiple of that, is not tried at all |
| `TxTimeline.ReportNew` | wifi_softap/src/network.rs:629-643 | one reader loop reports the retained events from the cursor on, and leaves the cursor at the total |
| `TxTimeline.TimelineCursors.WriteNew` | wifi_softap/src/network.rs:622-664 | both loops with both cursors, cut off at the length of the submissions |
| `TxTimeline.WriteInterval` | wifi_connectivity/src/network_runner.rs:803-854 | the truncation notice is printed if and only if an event from a start index on was overwritten, and the rest is reported |
| `TxTimeline.IntervalIsExact` | wifi_connectivity/src/network_runner.rs:825-853 | against a history the interval reader reports exactly the retained events from its start on, in order and with their own contents |
| `TxTimeline.WriteIntervalOf` | wifi_connectivity/src/network_runner.rs:803-854 | on rings that hold two histories there is no notice if and only if every event from the start indices on is reported |
| `TxTimeline.RingHolds` | wifi_softap/src/network.rs:634-634 | each of the newest N events is in its slot |
| `TxTimeline.RingForgets` | wifi_softap/src/network.rs:634-634 | the slot of every older event holds a later one |
| `TxTimeline.ReportsAreEvents` | wifi_connectivity/src/network_runner.rs:825-853 | reports of retained indices carry the events of the history at these indices |
| `TxTimeline.TimelineIsExact` | wifi_softap/src/network.rs:622-664 | over any interleaving of producer and reader each event is reported at most once, in increasing order, with its own contents, and exactly those overwritten before the reader ran are not reported |
| `TxTimeline.Follow` | wifi_softap/src/network.rs:622-664 | repeated calls of the reader with its cursors, between any submissions and completions on rings of one length, report both histories exactly in that sense |
| `TxTimeline.SharedCutoffNeedsEqualRings` | wifi_softap/src/network.rs:628-647 | a reader with some cut-off reports the right events with their own contents over all histories and interleavings if and only if the cut-off is the ring's length |
| `TxTimeline.LongCutoffMisreads` | wifi_softap/src/network.rs:645-650 | with a longer cut-off an overwritten event is reported with a later one's contents |
| `TxTimeline.ShortCutoffSkips` | wifi_softap/src/network.rs:645-650 | with a shorter one an event that is still in the ring is never reported |
| `MacWords.PackWord` | net_ping/src/main.rs:74-79 | the inner loop makes the little-endian word of the next bytes, unused high bytes zero |
| `MacWords.MacTx` | net_ping/src/main.rs:69-86 | exactly the words of the first 2048 bytes are written, consecutively, and no other word of the window |
| `MacWords.ByteOfPack` | net_ping/src/main.rs:77-77 | each byte position of a packed word holds its byte, and the rest zero |
| `MacWords.PackIsLittleEndian` | net_ping/src/main.rs:77-77 | a full word has its first byte lowest |
| `MacWords.DrainRx` | net_ping/src/main.rs:163-175 | the frame is the first min(length, 2048) bytes of the window |
| `MacWords.UnpackInvertsPack` | net_ping/src/main.rs:69-175 | unpacking a packed frame gives back its first min(length, 2048) bytes |
| `MacWords.Loopback` | net_ping/src/main.rs:69-175 | a frame written and read back through one window comes back as its first 2048 bytes, whatever the window held |
| `Decimal.ParseDecimalU32` | wifi_connectivity/src/config.rs:28-49 | it succeeds if and only if the text is non-empty, all digits and at most 2^32-1, with that value; it says the number exceeds u32 if and only if the leading digits already do |
| `Decimal.PutU32` | net_ping/src/main.rs:197-212 | the text is the canonical decimal text of the number |
| `Decimal.WriteU32` | rtos_scheduler_stress/src/main.rs:70-84 | the reversed fill and reversed output give the same text |
| `Decimal.DigitsAreCanonical` | net_ping/src/main.rs:197-212 | the text is digits, has the number as value, and no leading zero except for "0" |
| `Decimal.DigitCount` | net_ping/src/main.rs:198-198 | a number below 10^n has at most n digits, so the ten of the buffer suffice |
| `Decimal.CanonicalTextIsPrinted` | net_ping/src/main.rs:197-212 | every text without leading zeros is the printed text of its value |
| `Decimal.RoundTrip` | wifi_connectivity/src/config.rs:28-49 | parsing what either printer wrote gives the number back |
| `RomTable.AppendProvides` | wifi_init_smoke/build.rs:94-117 | the loop appends one PROVIDE line for each definition, in order, and panics if and only if a definition is not well formed |
| `RomTable.WriteRomFallbacks` | wifi_init_smoke/build.rs:87-120 | the whole text is the two comments and those lines |
| `RomTable.NamesAreExact` | wifi_init_smoke/build.rs:101-104 | a name is accepted if and only if it is not empty and all its characters are ASCII letters, digits, underscores, dots or dollar signs |
| `RomTable.ValuesAreExact` | wifi_init_smoke/build.rs:108-108 | a value is accepted if and only if it starts with 0x and only hexadecimal digits follow, if any |
| `RomTable.AsciiWhitespace` | wifi_init_smoke/build.rs:95-95 | of the ASCII characters trimming takes tab to carriage return and the blank |
| `RomTable.ProvideLineSays` | wifi_init_smoke/build.rs:111-115 | reading a PROVIDE line gives its definition back |
| `RomTable.HeaderProvidesNothing` | wifi_init_smoke/build.rs:91-92 | the two comment lines contribute nothing |
| `RomTable.RewritingKeepsMeaning` | wifi_init_smoke/build.rs:87-120 | for every accepted source the generated script provides the same names and values in the same order |
| `RomTable.DefinitionLineIsRead` | wifi_init_smoke/build.rs:95-98 | a source line is read as its definition whatever white space surrounds it |
| `RomTable.OnlyDefinitionLinesAreRead` | wifi_init_smoke/build.rs:95-98 | only a line of that form is read as a definition, so other lines contribute nothing |
| `RomTable.LinesAreRead` | wifi_init_smoke/build.rs:94-94 | a text is read as its lines, whichever line ends they have, with or without one at the end |
| `RomTable.SplitsAtFirst` | wifi_init_smoke/build.rs:98-98 | a definition is split at the first place the separator occurs |
| `ScanFlow.Find` | wifi_connectivity/src/main.rs:279-282 | the first result with the wanted name |
| `ScanFlow.Station.DoInitialize` | wifi_connectivity/src/main.rs:172-191 | initialization goes on to scanning only with its own event |
| `ScanFlow.InitializationGoes` | wifi_connectivity/src/main.rs:172-191 | scanning follows exactly a successful initialization that posts its event first |
| `ScanFlow.Station.DoScan` | wifi_connectivity/src/main.rs:215-259 | one turn of the scan loop, with its event check, the retry after a miss or a timeout, and all ways to halt |
| `ScanFlow.ScanGoes` | wifi_connectivity/src/main.rs:215-259 | with the event it announces first, a scan leads to a connection exactly when it found the target, to a second scan exactly when it is the first and missed it or timed out, and halts otherwise |
| `ScanFlow.Station.RunNetwork` | wifi_connectivity/src/network_runner.rs:560-562 | the runner takes events up to the first that ends it, and says which |
| `ScanFlow.Station.DoConnect` | wifi_connectivity/src/main.rs:284-357 | one turn of the reconnect loop, with the checks of passphrase and security mode that halt first, its event check and the saturating counter |
| `ScanFlow.ConnectionGoes` | wifi_connectivity/src/main.rs:307-356 | after a clean connection a lost link leads to another connection and is counted, a failed backend halts, and other events change nothing |
| `ScanFlow.BadConnectionHalts` | wifi_connectivity/src/main.rs:285-318 | a connection that is not prepared, does not succeed or does not post its event halts |
| `ScanFlow.ReconnectsAreCounted` | wifi_connectivity/src/main.rs:283-355 | the counter is the number of connections tried so far, saturated |
| `ScanFlow.Connectivity` | wifi_connectivity/src/main.rs:166-358 | the loops are the specified run, and the look-up of the target cannot fail |
| `ScanFlow.RunKeeps` | wifi_connectivity/src/main.rs:211-282 | in every run at most two scans start, and the kept results hold the target whenever a connection is tried |
| `ScanFlow.StartsCleanIffNothingLeft` | wifi_connectivity/src/main.rs:365-415 | in any run, however it ends, every scan and connection finds the event queue empty if and only if no operation before the last leaves an event behind, a timed-out first scan included |
| `ScanFlow.SecondScanCanConnect` | wifi_connectivity/src/main.rs:246-253 | a timed-out scan and a second one that finds the target lead to a connection attempt with nothing left over |

## Left out

- PingSeries.AwaitFrame: the ARP branch goes on without the 10 ms sleep and the others sleep; the model has the steps and the clock readings, not the sleeps.
- MacWords.DrainRx: the receive window does not change while it is read; handing the frame on and acknowledging it are not modelled.
- TxTimeline.TimelineIsExact: the producer's total does not pass the u32 range, and the parallel arrays of one ring are one array of records.
- DnsProbe.ProbeTargets: the polling of DHCP during its wait is that of the lease machine and not repeated here.
- LeaseMachine.KeepPolling: the heartbeat, the one renewal report and the lease-loss diagnostics only print and are not part of the model.
- ScanFlow.Station.DoConnect: the 250 ms pauses between turns are not modelled.
- EchoNetwork.EchoService.Arrive: smoltcp may also refuse a datagram for want of contiguous room in its ring; in the system such a drop is a loss of the network.
- Rfc1071.InternetChecksum: the accumulator wraps, as in the release profile; a debug build panics instead beyond 65537 words.
- The payload an echo request of the smoltcp runner carries and its encoding by smoltcp: smoltcp is not part of this model.
- smoltcp's interface, routing table and sockets: they appear as queues, addresses, one default route and DHCP events.
- The DHCP server of the access point (`service_dhcp`, `parse_dhcp_request`): its work is done by smoltcp's packet types, and its counters would only add easy members.
- The RTOS, supplicant, radio controller, BLE and SLE services: their code is not in the repository.
- Registers, interrupts, linker scripts, diagnostic text and hexadecimal output: hardware access or plain output.
- Clock readings beyond the u64 range, except where the code wraps or saturates explicitly.
- Liveness of the network runners: a run is a finite prefix, and no fairness of the network is assumed.
