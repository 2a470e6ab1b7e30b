/** The station's local echo probe: what one turn of its loop does, and the loop. */
module LocalProbe {
  import opened Machine
  import opened Net
  import opened Bits

  const PRIMARY_ATTEMPTS: u8 := 5
  const ATTEMPTS: u8 := 10
  const REQUIRED_REPLIES: u8 := 1
  const INTERVAL_MS: u64 := 500
  const RECOVERY_DELAY_MS: u64 := 5_000
  const TIMEOUT_MS: u64 := 12_000

  const MASK_BITS: nat := 16

  /** The sequence numbers whose bit is set in the u16 mask. */
  function Sequences(mask: nat): set<nat> {
    Positions(mask, MASK_BITS)
  }

  datatype Send = Send(sequence: u8, at: u64)

  /** The recovery notice, with the number of sends before it. */
  datatype Notice = Notice(at: u64, sentBefore: u8)

  /** The variables of the loop, and what it has put out so far. */
  datatype Probe = Probe(
    sent: u8, replies: u8, received: nat, lastSendAt: u64, announced: bool,
    sends: seq<Send>, notices: seq<Notice>, counted: seq<u8>)

  /** What one turn of the loop meets: the clock at the loop test, the datagrams that
      are waiting, the clock afterwards, and whether a send would be accepted. */
  datatype Turn = Turn(checkedAt: u64, waiting: seq<Datagram>, now: u64, sendOk: bool, exit: Option<NetworkExit>)

  function Fresh(startedAt: u64): Probe {
    Probe(0, 0, 0, WrappingSub(startedAt, INTERVAL_MS), false, [], [], [])
  }

  // ---- One turn -------------------------------------------------------------

  predicate Answers(probe: Probe, target: Endpoint, datagram: Datagram) {
    datagram.source == target && |datagram.payload| == 1 && datagram.payload[0] < probe.sent
  }

  function Receive(probe: Probe, target: Endpoint, datagram: Datagram): Probe
    requires probe.sent <= ATTEMPTS
  {
    if !Answers(probe, target, datagram) then probe
    else
      var sequence := datagram.payload[0];
      if HasBit(probe.received, sequence) then probe
      else probe.(received := WithBit(probe.received, sequence),
                  replies := SatAdd(probe.replies, 1, U8_MAX),
                  counted := probe.counted + [sequence])
  }

  function ReceiveAll(probe: Probe, target: Endpoint, waiting: seq<Datagram>): (after: Probe)
    requires probe.sent <= ATTEMPTS
    ensures after.sent == probe.sent
  {
    if waiting == [] then probe
    else
      var n := |waiting| - 1;
      Receive(ReceiveAll(probe, target, waiting[..n]), target, waiting[n])
  }

  predicate RecoveryReady(probe: Probe, startedAt: u64, now: u64) {
    probe.sent < PRIMARY_ATTEMPTS || WrappingSub(now, startedAt) >= RECOVERY_DELAY_MS
  }

  function Announce(probe: Probe, startedAt: u64, now: u64): Probe {
    if probe.sent == PRIMARY_ATTEMPTS && RecoveryReady(probe, startedAt, now) && !probe.announced then
      probe.(announced := true, notices := probe.notices + [Notice(now, probe.sent)])
    else probe
  }

  /** Whether the loop tries to send at all. */
  predicate Attempts(probe: Probe, startedAt: u64, now: u64) {
    probe.sent < ATTEMPTS && RecoveryReady(probe, startedAt, now)
    && WrappingSub(now, probe.lastSendAt) >= INTERVAL_MS
  }

  function Transmit(probe: Probe, startedAt: u64, now: u64, sendOk: bool): Probe {
    if Attempts(probe, startedAt, now) && sendOk then
      probe.(sent := SatAdd(probe.sent, 1, U8_MAX), lastSendAt := now,
             sends := probe.sends + [Send(probe.sent, now)])
    else probe
  }

  function AfterTurn(probe: Probe, target: Endpoint, startedAt: u64, turn: Turn): (after: Probe)
    requires probe.sent <= ATTEMPTS
    ensures probe.sent <= after.sent <= ATTEMPTS
  {
    Transmit(Announce(ReceiveAll(probe, target, turn.waiting), startedAt, turn.now),
             startedAt, turn.now, turn.sendOk)
  }

  function AfterTurns(target: Endpoint, startedAt: u64, turns: seq<Turn>): (after: Probe)
    ensures after.sent <= ATTEMPTS
  {
    if turns == [] then Fresh(startedAt)
    else
      var n := |turns| - 1;
      AfterTurn(AfterTurns(target, startedAt, turns[..n]), target, startedAt, turns[n])
  }

  // ---- Counting -------------------------------------------------------------

  /** The counted sequences are the marked ones, each once, and all were sent. */
  ghost predicate Tallied(marked: set<nat>, counted: seq<u8>, replies: u8, sent: u8) {
    && replies == |counted| == |marked|
    && (forall k | k in marked :: k < sent)
    && (forall k | k in marked :: k in counted)
    && (forall k | k in counted :: k in marked)
  }

  /** Each counted reply is a sequence that was sent, counted once. */
  ghost predicate CountsOnce(probe: Probe) {
    && probe.sent <= ATTEMPTS
    && probe.received < Pow2(MASK_BITS)
    && Tallied(Sequences(probe.received), probe.counted, probe.replies, probe.sent)
  }

  lemma TallyOneMore(marked: set<nat>, counted: seq<u8>, replies: u8, sent: u8, sequence: u8)
    requires Tallied(marked, counted, replies, sent)
    requires sequence < sent <= ATTEMPTS && sequence !in marked
    ensures replies < ATTEMPTS
    ensures Tallied(marked + {sequence}, counted + [sequence], replies + 1, sent)
  {
    CardinalityBelow(marked + {sequence}, sent);
  }

  lemma ReceiveCountsOnce(probe: Probe, target: Endpoint, datagram: Datagram)
    requires CountsOnce(probe)
    ensures CountsOnce(Receive(probe, target, datagram))
  {
    if Answers(probe, target, datagram) {
      var sequence := datagram.payload[0];
      var marked := Sequences(probe.received);
      if !HasBit(probe.received, sequence) {
        InPositions(probe.received, MASK_BITS, sequence);
        PositionsWithBit(probe.received, sequence, MASK_BITS);
        WithBitFits(probe.received, sequence, MASK_BITS);
        TallyOneMore(marked, probe.counted, probe.replies, probe.sent, sequence);
      }
    }
  }

  lemma {:induction false} ReceiveAllCountsOnce(probe: Probe, target: Endpoint, waiting: seq<Datagram>)
    requires CountsOnce(probe)
    ensures CountsOnce(ReceiveAll(probe, target, waiting))
    decreases waiting
  {
    if waiting == [] {
    } else {
      var n := |waiting| - 1;
      ReceiveAllCountsOnce(probe, target, waiting[..n]);
      ReceiveCountsOnce(ReceiveAll(probe, target, waiting[..n]), target, waiting[n]);
    }
  }

  lemma MarksAreKept(probe: Probe, target: Endpoint, datagram: Datagram, k: nat)
    requires probe.sent <= ATTEMPTS && k < MASK_BITS && HasBit(probe.received, k)
    ensures HasBit(Receive(probe, target, datagram).received, k)
  {
    if Answers(probe, target, datagram) {
      WithBitSets(probe.received, datagram.payload[0], k);
    }
  }

  /** Every waiting answer to a sent sequence is counted, however often it was seen before. */
  lemma {:induction false} WaitingAnswersAreCounted(probe: Probe, target: Endpoint, waiting: seq<Datagram>, i: nat)
    requires CountsOnce(probe) && i < |waiting| && Answers(probe, target, waiting[i])
    ensures HasBit(ReceiveAll(probe, target, waiting).received, waiting[i].payload[0])
    ensures waiting[i].payload[0] in ReceiveAll(probe, target, waiting).counted
    decreases waiting
  {
    var n, k := |waiting| - 1, waiting[i].payload[0];
    var before := ReceiveAll(probe, target, waiting[..n]);
    if i < n {
      WaitingAnswersAreCounted(probe, target, waiting[..n], i);
      MarksAreKept(before, target, waiting[n], k);
    } else {
      WithBitSets(before.received, k, k);
    }
    ReceiveAllCountsOnce(probe, target, waiting);
    InPositions(ReceiveAll(probe, target, waiting).received, MASK_BITS, k);
  }

  lemma TurnCountsOnce(probe: Probe, target: Endpoint, startedAt: u64, turn: Turn)
    requires CountsOnce(probe)
    ensures CountsOnce(AfterTurn(probe, target, startedAt, turn))
  {
    ReceiveAllCountsOnce(probe, target, turn.waiting);
  }

  /** The sent sequences that were never counted. */
  function Unanswered(probe: Probe): set<nat> {
    UpTo(probe.sent) - Sequences(probe.received)
  }

  /** The reported loss is exact and never saturates. */
  lemma LostIsExact(probe: Probe)
    requires CountsOnce(probe)
    ensures probe.replies <= probe.sent
    ensures SatSub(probe.sent, probe.replies) == |Unanswered(probe)|
  {
    var sent, marked := UpTo(probe.sent), Sequences(probe.received);
    UpToIsRange(probe.sent);
    assert marked <= sent;
    assert |sent| == |sent - marked| + |marked|;
  }

  // ---- Pacing ---------------------------------------------------------------

  /** The clock readings of a run never go back. */
  ghost predicate Monotone(startedAt: u64, turns: seq<Turn>) {
    && (turns != [] ==> startedAt <= turns[0].now)
    && (forall i | 0 < i < |turns| :: turns[i - 1].now <= turns[i].now)
  }

  /** Sequences 0, 1, 2 and so on, at least an interval apart. */
  ghost predicate Spaced(sends: seq<Send>, startedAt: u64, clock: u64) {
    && (forall i | 0 <= i < |sends| :: sends[i].sequence == i && startedAt <= sends[i].at <= clock)
    && (forall i | 0 < i < |sends| :: sends[i - 1].at + INTERVAL_MS <= sends[i].at)
  }

  /** At most one notice, after the recovery delay and five sends, and before any other. */
  ghost predicate Noticed(sends: seq<Send>, notices: seq<Notice>, startedAt: u64, clock: u64) {
    && |notices| <= 1
    && (notices != [] ==>
          && startedAt + RECOVERY_DELAY_MS <= notices[0].at <= clock
          && notices[0].sentBefore == PRIMARY_ATTEMPTS as int <= |sends|)
    && (forall i | PRIMARY_ATTEMPTS as int <= i < |sends| ::
          notices != [] && startedAt + RECOVERY_DELAY_MS <= notices[0].at <= sends[i].at)
  }

  ghost predicate Paced(probe: Probe, startedAt: u64, clock: u64) {
    && |probe.sends| == probe.sent <= ATTEMPTS
    && Spaced(probe.sends, startedAt, clock)
    && Noticed(probe.sends, probe.notices, startedAt, clock)
    && (probe.announced <==> probe.notices != [])
    && (probe.sends != [] ==> probe.lastSendAt == probe.sends[|probe.sends| - 1].at)
  }

  lemma SpacedAfterSend(sends: seq<Send>, startedAt: u64, clock: u64, send: Send)
    requires Spaced(sends, startedAt, clock) && startedAt <= clock <= send.at
    requires send.sequence == |sends|
    requires sends != [] ==> sends[|sends| - 1].at + INTERVAL_MS <= send.at
    ensures Spaced(sends + [send], startedAt, send.at)
  {
  }

  lemma NoticedAfterSend(
    sends: seq<Send>, notices: seq<Notice>, startedAt: u64, clock: u64, send: Send)
    requires Noticed(sends, notices, startedAt, clock) && clock <= send.at
    requires |sends| >= PRIMARY_ATTEMPTS ==> notices != []
    ensures Noticed(sends + [send], notices, startedAt, send.at)
  {
  }

  lemma {:induction false} ReceiveAllPutsOutNothing(probe: Probe, target: Endpoint, waiting: seq<Datagram>)
    requires probe.sent <= ATTEMPTS
    ensures var after := ReceiveAll(probe, target, waiting);
            after == probe.(replies := after.replies, received := after.received, counted := after.counted)
    decreases waiting
  {
    if waiting == [] {
    } else {
      ReceiveAllPutsOutNothing(probe, target, waiting[..|waiting| - 1]);
    }
  }

  lemma AnnounceKeepsPace(probe: Probe, startedAt: u64, clock: u64, now: u64)
    requires Paced(probe, startedAt, clock) && startedAt <= clock <= now
    ensures Paced(Announce(probe, startedAt, now), startedAt, now)
    ensures var after := Announce(probe, startedAt, now);
            after.sent == PRIMARY_ATTEMPTS && RecoveryReady(after, startedAt, now) ==> after.announced
  {
  }

  lemma TransmitKeepsPace(probe: Probe, startedAt: u64, now: u64, sendOk: bool)
    requires Paced(probe, startedAt, now) && startedAt <= now
    requires probe.sent == PRIMARY_ATTEMPTS && RecoveryReady(probe, startedAt, now) ==> probe.announced
    ensures Paced(Transmit(probe, startedAt, now, sendOk), startedAt, now)
  {
    if Attempts(probe, startedAt, now) && sendOk {
      var send := Send(probe.sent, now);
      SpacedAfterSend(probe.sends, startedAt, now, send);
      NoticedAfterSend(probe.sends, probe.notices, startedAt, now, send);
    }
  }

  lemma TurnKeepsPace(probe: Probe, target: Endpoint, startedAt: u64, clock: u64, turn: Turn)
    requires Paced(probe, startedAt, clock) && startedAt <= clock <= turn.now
    ensures Paced(AfterTurn(probe, target, startedAt, turn), startedAt, turn.now)
  {
    var received := ReceiveAll(probe, target, turn.waiting);
    ReceiveAllPutsOutNothing(probe, target, turn.waiting);
    AnnounceKeepsPace(received, startedAt, clock, turn.now);
    var announced := Announce(received, startedAt, turn.now);
    TransmitKeepsPace(announced, startedAt, turn.now, turn.sendOk);
  }

  /** A turn sends the next sequence exactly when it is due: an interval after the last
      send, and for the sixth and later ones after the recovery delay as well. The first one
      is due from the start, until the clock is so far on that the wrapped subtraction of the
      initial time overflows. */
  lemma TurnSendsWhenDue(probe: Probe, target: Endpoint, startedAt: u64, clock: u64, turn: Turn)
    requires Paced(probe, startedAt, clock) && startedAt <= clock <= turn.now
    requires probe.sends == [] ==> probe.lastSendAt == WrappingSub(startedAt, INTERVAL_MS)
    ensures AfterTurn(probe, target, startedAt, turn).sends
            == if turn.sendOk && probe.sent < ATTEMPTS
                  && (if probe.sends == [] then turn.now - startedAt <= U64_MAX - INTERVAL_MS
                      else turn.now >= probe.sends[|probe.sends| - 1].at + INTERVAL_MS)
                  && (probe.sent < PRIMARY_ATTEMPTS || turn.now >= startedAt + RECOVERY_DELAY_MS)
               then probe.sends + [Send(probe.sent, turn.now)] else probe.sends
  {
    ReceiveAllPutsOutNothing(probe, target, turn.waiting);
  }

  /** The recovery notice comes in the first turn that finds five sequences sent and five
      seconds gone by, and in no other. */
  lemma TurnGivesNoticeWhenDue(probe: Probe, target: Endpoint, startedAt: u64, clock: u64, turn: Turn)
    requires Paced(probe, startedAt, clock) && startedAt <= clock <= turn.now
    ensures AfterTurn(probe, target, startedAt, turn).notices
            == if probe.sent == 5 && probe.notices == [] && turn.now >= startedAt + 5_000
               then [Notice(turn.now, 5)] else probe.notices
  {
    ReceiveAllPutsOutNothing(probe, target, turn.waiting);
  }

  lemma {:induction false} ReceiveAllCountsEarlier(probe: Probe, target: Endpoint, waiting: seq<Datagram>, k: u8)
    requires probe.sent <= ATTEMPTS && k in ReceiveAll(probe, target, waiting).counted
    ensures k in probe.counted
            || (k < probe.sent && exists d | d in waiting :: d.source == target && d.payload == [k])
    decreases waiting
  {
    if waiting == [] {
    } else {
      var n := |waiting| - 1;
      if k in ReceiveAll(probe, target, waiting[..n]).counted {
        ReceiveAllCountsEarlier(probe, target, waiting[..n], k);
      } else {
        assert waiting[n] in waiting && waiting[n].payload == [k];
      }
    }
  }

  /** A turn counts only what waits from the target when it begins, and only for sequences that
      earlier turns sent. */
  lemma TurnCountsEarlierSends(probe: Probe, target: Endpoint, startedAt: u64, turn: Turn, k: u8)
    requires probe.sent <= ATTEMPTS
    requires k in AfterTurn(probe, target, startedAt, turn).counted && k !in probe.counted
    ensures k < probe.sent && exists d | d in turn.waiting :: d.source == target && d.payload == [k]
  {
    ReceiveAllCountsEarlier(probe, target, turn.waiting, k);
  }

  /** The mask of received sequences is a u16, and no shift goes beyond its bits. */
  lemma MaskFitsItsType(target: Endpoint, startedAt: u64, turns: seq<Turn>)
    ensures AfterTurns(target, startedAt, turns).received < 0x1_0000
    ensures AfterTurns(target, startedAt, turns).sent < 16
  {
    RunIsPacedAndCounted(target, startedAt, turns);
    SixteenBits(MASK_BITS);
  }

  lemma SixteenBits(n: nat)
    requires n == 16
    ensures Pow2(n) == 0x1_0000
  {
    assert Pow2(4) == 16;
    assert Pow2(8) == 16 * Pow2(4);
    assert Pow2(12) == 16 * Pow2(8);
    assert Pow2(n) == 16 * Pow2(12);
  }

  ghost function Clock(startedAt: u64, turns: seq<Turn>): u64 {
    if turns == [] then startedAt else turns[|turns| - 1].now
  }

  /** In every run with a monotone clock the sends are paced, and in every run at all
      the replies are counted once. */
  lemma {:induction false} RunIsPacedAndCounted(target: Endpoint, startedAt: u64, turns: seq<Turn>)
    ensures CountsOnce(AfterTurns(target, startedAt, turns))
    ensures Monotone(startedAt, turns) ==>
              && startedAt <= Clock(startedAt, turns)
              && Paced(AfterTurns(target, startedAt, turns), startedAt, Clock(startedAt, turns))
    decreases turns
  {
    if turns == [] {
      NoPositions(MASK_BITS);
    } else {
      var n := |turns| - 1;
      var before := AfterTurns(target, startedAt, turns[..n]);
      RunIsPacedAndCounted(target, startedAt, turns[..n]);
      TurnCountsOnce(before, target, startedAt, turns[n]);
      if Monotone(startedAt, turns) {
        TurnKeepsPace(before, target, startedAt, Clock(startedAt, turns[..n]), turns[n]);
      }
    }
  }

  /** The wrapped initial `last_send_at` makes the first attempt due at once, even when
      the probe starts less than an interval after the clock's origin. */
  lemma FirstAttemptIsImmediate(startedAt: u64, now: u64)
    requires startedAt <= now <= startedAt + TIMEOUT_MS
    ensures Attempts(Fresh(startedAt), startedAt, now)
  {
  }

  // ---- All ten go out -------------------------------------------------------

  /** When the send after `k` others is out at the latest, counted from the start, when the
      turns are at most a gap apart and the socket takes every send. */
  function Latest(gap: nat, k: nat): nat {
    if k == 0 then gap
    else
      var next := Latest(gap, k - 1) + INTERVAL_MS;
      (if k == PRIMARY_ATTEMPTS as int then Max(next, RECOVERY_DELAY_MS) else next) + gap
  }

  /** The first turn comes at most a gap after the start, and each other after the last. */
  ghost predicate AtMostApart(startedAt: u64, turns: seq<Turn>, gap: nat) {
    && (turns != [] ==> turns[0].now <= startedAt + gap)
    && (forall i | 0 < i < |turns| :: turns[i].now <= turns[i - 1].now + gap)
  }

  ghost predicate AllAccepted(turns: seq<Turn>) {
    forall i | 0 <= i < |turns| :: turns[i].sendOk
  }

  /** When the next send is due. */
  function Due(probe: Probe, startedAt: u64): nat {
    if probe.sends == [] then startedAt
    else Max(probe.sends[|probe.sends| - 1].at + INTERVAL_MS,
             if probe.sent >= PRIMARY_ATTEMPTS then startedAt + RECOVERY_DELAY_MS else 0)
  }

  ghost predicate OnSchedule(probe: Probe, startedAt: u64, clock: u64, gap: nat) {
    && (probe.sends == [] ==> probe.lastSendAt == WrappingSub(startedAt, INTERVAL_MS))
    && (probe.sent < ATTEMPTS ==> clock <= Due(probe, startedAt))
    && (forall i | 0 <= i < |probe.sends| :: probe.sends[i].at <= startedAt + Latest(gap, i))
  }

  lemma {:induction false} LatestAfterRecovery(gap: nat, k: nat)
    requires k >= PRIMARY_ATTEMPTS
    ensures Latest(gap, k) >= RECOVERY_DELAY_MS
  {
    if k > PRIMARY_ATTEMPTS {
      LatestAfterRecovery(gap, k - 1);
    }
  }

  lemma DueInTime(probe: Probe, startedAt: u64, clock: u64, gap: nat)
    requires Paced(probe, startedAt, clock) && OnSchedule(probe, startedAt, clock, gap)
    ensures Due(probe, startedAt) + gap <= startedAt + Latest(gap, probe.sent)
  {
    var k: nat := probe.sent;
    if k > PRIMARY_ATTEMPTS {
      LatestAfterRecovery(gap, k - 1);
    }
  }

  lemma TurnOnSchedule(probe: Probe, target: Endpoint, startedAt: u64, clock: u64, turn: Turn, gap: nat)
    requires Paced(probe, startedAt, clock) && OnSchedule(probe, startedAt, clock, gap)
    requires startedAt <= clock <= turn.now <= clock + gap && gap <= TIMEOUT_MS && turn.sendOk
    ensures OnSchedule(AfterTurn(probe, target, startedAt, turn), startedAt, turn.now, gap)
  {
    var after := AfterTurn(probe, target, startedAt, turn);
    TurnSendsWhenDue(probe, target, startedAt, clock, turn);
    TurnKeepsPace(probe, target, startedAt, clock, turn);
    DueInTime(probe, startedAt, clock, gap);
  }

  lemma BeforeLastTurn(startedAt: u64, turns: seq<Turn>, gap: nat)
    requires turns != []
    requires Monotone(startedAt, turns) && AtMostApart(startedAt, turns, gap) && AllAccepted(turns)
    ensures var init, last := turns[..|turns| - 1], turns[|turns| - 1];
            && Monotone(startedAt, init) && AtMostApart(startedAt, init, gap) && AllAccepted(init)
            && Clock(startedAt, init) <= last.now <= Clock(startedAt, init) + gap && last.sendOk
  {
  }

  lemma {:induction false} RunOnSchedule(target: Endpoint, startedAt: u64, turns: seq<Turn>, gap: nat)
    requires Monotone(startedAt, turns) && AtMostApart(startedAt, turns, gap) && AllAccepted(turns)
    requires gap <= TIMEOUT_MS
    ensures OnSchedule(AfterTurns(target, startedAt, turns), startedAt, Clock(startedAt, turns), gap)
    decreases turns
  {
    if turns == [] {
    } else {
      var init, last := turns[..|turns| - 1], turns[|turns| - 1];
      BeforeLastTurn(startedAt, turns, gap);
      RunOnSchedule(target, startedAt, init, gap);
      RunIsPacedAndCounted(target, startedAt, init);
      var before, clock := AfterTurns(target, startedAt, init), Clock(startedAt, init);
      TurnOnSchedule(before, target, startedAt, clock, last, gap);
    }
  }

  lemma {:induction false} LatestGrows(gap: nat, j: nat, k: nat)
    requires j <= k
    ensures Latest(gap, j) <= Latest(gap, k)
  {
    if j < k {
      LatestGrows(gap, j, k - 1);
    }
  }

  lemma LatestIsBeforeTimeout(gap: nat)
    requires gap < 750
    ensures Latest(gap, 9) < TIMEOUT_MS
  {
    assert Latest(gap, 1) == 500 + 2 * gap;
    assert Latest(gap, 2) == 1_000 + 3 * gap;
    assert Latest(gap, 3) == 1_500 + 4 * gap;
    assert Latest(gap, 4) == 2_000 + 5 * gap;
    var fifth := Max(2_500 + 5 * gap, 5_000) + gap;
    assert Latest(gap, 5) == fifth;
    assert Latest(gap, 6) == fifth + 500 + gap;
    assert Latest(gap, 7) == fifth + 1_000 + 2 * gap;
    assert Latest(gap, 8) == fifth + 1_500 + 3 * gap;
  }

  /** When the socket takes every send and the turns are less than 750 ms apart, all ten
      sequences go out: each is out by its latest time, which comes before the timeout, and
      when the next turn can come after the timeout, all of them are. */
  lemma AllTenGoOut(target: Endpoint, startedAt: u64, turns: seq<Turn>, gap: nat)
    requires Monotone(startedAt, turns) && AtMostApart(startedAt, turns, gap) && AllAccepted(turns)
    requires gap < 750
    ensures var probe := AfterTurns(target, startedAt, turns);
            && (forall i | 0 <= i < |probe.sends| :: probe.sends[i].at <= startedAt + Latest(gap, i))
            && Latest(gap, 9) < TIMEOUT_MS
            && (Clock(startedAt, turns) as int + gap >= startedAt + TIMEOUT_MS ==> probe.sent == ATTEMPTS)
  {
    var probe, clock := AfterTurns(target, startedAt, turns), Clock(startedAt, turns);
    RunOnSchedule(target, startedAt, turns, gap);
    RunIsPacedAndCounted(target, startedAt, turns);
    LatestIsBeforeTimeout(gap);
    DueInTime(probe, startedAt, clock, gap);
    if probe.sent < ATTEMPTS {
      LatestGrows(gap, probe.sent, 9);
    }
  }

  // ---- The loop -------------------------------------------------------------

  datatype Outcome =
    | StillRunning
    | Exited(exit: NetworkExit)
    | Finished(reachable: bool, attempts: u8, replies: u8, lost: u8)

  function Report(probe: Probe): Outcome {
    Finished(probe.replies >= REQUIRED_REPLIES, probe.sent, probe.replies, SatSub(probe.sent, probe.replies))
  }

  /** What the probe reports after any run is exact. */
  lemma ReportIsExact(target: Endpoint, startedAt: u64, turns: seq<Turn>)
    ensures var probe := AfterTurns(target, startedAt, turns);
            var report := Report(probe);
            && report.attempts == probe.sent
            && (report.reachable <==> Sequences(probe.received) != {})
            && report.replies == |Sequences(probe.received)|
            && report.lost == |Unanswered(probe)|
  {
    RunIsPacedAndCounted(target, startedAt, turns);
    LostIsExact(AfterTurns(target, startedAt, turns));
  }

  /** The local variables of the loop, with what they put out. */
  class ProbeLoop {
    const target: Endpoint
    const startedAt: u64
    var sent: u8
    var replies: u8
    var received: nat
    var lastSendAt: u64
    var announced: bool
    var sends: seq<Send>
    var notices: seq<Notice>
    var counted: seq<u8>

    function State(): Probe
      reads this
    {
      Probe(sent, replies, received, lastSendAt, announced, sends, notices, counted)
    }

    constructor (target: Endpoint, startedAt: u64)
      ensures this.target == target && this.startedAt == startedAt
      ensures State() == Fresh(startedAt)
    {
      this.target, this.startedAt := target, startedAt;
      sent, replies, received := 0, 0, 0;
      lastSendAt := WrappingSub(startedAt, INTERVAL_MS);
      announced := false;
      sends, notices, counted := [], [], [];
    }

    /** The inner loop: every waiting datagram is received once. */
    method ReceiveWaiting(waiting: seq<Datagram>)
      requires sent <= ATTEMPTS
      modifies this`replies, this`received, this`counted
      ensures State() == ReceiveAll(old(State()), target, waiting)
    {
      var i := 0;
      while i < |waiting|
        invariant 0 <= i <= |waiting|
        invariant State() == ReceiveAll(old(State()), target, waiting[..i])
      {
        var datagram := waiting[i];
        assert waiting[..i + 1][..i] == waiting[..i];
        i := i + 1;
        if datagram.source == target && |datagram.payload| == 1 && datagram.payload[0] < sent {
          var sequence := datagram.payload[0];
          if HasBit(received, sequence) {
            continue;
          }
          received := WithBit(received, sequence);
          replies := SatAdd(replies, 1, U8_MAX);
          counted := counted + [sequence];
        }
      }
      assert waiting[..i] == waiting;
    }

    /** The rest of one turn: the recovery notice and the next send. What is put out is
        nothing, or the sequence that was up next, at this moment; the counter follows what
        the socket took, and there is a notice exactly when recovery becomes announced. */
    method AnnounceAndSend(now: u64, sendOk: bool)
      modifies this`sent, this`lastSendAt, this`announced, this`sends, this`notices
      ensures State() == Transmit(Announce(old(State()), startedAt, now), startedAt, now, sendOk)
      ensures sends == old(sends) || (sendOk && sends == old(sends) + [Send(old(sent), now)])
      ensures sent == SatAdd(old(sent), |sends| - |old(sends)|, U8_MAX)
      ensures lastSendAt == if sends == old(sends) then old(lastSendAt) else now
      ensures announced <==> old(announced) || notices != old(notices)
    {
      var recoveryReady := sent < PRIMARY_ATTEMPTS || WrappingSub(now, startedAt) >= RECOVERY_DELAY_MS;
      if sent == PRIMARY_ATTEMPTS && recoveryReady && !announced {
        notices := notices + [Notice(now, sent)];
        announced := true;
      }
      if sent < ATTEMPTS && recoveryReady && WrappingSub(now, lastSendAt) >= INTERVAL_MS {
        if sendOk {
          sends := sends + [Send(sent, now)];
          sent := SatAdd(sent, 1, U8_MAX);
          lastSendAt := now;
        }
      }
    }

    method TakeTurn(turn: Turn)
      requires sent <= ATTEMPTS
      modifies this
      ensures State() == AfterTurn(old(State()), target, startedAt, turn)
    {
      ReceiveWaiting(turn.waiting);
      AnnounceAndSend(turn.now, turn.sendOk);
    }
  }

  lemma AfterOneMoreTurn(target: Endpoint, startedAt: u64, turns: seq<Turn>, n: nat)
    requires n < |turns|
    ensures AfterTurns(target, startedAt, turns[..n + 1])
            == AfterTurn(AfterTurns(target, startedAt, turns[..n]), target, startedAt, turns[n])
  {
    assert turns[..n + 1][..n] == turns[..n];
  }

  /** The loop test. */
  predicate InTime(startedAt: u64, turn: Turn) {
    WrappingSub(turn.checkedAt, startedAt) < TIMEOUT_MS
  }

  /** The loop goes on for 12 s by a clock that does not wrap. */
  lemma InTimeForTwelveSeconds(startedAt: u64, turn: Turn)
    requires startedAt <= turn.checkedAt
    ensures InTime(startedAt, turn) <==> turn.checkedAt < startedAt + 12_000
  {
    WithinLimit(startedAt, turn.checkedAt, TIMEOUT_MS);
  }

  method TakeNextTurn(vars: ProbeLoop, turns: seq<Turn>, taken: nat)
    requires taken < |turns| && vars.State() == AfterTurns(vars.target, vars.startedAt, turns[..taken])
    modifies vars
    ensures vars.State() == AfterTurns(vars.target, vars.startedAt, turns[..taken + 1])
  {
    AfterOneMoreTurn(vars.target, vars.startedAt, turns, taken);
    vars.TakeTurn(turns[taken]);
  }

  /** The first `n` turns began in time and did not end with an exit. */
  ghost predicate WentOn(startedAt: u64, turns: seq<Turn>, n: nat)
    requires n <= |turns|
  {
    n == 0 || (WentOn(startedAt, turns, n - 1) && InTime(startedAt, turns[n - 1]) && turns[n - 1].exit == None)
  }

  lemma {:induction false} WentOnAt(startedAt: u64, turns: seq<Turn>, n: nat, i: nat)
    requires i < n <= |turns| && WentOn(startedAt, turns, n)
    ensures InTime(startedAt, turns[i]) && turns[i].exit == None
  {
    if i < n - 1 {
      WentOnAt(startedAt, turns, n - 1, i);
    }
  }

  /** The loop of `local_neighbor_probe`. */
  method TakeTurns(vars: ProbeLoop, turns: seq<Turn>) returns (exit: Option<NetworkExit>, taken: nat)
    requires vars.State() == Fresh(vars.startedAt)
    modifies vars
    ensures taken <= |turns| && vars.State() == AfterTurns(vars.target, vars.startedAt, turns[..taken])
    ensures exit == None ==> WentOn(vars.startedAt, turns, taken)
    ensures exit == None && taken < |turns| ==> !InTime(vars.startedAt, turns[taken])
    ensures exit.Some? ==>
              && taken > 0 && WentOn(vars.startedAt, turns, taken - 1)
              && InTime(vars.startedAt, turns[taken - 1]) && turns[taken - 1].exit == exit
  {
    exit, taken := None, 0;
    while taken < |turns| && InTime(vars.startedAt, turns[taken])
      invariant taken <= |turns| && exit == None
      invariant vars.State() == AfterTurns(vars.target, vars.startedAt, turns[..taken])
      invariant WentOn(vars.startedAt, turns, taken)
    {
      TakeNextTurn(vars, turns, taken);
      taken := taken + 1;
      if turns[taken - 1].exit.Some? {
        exit := turns[taken - 1].exit;
        return;
      }
    }
  }

  /** `local_neighbor_probe` over the first turns of its environment. `taken` of them are
      taken; it stops at the loop test, at an exit, or when no more is given. */
  method LocalNeighborProbe(target: Endpoint, startedAt: u64, turns: seq<Turn>)
    returns (outcome: Outcome, probe: Probe, taken: nat)
    ensures taken <= |turns| && probe == AfterTurns(target, startedAt, turns[..taken])
    ensures forall i | 0 <= i < taken :: InTime(startedAt, turns[i])
    ensures forall i | 0 <= i < taken - 1 :: turns[i].exit == None
    ensures taken > 0 ==> turns[taken - 1].exit == if outcome.Exited? then Some(outcome.exit) else None
    ensures outcome.StillRunning? ==> taken == |turns|
    ensures outcome.Exited? ==> taken > 0
    ensures outcome.Finished? ==> taken < |turns| && !InTime(startedAt, turns[taken]) && outcome == Report(probe)
  {
    var vars := new ProbeLoop(target, startedAt);
    var exit;
    exit, taken := TakeTurns(vars, turns);
    ghost var full := if exit.Some? then taken - 1 else taken;
    forall i | 0 <= i < full
      ensures InTime(startedAt, turns[i]) && turns[i].exit == None
    {
      WentOnAt(startedAt, turns, full, i);
    }
    probe := vars.State();
    outcome := if exit.Some? then Exited(exit.value) else if taken == |turns| then StillRunning else Report(probe);
  }
}
