/** The DNS probe: rotating targets, one transaction id for each attempt, and the first
    acceptable datagram of the attempt's own window. */
module DnsProbe {
  import opened Machine
  import opened Modulo
  import opened Net
  import opened DnsContract

  const TRANSACTION_BASE: u16 := 0x5753
  const ATTEMPTS_PER_TARGET: nat := 2
  const DNS_PORT: u16 := 53
  const TIMEOUT_MS: u64 := 1_500

  /** One turn of the receive loop: the clock at the loop test, the datagrams that are
      waiting, and the radio event that ends the run after them, if one does. */
  datatype Poll = Poll(checkedAt: u64, waiting: seq<Datagram>, exit: Option<NetworkExit>)

  /** What one attempt meets. */
  datatype Window = Window(sendOk: bool, startedAt: u64, polls: seq<Poll>)

  datatype Outcome =
    | TxError
    | Accepted(rejected: seq<Datagram>, datagram: Datagram, answerCount: u16)
    | TimedOut(rejected: seq<Datagram>)
    | Left(rejected: seq<Datagram>, exit: NetworkExit)

  datatype Attempt = Attempt(id: u16, target: u32, query: seq<u8>, outcome: Outcome)

  datatype Stats = Stats(attempts: u32, responses: u32, invalid: u32, txErrors: u32, successfulTarget: Option<u32>)

  function Remote(target: u32): Endpoint {
    Endpoint(target, DNS_PORT)
  }

  function TransactionId(attempt: nat): u16 {
    (TRANSACTION_BASE as int + attempt) % 0x1_0000
  }

  /** Two attempts for each target of the list's length as a u16, saturated. */
  function TotalAttempts(targets: nat): u16 {
    Min(ATTEMPTS_PER_TARGET * (targets % 0x1_0000), U16_MAX)
  }

  // ---- One attempt ----------------------------------------------------------

  predicate Acceptable(remote: Endpoint, id: u16, datagram: Datagram) {
    datagram.source == remote && ValidateResponse(datagram.payload, id).Valid?
  }

  ghost predicate NoneAcceptable(remote: Endpoint, id: u16, datagrams: seq<Datagram>) {
    forall i | 0 <= i < |datagrams| :: !Acceptable(remote, id, datagrams[i])
  }

  /** Everything that is waiting in the turns before the timeout and up to an exit. */
  function Delivered(startedAt: u64, polls: seq<Poll>): seq<Datagram> {
    if polls == [] || WrappingSub(polls[0].checkedAt, startedAt) >= TIMEOUT_MS then []
    else polls[0].waiting + if polls[0].exit.Some? then [] else Delivered(startedAt, polls[1..])
  }

  /** The exit that ends these turns, if one comes before the timeout. */
  function ExitIn(startedAt: u64, polls: seq<Poll>): Option<NetworkExit> {
    if polls == [] || WrappingSub(polls[0].checkedAt, startedAt) >= TIMEOUT_MS then None
    else if polls[0].exit.Some? then polls[0].exit else ExitIn(startedAt, polls[1..])
  }

  /** All datagrams of some turns. */
  function AllWaiting(polls: seq<Poll>): seq<Datagram> {
    if polls == [] then [] else polls[0].waiting + AllWaiting(polls[1..])
  }

  /** Turns that begin less than 1500 ms after the start, with a clock that does not wrap. */
  ghost predicate AllInTime(startedAt: u64, polls: seq<Poll>) {
    forall i | 0 <= i < |polls| :: startedAt <= polls[i].checkedAt < startedAt + 1_500
  }

  /** What an attempt takes in is what waits in its turns up to the first that begins 1500 ms
      after the start or later, or up to and with the first that ends with an exit. */
  lemma {:induction false} DeliveredInTime(startedAt: u64, polls: seq<Poll>, rest: seq<Poll>)
    requires AllInTime(startedAt, polls) && forall i | 0 <= i < |polls| - 1 :: polls[i].exit == None
    requires polls == [] || polls[|polls| - 1].exit == None ==>
               rest == [] || rest[0].checkedAt >= startedAt + 1_500
    ensures Delivered(startedAt, polls + rest) == AllWaiting(polls)
    ensures ExitIn(startedAt, polls + rest) == if polls == [] then None else polls[|polls| - 1].exit
    decreases polls
  {
    var all := polls + rest;
    if polls == [] {
      assert all == rest;
    } else {
      assert all[0] == polls[0] && all[1..] == polls[1..] + rest;
      if |polls| == 1 && polls[0].exit.Some? {
        assert polls[1..] == [];
      } else {
        DeliveredInTime(startedAt, polls[1..], rest);
      }
    }
  }

  /** The outcome an attempt has to have: the first acceptable datagram of its window is
      accepted, and only without one does an exit or the timeout end it. */
  ghost predicate OutcomeIsExact(remote: Endpoint, id: u16, window: Window, outcome: Outcome) {
    var delivered := Delivered(window.startedAt, window.polls);
    match outcome
    case TxError => !window.sendOk
    case Accepted(rejected, datagram, answerCount) =>
      && window.sendOk && rejected + [datagram] <= delivered && NoneAcceptable(remote, id, rejected)
      && datagram.source == remote && ValidateResponse(datagram.payload, id) == Valid(answerCount)
    case TimedOut(rejected) =>
      && window.sendOk && rejected == delivered && NoneAcceptable(remote, id, rejected)
      && ExitIn(window.startedAt, window.polls) == None
    case Left(rejected, exit) =>
      && window.sendOk && rejected == delivered && NoneAcceptable(remote, id, rejected)
      && ExitIn(window.startedAt, window.polls) == Some(exit)
  }

  /** The receive loop over one batch: the datagrams before the first acceptable one. */
  method ReceiveBatch(remote: Endpoint, id: u16, waiting: seq<Datagram>)
    returns (rejected: nat, accepted: Option<u16>)
    ensures rejected <= |waiting|
    ensures NoneAcceptable(remote, id, waiting[..rejected])
    ensures match accepted
            case None => rejected == |waiting|
            case Some(answers) =>
              && rejected < |waiting| && waiting[rejected].source == remote
              && ValidateResponse(waiting[rejected].payload, id) == Valid(answers)
  {
    rejected := 0;
    while rejected < |waiting|
      invariant 0 <= rejected <= |waiting|
      invariant NoneAcceptable(remote, id, waiting[..rejected])
    {
      var datagram := waiting[rejected];
      if datagram.source == remote {
        match ValidateResponse(datagram.payload, id) {
          case Valid(answers) =>
            return rejected, Some(answers);
          case Invalid(_) =>
        }
      }
      rejected := rejected + 1;
    }
    accepted := None;
  }

  lemma NoneAcceptableTogether(remote: Endpoint, id: u16, a: seq<Datagram>, b: seq<Datagram>)
    requires NoneAcceptable(remote, id, a) && NoneAcceptable(remote, id, b)
    ensures NoneAcceptable(remote, id, a + b)
  {
  }

  lemma DeliveredBatch(startedAt: u64, polls: seq<Poll>) returns (later: seq<Datagram>)
    requires polls != [] && WrappingSub(polls[0].checkedAt, startedAt) < TIMEOUT_MS
    ensures Delivered(startedAt, polls) == polls[0].waiting + later
    ensures later == if polls[0].exit.Some? then [] else Delivered(startedAt, polls[1..])
  {
    later := if polls[0].exit.Some? then [] else Delivered(startedAt, polls[1..]);
  }

  lemma AcceptedIsNext(rejected: seq<Datagram>, waiting: seq<Datagram>, count: nat, later: seq<Datagram>)
    requires count < |waiting|
    ensures rejected + waiting[..count] + [waiting[count]] <= rejected + (waiting + later)
  {
  }

  /** How one turn of the wait can end it, when `later` follows the turn's own datagrams. */
  ghost predicate TurnEnds(remote: Endpoint, id: u16, rejected: seq<Datagram>, poll: Poll, later: seq<Datagram>,
                           outcome: Outcome) {
    match outcome
    case Accepted(turnedDown, datagram, answerCount) =>
      && turnedDown + [datagram] <= rejected + (poll.waiting + later) && NoneAcceptable(remote, id, turnedDown)
      && datagram.source == remote && ValidateResponse(datagram.payload, id) == Valid(answerCount)
    case Left(turnedDown, exit) =>
      turnedDown == rejected + poll.waiting && NoneAcceptable(remote, id, turnedDown) && poll.exit == Some(exit)
    case _ => false
  }

  /** One turn of the wait: all that is waiting, and the radio event after it. */
  method TakePoll(remote: Endpoint, id: u16, rejected: seq<Datagram>, poll: Poll, ghost later: seq<Datagram>)
    returns (ended: Option<Outcome>)
    requires NoneAcceptable(remote, id, rejected)
    ensures match ended
            case Some(outcome) => TurnEnds(remote, id, rejected, poll, later, outcome)
            case None => NoneAcceptable(remote, id, rejected + poll.waiting) && poll.exit == None
  {
    var waiting := poll.waiting;
    var count, accepted := ReceiveBatch(remote, id, waiting);
    NoneAcceptableTogether(remote, id, rejected, waiting[..count]);
    if accepted.Some? {
      AcceptedIsNext(rejected, waiting, count, later);
      return Some(Accepted(rejected + waiting[..count], waiting[count], accepted.value));
    }
    assert waiting[..count] == waiting;
    ended := if poll.exit.Some? then Some(Left(rejected + waiting, poll.exit.value)) else None;
  }

  /** What is left of the wait when some datagrams have been turned down. */
  ghost predicate Waiting(window: Window, polls: seq<Poll>, rejected: seq<Datagram>) {
    && rejected + Delivered(window.startedAt, polls) == Delivered(window.startedAt, window.polls)
    && ExitIn(window.startedAt, polls) == ExitIn(window.startedAt, window.polls)
  }

  lemma WaitEnds(remote: Endpoint, id: u16, window: Window, polls: seq<Poll>, rejected: seq<Datagram>,
                 later: seq<Datagram>, outcome: Outcome)
    requires window.sendOk && Waiting(window, polls, rejected)
    requires polls != [] && WrappingSub(polls[0].checkedAt, window.startedAt) < TIMEOUT_MS
    requires Delivered(window.startedAt, polls) == polls[0].waiting + later
    requires polls[0].exit.Some? ==> later == []
    requires TurnEnds(remote, id, rejected, polls[0], later, outcome)
    ensures OutcomeIsExact(remote, id, window, outcome)
  {
    assert polls[0].waiting + [] == polls[0].waiting;
  }

  lemma WaitGoesOn(window: Window, polls: seq<Poll>, rejected: seq<Datagram>)
    requires Waiting(window, polls, rejected)
    requires polls != [] && WrappingSub(polls[0].checkedAt, window.startedAt) < TIMEOUT_MS
    requires polls[0].exit == None
    ensures Waiting(window, polls[1..], rejected + polls[0].waiting)
  {
    var rest := Delivered(window.startedAt, polls[1..]);
    assert rejected + (polls[0].waiting + rest) == rejected + polls[0].waiting + rest;
  }

  lemma WaitTimesOut(remote: Endpoint, id: u16, window: Window, polls: seq<Poll>, rejected: seq<Datagram>)
    requires window.sendOk && Waiting(window, polls, rejected) && NoneAcceptable(remote, id, rejected)
    requires polls == [] || WrappingSub(polls[0].checkedAt, window.startedAt) >= TIMEOUT_MS
    ensures OutcomeIsExact(remote, id, window, TimedOut(rejected))
  {
    assert rejected + [] == rejected;
  }

  /** The wait for a response to one query. */
  method AwaitResponse(remote: Endpoint, id: u16, window: Window) returns (outcome: Outcome)
    requires window.sendOk
    ensures OutcomeIsExact(remote, id, window, outcome) && !outcome.TxError?
  {
    var polls := window.polls;
    var rejected: seq<Datagram> := [];
    while polls != [] && WrappingSub(polls[0].checkedAt, window.startedAt) < TIMEOUT_MS
      invariant Waiting(window, polls, rejected)
      invariant NoneAcceptable(remote, id, rejected)
      decreases polls
    {
      ghost var later := DeliveredBatch(window.startedAt, polls);
      var ended := TakePoll(remote, id, rejected, polls[0], later);
      if ended.Some? {
        WaitEnds(remote, id, window, polls, rejected, later, ended.value);
        return ended.value;
      }
      WaitGoesOn(window, polls, rejected);
      rejected := rejected + polls[0].waiting;
      polls := polls[1..];
    }
    WaitTimesOut(remote, id, window, polls, rejected);
    outcome := TimedOut(rejected);
  }

  // ---- The whole run --------------------------------------------------------

  predicate Ends(outcome: Outcome) {
    outcome.Accepted? || outcome.Left?
  }

  ghost predicate AttemptIsExact(targets: seq<u32>, windows: nat -> Window, i: nat, attempt: Attempt)
    requires targets != []
  {
    && attempt.id == TransactionId(i + 1)
    && attempt.target == targets[i % |targets|]
    && attempt.query == Query(attempt.id)
    && OutcomeIsExact(Remote(attempt.target), attempt.id, windows(i), attempt.outcome)
  }

  /** Each attempt did what its own window asks for, and only the last one can end the run
      before all attempts are made. */
  ghost predicate RunIsExact(targets: seq<u32>, windows: nat -> Window, trace: seq<Attempt>)
    requires targets != []
  {
    && |trace| <= TotalAttempts(|targets|)
    && (forall i | 0 <= i < |trace| :: AttemptIsExact(targets, windows, i, trace[i]))
    && (forall i | 0 <= i < |trace| - 1 :: !Ends(trace[i].outcome))
  }

  /** The counter updates of one attempt; every rejected datagram counts as invalid. */
  function Counted(stats: Stats, target: u32, outcome: Outcome): Stats {
    var tried := stats.(attempts := SatAdd(stats.attempts, 1, U32_MAX));
    match outcome
    case TxError => tried.(txErrors := SatAdd(tried.txErrors, 1, U32_MAX))
    case TimedOut(rejected) => tried.(invalid := SatAdd(tried.invalid, |rejected|, U32_MAX))
    case Left(rejected, _) => tried.(invalid := SatAdd(tried.invalid, |rejected|, U32_MAX))
    case Accepted(rejected, _, _) =>
      tried.(invalid := SatAdd(tried.invalid, |rejected|, U32_MAX),
             responses := SatAdd(tried.responses, 1, U32_MAX), successfulTarget := Some(target))
  }

  /** What the counters show after some attempts. */
  function Tally(trace: seq<Attempt>): Stats {
    if trace == [] then Stats(0, 0, 0, 0, None)
    else
      var n := |trace| - 1;
      Counted(Tally(trace[..n]), trace[n].target, trace[n].outcome)
  }

  lemma TallyOneMore(trace: seq<Attempt>, attempt: Attempt)
    ensures Tally(trace + [attempt]) == Counted(Tally(trace), attempt.target, attempt.outcome)
  {
    assert (trace + [attempt])[..|trace|] == trace;
  }

  lemma RunOneMore(
    targets: seq<u32>, windows: nat -> Window, trace: seq<Attempt>, attempt: Attempt)
    requires targets != [] && RunIsExact(targets, windows, trace) && |trace| < TotalAttempts(|targets|)
    requires trace != [] ==> !Ends(trace[|trace| - 1].outcome)
    requires AttemptIsExact(targets, windows, |trace|, attempt)
    ensures RunIsExact(targets, windows, trace + [attempt])
  {
  }

  /** The body of the attempt loop: send the query, and wait unless that failed. */
  method MakeAttempt(target: u32, id: u16, window: Window) returns (query: seq<u8>, outcome: Outcome)
    ensures query == Query(id)
    ensures OutcomeIsExact(Remote(target), id, window, outcome)
  {
    var buffer := BuildQuery(id);
    query := buffer[..];
    outcome := TxError;
    if window.sendOk {
      outcome := AwaitResponse(Remote(target), id, window);
    }
  }

  /** How a run ends: with its statistics, with an exit, or with a panic. */
  datatype Ending = Panicked | Finished(stats: Stats) | Exited(exit: NetworkExit)

  /** How many attempts a run makes that nothing ends early. The code prints the first two
      targets before its first attempt, and panics when there are fewer. */
  function PlannedAttempts(targets: nat): u16 {
    if targets < 2 then 0 else TotalAttempts(targets)
  }

  /** What a run is: a panic before anything is sent if and only if there are fewer than two
      targets, and otherwise exact attempts until one of them ends it or all are made. */
  ghost predicate IsRun(targets: seq<u32>, windows: nat -> Window, ending: Ending, trace: seq<Attempt>) {
    && (ending.Panicked? <==> |targets| < 2)
    && (|targets| < 2 ==> trace == [])
    && (|targets| >= 2 ==>
          && RunIsExact(targets, windows, trace)
          && match ending
             case Exited(exit) =>
               trace != [] && trace[|trace| - 1].outcome.Left? && trace[|trace| - 1].outcome.exit == exit
             case Finished(stats) =>
               && stats == Tally(trace)
               && (Accepts(trace) || (|trace| == TotalAttempts(|targets|) && !EndsEarly(trace)))
             case Panicked => true)
  }

  /** The last attempt was answered. */
  predicate Accepts(trace: seq<Attempt>) {
    trace != [] && trace[|trace| - 1].outcome.Accepted?
  }

  predicate EndsEarly(trace: seq<Attempt>) {
    trace != [] && Ends(trace[|trace| - 1].outcome)
  }

  /** The attempt loop of `dns_probe`. */
  method MakeAttempts(targets: seq<u32>, windows: nat -> Window)
    returns (exit: Option<NetworkExit>, stats: Stats, trace: seq<Attempt>)
    requires targets != []
    ensures RunIsExact(targets, windows, trace)
    ensures stats == Tally(trace)
    ensures match exit
            case Some(e) => trace != [] && trace[|trace| - 1].outcome.Left? && trace[|trace| - 1].outcome.exit == e
            case None => Accepts(trace) || (|trace| == TotalAttempts(|targets|) && !EndsEarly(trace))
  {
    stats := Stats(0, 0, 0, 0, None);
    trace := [];
    exit := None;
    while |trace| < TotalAttempts(|targets|)
      invariant RunIsExact(targets, windows, trace)
      invariant stats == Tally(trace)
      invariant !EndsEarly(trace)
      decreases TotalAttempts(|targets|) - |trace|
    {
      var i := |trace|;
      var target, id := targets[i % |targets|], TransactionId(i + 1);
      var query, outcome := MakeAttempt(target, id, windows(i));
      var attempt := Attempt(id, target, query, outcome);
      stats := Counted(stats, target, outcome);
      TallyOneMore(trace, attempt);
      RunOneMore(targets, windows, trace, attempt);
      trace := trace + [attempt];
      if outcome.Left? {
        return Some(outcome.exit), stats, trace;
      }
      if outcome.Accepted? {
        return None, stats, trace;
      }
    }
  }

  /** `dns_probe`, where `windows(i)` is what attempt `i + 1` meets. */
  method ProbeTargets(targets: seq<u32>, windows: nat -> Window) returns (ending: Ending, trace: seq<Attempt>)
    ensures IsRun(targets, windows, ending, trace)
  {
    if |targets| < 2 {
      return Panicked, [];
    }
    var exit, stats;
    exit, stats, trace := MakeAttempts(targets, windows);
    ending := if exit.Some? then Exited(exit.value) else Finished(stats);
  }

  // ---- What a run shows -----------------------------------------------------

  function Timeouts(trace: seq<Attempt>): nat {
    if trace == [] then 0
    else Timeouts(trace[..|trace| - 1]) + if trace[|trace| - 1].outcome.TimedOut? then 1 else 0
  }

  /** Every attempt is counted once: as an error, a timeout, or the one response. */
  lemma {:induction false} AttemptsAreConserved(trace: seq<Attempt>)
    requires |trace| <= U16_MAX
    requires forall i | 0 <= i < |trace| - 1 :: !Ends(trace[i].outcome)
    ensures var stats := Tally(trace);
            var last := if trace == [] then TxError else trace[|trace| - 1].outcome;
            && stats.attempts == |trace|
            && stats.responses == (if last.Accepted? then 1 else 0)
            && stats.attempts as int
               == stats.txErrors as int + Timeouts(trace) + stats.responses + (if last.Left? then 1 else 0)
            && stats.successfulTarget == (if last.Accepted? then Some(trace[|trace| - 1].target) else None)
  {
    if trace == [] {
    } else {
      var init := trace[..|trace| - 1];
      AttemptsAreConserved(init);
    }
  }

  /** The datagrams an attempt took from the socket and turned down. */
  function Rejected(outcome: Outcome): seq<Datagram> {
    if outcome.TxError? then [] else outcome.rejected
  }

  function AllRejected(trace: seq<Attempt>): seq<Datagram> {
    if trace == [] then [] else AllRejected(trace[..|trace| - 1]) + Rejected(trace[|trace| - 1].outcome)
  }

  /** The invalid count is the number of datagrams turned down, as far as a u32 goes. */
  lemma {:induction false} InvalidCountsRejected(trace: seq<Attempt>)
    ensures Tally(trace).invalid == Min(|AllRejected(trace)|, U32_MAX)
  {
    if trace == [] {
    } else {
      InvalidCountsRejected(trace[..|trace| - 1]);
    }
  }

  lemma IdsRotate(a: nat, b: nat)
    requires a < b <= a + U16_MAX
    ensures TransactionId(a) != TransactionId(b)
  {
    ModuloDiffers(TRANSACTION_BASE as int + a, TRANSACTION_BASE as int + b, 0x1_0000);
  }

  /** All transaction ids of a run differ. */
  lemma IdsAreDistinct(targets: seq<u32>, windows: nat -> Window, trace: seq<Attempt>, i: nat, j: nat)
    requires targets != [] && RunIsExact(targets, windows, trace)
    requires i < j < |trace|
    ensures trace[i].id != trace[j].id
  {
    assert AttemptIsExact(targets, windows, i, trace[i]) && AttemptIsExact(targets, windows, j, trace[j]);
    IdsRotate(i + 1, j + 1);
  }

  /** What an attempt accepts is an answer to its query that comes from its target. */
  lemma AcceptableMeans(target: u32, id: u16, datagram: Datagram)
    ensures Acceptable(Remote(target), id, datagram)
            <==> datagram.source == Endpoint(target, 53) && AnswersQuery(datagram.payload, id)
  {
    AcceptsExactlyAnswers(datagram.payload, id);
  }

  /** A datagram that is acceptable for one attempt is not acceptable for any other, so a
      late answer is never taken for an answer to a later query. */
  lemma LateAnswersAreRejected(
    targets: seq<u32>, windows: nat -> Window, trace: seq<Attempt>, i: nat, j: nat, late: Datagram)
    requires targets != [] && RunIsExact(targets, windows, trace)
    requires i < |trace| && j < |trace| && i != j
    requires Acceptable(Remote(trace[i].target), trace[i].id, late)
    ensures !Acceptable(Remote(trace[j].target), trace[j].id, late)
  {
    IdsAreDistinct(targets, windows, trace, Min(i, j), Max(i, j));
    if Acceptable(Remote(trace[j].target), trace[j].id, late) {
      AcceptedForOneId(late.payload, trace[i].id, trace[j].id);
    }
  }

  /** A stray one-byte echo reply is never acceptable. */
  lemma EchoRepliesAreRejected(remote: Endpoint, id: u16, echo: Datagram)
    requires |echo.payload| == 1
    ensures !Acceptable(remote, id, echo)
  {
  }

  /** The accepted datagram came from the current target, answers the current query, and
      was delivered while this attempt was waiting. */
  lemma AcceptedAnswersCurrentQuery(
    targets: seq<u32>, windows: nat -> Window, trace: seq<Attempt>, i: nat)
    requires targets != [] && RunIsExact(targets, windows, trace)
    requires i < |trace| && trace[i].outcome.Accepted?
    ensures i == |trace| - 1
    ensures var datagram := trace[i].outcome.datagram;
            && datagram.source == Endpoint(targets[i % |targets|], 53)
            && AnswersQuery(datagram.payload, (0x5753 + i + 1) % 0x1_0000)
            && datagram in Delivered(windows(i).startedAt, windows(i).polls)
  {
    assert AttemptIsExact(targets, windows, i, trace[i]);
    var outcome := trace[i].outcome;
    AcceptsExactlyAnswers(outcome.datagram.payload, trace[i].id);
    var taken := outcome.rejected + [outcome.datagram];
    assert taken[|taken| - 1] == Delivered(windows(i).startedAt, windows(i).polls)[|taken| - 1];
  }

  // ---- How often each target is tried ---------------------------------------

  /** How many of the first `attempts` attempts go to the target at index `t`. */
  function Tries(targets: nat, t: nat, attempts: nat): nat
    requires targets > 0
  {
    if attempts == 0 then 0
    else Tries(targets, t, attempts - 1) + if (attempts - 1) % targets == t then 1 else 0
  }

  lemma {:induction false} TriesInTwoRounds(targets: nat, t: nat, attempts: nat)
    requires t < targets && attempts <= 2 * targets
    ensures Tries(targets, t, attempts)
            == (if attempts > t then 1 else 0) + if attempts > targets + t then 1 else 0
  {
    if attempts == 0 {
    } else {
      TriesInTwoRounds(targets, t, attempts - 1);
      if attempts <= targets {
        ModuloBelow(attempts - 1, targets);
      } else {
        ModuloOnceRound(attempts - 1, targets);
      }
    }
  }

  ghost predicate TwiceEach(targets: nat, attempts: nat)
    requires targets > 0
  {
    forall t: nat | t < targets :: Tries(targets, t, attempts) == 2
  }

  lemma TwiceEachIffTwoRounds(targets: nat, attempts: nat)
    requires targets > 0 && attempts <= 2 * targets
    ensures TwiceEach(targets, attempts) <==> attempts == 2 * targets
  {
    forall t: nat | t < targets
      ensures Tries(targets, t, attempts)
              == (if attempts > t then 1 else 0) + if attempts > targets + t then 1 else 0
    {
      TriesInTwoRounds(targets, t, attempts);
    }
    if attempts != 2 * targets {
      assert Tries(targets, targets - 1, attempts) != 2;
    }
  }

  /** The planned attempts give each index of the list two turns if and only if the list has
      from 2 to 32767 entries: with one the code panics, and beyond 32767 the attempt counter
      saturates or its cast drops the high bits. */
  lemma TwiceEachIffListFits(targets: nat)
    requires targets > 0
    ensures TwiceEach(targets, PlannedAttempts(targets)) <==> 2 <= targets <= 32767
  {
    TwiceEachIffTwoRounds(targets, PlannedAttempts(targets));
  }

  /** The addresses the attempts of a run went to. */
  function Addresses(trace: seq<Attempt>): (addresses: seq<u32>)
    ensures |addresses| == |trace|
  {
    seq(|trace|, i requires 0 <= i < |trace| => trace[i].target)
  }

  /** Every entry of the list was tried twice; an address with several entries counts for
      each of them. */
  ghost predicate EachTriedTwice(targets: seq<u32>, trace: seq<Attempt>) {
    multiset(Addresses(trace)) == multiset(targets) + multiset(targets)
  }

  lemma TwoRounds(targets: seq<u32>, windows: nat -> Window, trace: seq<Attempt>)
    requires targets != [] && RunIsExact(targets, windows, trace) && |trace| == 2 * |targets|
    ensures Addresses(trace) == targets + targets
  {
    forall i | 0 <= i < |trace|
      ensures Addresses(trace)[i] == (targets + targets)[i]
    {
      assert AttemptIsExact(targets, windows, i, trace[i]);
      if i < |targets| {
        ModuloBelow(i, |targets|);
      } else {
        ModuloOnceRound(i, |targets|);
      }
    }
  }

  lemma TwiceNeedsTwoRounds(targets: seq<u32>, trace: seq<Attempt>)
    requires EachTriedTwice(targets, trace)
    ensures |trace| == 2 * |targets|
  {
    assert |multiset(Addresses(trace))| == |trace|;
    assert |multiset(targets) + multiset(targets)| == |targets| + |targets|;
  }

  /** A run that nothing ends early finishes with every entry of the list tried exactly twice
      if and only if the list has from 2 to 32767 entries. */
  lemma FullRunTriesEachTwice(
    targets: seq<u32>, windows: nat -> Window, ending: Ending, trace: seq<Attempt>)
    requires IsRun(targets, windows, ending, trace) && !EndsEarly(trace)
    ensures ending.Finished? && EachTriedTwice(targets, trace) <==> 2 <= |targets| <= 32767
  {
    if 2 <= |targets| <= 32767 {
      TwoRounds(targets, windows, trace);
      assert multiset(targets + targets) == multiset(targets) + multiset(targets);
    } else if |targets| > 32767 && EachTriedTwice(targets, trace) {
      TwiceNeedsTwoRounds(targets, trace);
      assert false;
    }
  }

  /** On a list of one target the run panics, and that target is never tried, although the
      attempt counter was computed to be two. */
  lemma OneTargetPanics(target: u32, windows: nat -> Window, ending: Ending, trace: seq<Attempt>)
    requires IsRun([target], windows, ending, trace)
    ensures ending == Panicked && Addresses(trace) == [] && PlannedAttempts(1) == 0 && TotalAttempts(1) == 2
  {
  }

  /** The cast of the list's length drops its high bits: a list of 65536 targets, or a multiple
      of that, is not tried at all. */
  lemma LongListIsNotTried(targets: seq<u32>, windows: nat -> Window, ending: Ending, trace: seq<Attempt>)
    requires |targets| >= 2 && |targets| % 65_536 == 0
    requires IsRun(targets, windows, ending, trace)
    ensures trace == [] && ending.Finished?
  {
  }
}
