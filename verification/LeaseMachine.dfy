/** The DHCP side of the network runners: how lease, interface address and default route
    follow the client's events, and when the restart timer resets the client. */
module LeaseMachine {
  import opened Machine
  import opened Modulo
  import opened Net

  const RESTART_MS: u64 := 10_000

  datatype Cidr = Cidr(address: u32, prefixLen: u8)

  datatype Config = Config(address: Cidr, server: u32, router: Option<u32>)

  datatype DhcpEvent = Configured(config: Config) | Deconfigured

  datatype Lease = Lease(address: u32, prefixLen: u8, server: u32, router: Option<u32>)

  /** The lease variable, and the interface's address list and default route. */
  datatype Stack = Stack(lease: Option<Lease>, addresses: seq<Cidr>, defaultRoute: Option<u32>)

  const UNCONFIGURED: Stack := Stack(None, [], None)

  // ---- poll_network ---------------------------------------------------------

  class Interface {
    var lease: Option<Lease>
    var addresses: seq<Cidr>
    var defaultRoute: Option<u32>
    /// How often the DHCP client was reset.
    var resets: nat

    function State(): Stack
      reads this
    {
      Stack(lease, addresses, defaultRoute)
    }

    constructor ()
      ensures State() == UNCONFIGURED && resets == 0
    {
      lease, addresses, defaultRoute := None, [], None;
      resets := 0;
    }

    /** The timer's reset of the client. */
    method Reset()
      modifies `resets
      ensures resets == old(resets) + 1
    {
      resets := resets + 1;
    }

    /** `poll_network` of wifi_connectivity, given the event the DHCP client reports. */
    method PollNetwork(event: Option<DhcpEvent>)
      modifies this
      ensures State() == AfterEvent(old(State()), event)
      ensures resets == old(resets) + if LosesLease(old(State()), event) then 1 else 0
    {
      match event {
        case Some(Configured(config)) =>
          var next := Lease(config.address.address, config.address.prefixLen, config.server, config.router);
          addresses := [];
          addresses := addresses + [config.address];
          if config.router.Some? {
            defaultRoute := Some(config.router.value);
          } else {
            defaultRoute := None;
          }
          lease := Some(next);
        case Some(Deconfigured) =>
          var hadLease := lease.Some?;
          lease := None;
          addresses := [];
          defaultRoute := None;
          if hadLease {
            resets := resets + 1;
          }
        case None =>
      }
    }
  }

  function AfterEvent(stack: Stack, event: Option<DhcpEvent>): Stack {
    match event
    case Some(Configured(c)) =>
      Stack(Some(Lease(c.address.address, c.address.prefixLen, c.server, c.router)), [c.address], c.router)
    case Some(Deconfigured) => UNCONFIGURED
    case None => stack
  }

  predicate LosesLease(stack: Stack, event: Option<DhcpEvent>) {
    stack.lease.Some? && event == Some(Deconfigured)
  }

  // ---- Agreement ------------------------------------------------------------

  /** The three records tell the same: no lease, no address and no route, or the one
      address and the route of the lease. */
  ghost predicate Agrees(stack: Stack) {
    match stack.lease
    case None => stack.addresses == [] && stack.defaultRoute == None
    case Some(l) => stack.addresses == [Cidr(l.address, l.prefixLen)] && stack.defaultRoute == l.router
  }

  function AfterEvents(events: seq<Option<DhcpEvent>>): Stack
    decreases events
  {
    if events == [] then UNCONFIGURED
    else AfterEvent(AfterEvents(events[..|events| - 1]), events[|events| - 1])
  }

  /** The last thing the client reported, if it reported anything. */
  function LastReport(events: seq<Option<DhcpEvent>>): Option<DhcpEvent>
    decreases events
  {
    if events == [] then None
    else if events[|events| - 1].Some? then events[|events| - 1]
    else LastReport(events[..|events| - 1])
  }

  /** In every reachable state the records agree, and they hold what the last report said
      and nothing of any earlier one: its address, its prefix, its server, its router. */
  lemma {:induction false} RecordsFollowLastReport(events: seq<Option<DhcpEvent>>)
    ensures Agrees(AfterEvents(events))
    ensures match LastReport(events)
            case Some(Configured(c)) =>
              && AfterEvents(events).lease.Some?
              && AfterEvents(events).lease.value.server == c.server
              && AfterEvents(events).addresses == [c.address] && AfterEvents(events).defaultRoute == c.router
            case _ => AfterEvents(events).lease.None?
    decreases events
  {
    if events == [] {
    } else {
      RecordsFollowLastReport(events[..|events| - 1]);
    }
  }

  // ---- The runner of wifi_init_smoke ----------------------------------------

  datatype SmokeLease = SmokeLease(address: u32, prefixLen: u8, router: Option<u32>)
  datatype SmokeStack = SmokeStack(lease: Option<SmokeLease>, addresses: seq<Cidr>, defaultRoute: Option<u32>)

  class SmokeInterface {
    var lease: Option<SmokeLease>
    var addresses: seq<Cidr>
    var defaultRoute: Option<u32>

    function State(): SmokeStack
      reads this
    {
      SmokeStack(lease, addresses, defaultRoute)
    }

    constructor ()
      ensures State() == WithoutServer(UNCONFIGURED)
    {
      lease, addresses, defaultRoute := None, [], None;
    }

    /** `poll_network` of wifi_init_smoke does what the other runner does, up to the server
        address it does not keep. */
    method PollNetwork(event: Option<DhcpEvent>, ghost twin: Stack)
      requires State() == WithoutServer(twin)
      modifies this
      ensures State() == WithoutServer(AfterEvent(twin, event))
    {
      match event {
        case Some(Configured(config)) =>
          addresses := [];
          addresses := addresses + [config.address];
          if config.router.Some? {
            defaultRoute := Some(config.router.value);
          } else {
            defaultRoute := None;
          }
          lease := Some(SmokeLease(config.address.address, config.address.prefixLen, config.router));
        case Some(Deconfigured) =>
          addresses := [];
          defaultRoute := None;
          lease := None;
        case None =>
      }
    }
  }

  function WithoutServer(stack: Stack): SmokeStack {
    SmokeStack(match stack.lease
               case None => None
               case Some(l) => Some(SmokeLease(l.address, l.prefixLen, l.router)),
               stack.addresses, stack.defaultRoute)
  }

  /** The three records of the second runner tell the same. */
  ghost predicate SmokeAgrees(stack: SmokeStack) {
    match stack.lease
    case None => stack.addresses == [] && stack.defaultRoute == None
    case Some(l) => stack.addresses == [Cidr(l.address, l.prefixLen)] && stack.defaultRoute == l.router
  }

  /** All polls of the second runner: whatever the client reports, its records agree, and
      they are those of the first runner without the server. */
  method SmokePolls(events: seq<Option<DhcpEvent>>) returns (stack: SmokeStack)
    ensures SmokeAgrees(stack)
    ensures stack == WithoutServer(AfterEvents(events))
  {
    var network := new SmokeInterface();
    var i := 0;
    while i < |events|
      invariant 0 <= i <= |events|
      invariant network.State() == WithoutServer(AfterEvents(events[..i]))
    {
      assert events[..i + 1][..i] == events[..i];
      network.PollNetwork(events[i], AfterEvents(events[..i]));
      i := i + 1;
    }
    assert events[..i] == events;
    RecordsFollowLastReport(events);
    stack := network.State();
  }

  // ---- keep_polling ---------------------------------------------------------

  datatype WifiEvent = Initialized | ScanCompleted | Connected | LinkLost(reason: u16) | Failed

  /** `wait_poll_interval`: only a lost link and a failed backend end the runner. */
  function ExitOf(event: Option<WifiEvent>): Option<NetworkExit> {
    match event
    case Some(LinkLost(reason)) => Some(Disconnected(reason))
    case Some(Failed) => Some(BackendFailed)
    case _ => None
  }

  /** The runner ends with the reason of a lost link, with a failed backend, and with nothing
      else the radio reports. */
  lemma ExitsAreExact(event: Option<WifiEvent>, reason: u16)
    ensures ExitOf(event) == Some(Disconnected(reason)) <==> event == Some(LinkLost(reason))
    ensures ExitOf(event) == Some(BackendFailed) <==> event == Some(Failed)
    ensures ExitOf(event) == None <==> event == None || event.value in {Initialized, ScanCompleted, Connected}
  {
  }

  /** What one turn of the loop meets: the DHCP event, the clock afterwards, and the radio
      event that ends the wait, if one does. */
  datatype Poll = Poll(event: Option<DhcpEvent>, now: u64, radio: Option<WifiEvent>)

  /** What one turn did: whether it ended without a lease, whether it reset the client at
      once for a lost lease, and whether the timer did. */
  datatype Turn = Turn(now: u64, down: bool, lost: bool, timed: bool)

  datatype Keeper = Keeper(stack: Stack, restartAt: Option<u64>, log: seq<Turn>)

  function AfterPoll(keeper: Keeper, poll: Poll): Keeper {
    var stack := AfterEvent(keeper.stack, poll.event);
    var lost := LosesLease(keeper.stack, poll.event);
    var next := SatAdd(poll.now, RESTART_MS, U64_MAX);
    if stack.lease.Some? then
      Keeper(stack, None, keeper.log + [Turn(poll.now, false, lost, false)])
    else if keeper.restartAt.None? then
      Keeper(stack, Some(next), keeper.log + [Turn(poll.now, true, lost, false)])
    else if poll.now >= keeper.restartAt.value then
      Keeper(stack, Some(next), keeper.log + [Turn(poll.now, true, lost, true)])
    else
      Keeper(stack, keeper.restartAt, keeper.log + [Turn(poll.now, true, lost, false)])
  }

  function AfterPolls(start: Stack, polls: seq<Poll>): Keeper
    decreases polls
  {
    if polls == [] then Keeper(start, None, [])
    else AfterPoll(AfterPolls(start, polls[..|polls| - 1]), polls[|polls| - 1])
  }

  /** How often the client was reset: at once for each lost lease, and by the timer. */
  function Resets(log: seq<Turn>): nat {
    if log == [] then 0
    else
      var last := log[|log| - 1];
      Resets(log[..|log| - 1]) + (if last.lost then 1 else 0) + if last.timed then 1 else 0
  }

  lemma ResetsOneMore(log: seq<Turn>, last: Turn)
    ensures Resets(log + [last]) == Resets(log) + (if last.lost then 1 else 0) + if last.timed then 1 else 0
  {
    assert (log + [last])[..|log|] == log;
  }

  /** One turn of `keep_polling`: the poll, and the restart timer. */
  method TakeTurn(network: Interface, restartAt: Option<u64>, poll: Poll, ghost log: seq<Turn>)
    returns (dhcpRestartAt: Option<u64>, turn: Turn)
    modifies network
    ensures AfterPoll(Keeper(old(network.State()), restartAt, log), poll)
            == Keeper(network.State(), dhcpRestartAt, log + [turn])
    ensures network.resets == old(network.resets) + (if turn.lost then 1 else 0) + if turn.timed then 1 else 0
  {
    dhcpRestartAt := restartAt;
    var before := network.resets;
    network.PollNetwork(poll.event);
    var lost := network.resets != before;
    var timed := false;
    if network.lease.Some? {
      dhcpRestartAt := None;
    } else if dhcpRestartAt.Some? {
      if poll.now >= dhcpRestartAt.value {
        network.Reset();
        timed := true;
        dhcpRestartAt := Some(SatAdd(poll.now, RESTART_MS, U64_MAX));
      }
    } else {
      dhcpRestartAt := Some(SatAdd(poll.now, RESTART_MS, U64_MAX));
    }
    turn := Turn(poll.now, network.lease.None?, lost, timed);
  }

  lemma PollsOneMore(start: Stack, polls: seq<Poll>, n: nat)
    requires n < |polls|
    ensures AfterPolls(start, polls[..n + 1]) == AfterPoll(AfterPolls(start, polls[..n]), polls[n])
  {
    assert polls[..n + 1][..n] == polls[..n];
  }

  /** A run over the first `n` polls brought the keeper where it is, and the count of resets
      from `first` to `resets`. */
  ghost predicate IsAt(start: Stack, polls: seq<Poll>, n: nat, keeper: Keeper, first: nat, resets: nat) {
    && n <= |polls| && AfterPolls(start, polls[..n]) == keeper && |keeper.log| == n
    && resets == first + Resets(keeper.log)
  }

  lemma PollTakesNext(start: Stack, polls: seq<Poll>, n: nat, keeper: Keeper, first: nat, resets: nat,
                      next: Keeper, turn: Turn)
    requires n < |polls| && IsAt(start, polls, n, keeper, first, resets)
    requires AfterPoll(keeper, polls[n]) == next && next.log == keeper.log + [turn]
    ensures IsAt(start, polls, n + 1, next, first,
                 resets + (if turn.lost then 1 else 0) + if turn.timed then 1 else 0)
  {
    PollsOneMore(start, polls, n);
    ResetsOneMore(keeper.log, turn);
  }

  /** The first `n` turns were not ended by the radio. */
  ghost predicate NoExit(polls: seq<Poll>, n: nat)
    requires n <= |polls|
  {
    n == 0 || (NoExit(polls, n - 1) && ExitOf(polls[n - 1].radio) == None)
  }

  lemma {:induction false} NoExitAt(polls: seq<Poll>, n: nat, i: nat)
    requires i < n <= |polls| && NoExit(polls, n)
    ensures ExitOf(polls[i].radio) == None
  {
    if i < n - 1 {
      NoExitAt(polls, n - 1, i);
    }
  }

  method TakeNextTurn(network: Interface, restartAt: Option<u64>, polls: seq<Poll>, n: nat, log: seq<Turn>,
                      ghost start: Stack, ghost first: nat)
    returns (dhcpRestartAt: Option<u64>, longer: seq<Turn>)
    requires n < |polls|
    requires IsAt(start, polls, n, Keeper(network.State(), restartAt, log), first, network.resets)
    modifies network
    ensures IsAt(start, polls, n + 1, Keeper(network.State(), dhcpRestartAt, longer), first, network.resets)
  {
    ghost var before, resets := Keeper(network.State(), restartAt, log), network.resets;
    var turn;
    dhcpRestartAt, turn := TakeTurn(network, restartAt, polls[n], log);
    longer := log + [turn];
    PollTakesNext(start, polls, n, before, first, resets, Keeper(network.State(), dhcpRestartAt, longer), turn);
  }

  lemma NoExitSoFar(polls: seq<Poll>, n: nat)
    requires n < |polls| && NoExit(polls, n)
    ensures ExitOf(polls[n].radio) == None ==> NoExit(polls, n + 1)
  {
  }

  lemma RunStarts(start: Stack, polls: seq<Poll>, first: nat)
    ensures IsAt(start, polls, 0, Keeper(start, None, []), first, first) && NoExit(polls, 0)
  {
  }

  /** The loop of `keep_polling`. */
  method TakeTurns(network: Interface, polls: seq<Poll>)
    returns (exit: Option<NetworkExit>, n: nat, log: seq<Turn>, ghost keeper: Keeper)
    modifies network
    ensures IsAt(old(network.State()), polls, n, keeper, old(network.resets), network.resets)
    ensures keeper.log == log && keeper.stack == network.State()
    ensures exit == None ==> n == |polls| && NoExit(polls, n)
    ensures exit != None ==> n > 0 && NoExit(polls, n - 1) && exit == ExitOf(polls[n - 1].radio)
  {
    var dhcpRestartAt: Option<u64> := None;
    exit, n, log := None, 0, [];
    ghost var start, first := network.State(), network.resets;
    RunStarts(start, polls, first);
    while n < |polls| && exit.None?
      invariant 0 <= n <= |polls|
      invariant IsAt(start, polls, n, Keeper(network.State(), dhcpRestartAt, log), first, network.resets)
      invariant exit == None ==> NoExit(polls, n)
      invariant exit != None ==> n > 0 && NoExit(polls, n - 1) && exit == ExitOf(polls[n - 1].radio)
      decreases |polls| - n
    {
      dhcpRestartAt, log := TakeNextTurn(network, dhcpRestartAt, polls, n, log, start, first);
      NoExitSoFar(polls, n);
      exit := ExitOf(polls[n].radio);
      n := n + 1;
    }
    keeper := Keeper(network.State(), dhcpRestartAt, log);
  }

  /** `keep_polling` over the first turns of its environment, until a radio event ends it. */
  method KeepPolling(network: Interface, polls: seq<Poll>)
    returns (exit: Option<NetworkExit>, log: seq<Turn>)
    modifies network
    ensures |log| <= |polls|
    ensures AfterPolls(old(network.State()), polls[..|log|]).log == log
    ensures AfterPolls(old(network.State()), polls[..|log|]).stack == network.State()
    ensures network.resets == old(network.resets) + Resets(log)
    ensures match exit
            case None => |log| == |polls|
            case Some(e) => |log| > 0 && ExitOf(polls[|log| - 1].radio) == Some(e)
    ensures forall i | 0 <= i < |log| - 1 :: ExitOf(polls[i].radio) == None
  {
    var n;
    ghost var keeper;
    exit, n, log, keeper := TakeTurns(network, polls);
    ghost var full := if exit.Some? then n - 1 else n;
    forall i | 0 <= i < full
      ensures ExitOf(polls[i].radio) == None
    {
      NoExitAt(polls, full, i);
    }
  }

  // ---- The restart timer over whole runs ------------------------------------

  /** The first turn of the spell without a lease that turn `i` is part of. */
  function SpellStart(log: seq<Turn>, i: nat): (start: nat)
    requires i < |log| && log[i].down
    ensures start <= i
  {
    if i == 0 || !log[i - 1].down then i else SpellStart(log, i - 1)
  }

  /** How often the timer fired in that spell, up to and with turn `i`. */
  function TimedInSpell(log: seq<Turn>, i: nat): nat
    requires i < |log| && log[i].down
  {
    (if log[i].timed then 1 else 0)
    + if i == 0 || !log[i - 1].down then 0 else TimedInSpell(log, i - 1)
  }

  /** The turn that last armed the timer: the first of the spell, or the last timed reset. */
  function ArmedTurn(log: seq<Turn>, i: nat): (j: nat)
    requires i < |log| && log[i].down
    ensures j <= i
  {
    if log[i].timed || i == 0 || !log[i - 1].down then i else ArmedTurn(log, i - 1)
  }

  function ArmedAt(log: seq<Turn>, i: nat): u64
    requires i < |log| && log[i].down
  {
    log[ArmedTurn(log, i)].now
  }

  /** The timer fires exactly in the turns that find the lease still down and the clock
      past the deadline, never in the first turn of a spell, and never with a lease; a
      lost lease is the one other cause of a reset. */
  ghost predicate TurnIsExact(heldAtFirst: bool, log: seq<Turn>, i: nat)
    requires i < |log|
  {
    && (log[i].timed <==>
          && log[i].down && i > 0 && log[i - 1].down
          && log[i].now >= SatAdd(ArmedAt(log, i - 1), RESTART_MS, U64_MAX))
    && (log[i].lost <==>
          log[i].down && if i == 0 then heldAtFirst else !log[i - 1].down)
  }

  ghost predicate TimerArmed(keeper: Keeper) {
    var n := |keeper.log|;
    && (n == 0 ==> keeper.restartAt == None)
    && (n > 0 ==>
          && (keeper.log[n - 1].down <==> keeper.stack.lease.None?)
          && keeper.restartAt == if keeper.log[n - 1].down
                                 then Some(SatAdd(ArmedAt(keeper.log, n - 1), RESTART_MS, U64_MAX)) else None)
  }

  lemma {:induction false} LongerLogSameTurns(log: seq<Turn>, turn: Turn, i: nat)
    requires i < |log|
    ensures log[i].down ==> ArmedTurn(log + [turn], i) == ArmedTurn(log, i)
  {
    if i > 0 && log[i].down && log[i - 1].down {
      LongerLogSameTurns(log, turn, i - 1);
    }
  }

  lemma TurnStaysExact(held: bool, log: seq<Turn>, turn: Turn, i: nat)
    requires i < |log| && TurnIsExact(held, log, i)
    ensures TurnIsExact(held, log + [turn], i)
  {
    if i > 0 {
      LongerLogSameTurns(log, turn, i - 1);
    }
  }

  lemma PollIsExact(held: bool, keeper: Keeper, poll: Poll)
    requires TimerArmed(keeper)
    requires keeper.log == [] ==> (held <==> keeper.stack.lease.Some?)
    ensures TimerArmed(AfterPoll(keeper, poll))
    ensures TurnIsExact(held, AfterPoll(keeper, poll).log, |keeper.log|)
  {
    var after := AfterPoll(keeper, poll);
    var n := |keeper.log|;
    if n > 0 {
      LongerLogSameTurns(keeper.log, after.log[n], n - 1);
    }
  }

  /** Every turn of every run does what the timer promises. */
  lemma {:induction false} EveryTurnIsExact(start: Stack, polls: seq<Poll>)
    ensures TimerArmed(AfterPolls(start, polls))
    ensures |AfterPolls(start, polls).log| == |polls|
    ensures forall i | 0 <= i < |polls| :: TurnIsExact(start.lease.Some?, AfterPolls(start, polls).log, i)
    decreases polls
  {
    if polls != [] {
      var n := |polls| - 1;
      var before := AfterPolls(start, polls[..n]);
      EveryTurnIsExact(start, polls[..n]);
      PollIsExact(start.lease.Some?, before, polls[n]);
      var after := AfterPoll(before, polls[n]);
      forall i | 0 <= i < n
        ensures TurnIsExact(start.lease.Some?, after.log, i)
      {
        TurnStaysExact(start.lease.Some?, before.log, after.log[n], i);
      }
    }
  }

  /** Within one spell the k-th timed reset comes no earlier than k deadlines after the
      spell was first seen, up to the end of the clock's range. */
  lemma {:induction false} ResetsAreSpaced(held: bool, log: seq<Turn>, i: nat)
    requires i < |log| && log[i].down
    requires forall j | 0 <= j <= i :: TurnIsExact(held, log, j)
    ensures ArmedAt(log, i) >= Min(log[SpellStart(log, i)].now + RESTART_MS * TimedInSpell(log, i), U64_MAX)
    ensures log[i].timed ==>
              log[i].now >= Min(log[SpellStart(log, i)].now + RESTART_MS * TimedInSpell(log, i), U64_MAX)
  {
    assert TurnIsExact(held, log, i);
    if i > 0 && log[i - 1].down {
      ResetsAreSpaced(held, log, i - 1);
    }
  }

  /** Polling at least every `gap` ms keeps the timer going: the k-th reset comes no later
      than k deadlines and gaps, and no more than one deadline passes without it. */
  lemma {:induction false} ResetsKeepComing(held: bool, log: seq<Turn>, i: nat, gap: nat)
    requires i < |log| && log[i].down
    requires forall j | 0 <= j <= i :: TurnIsExact(held, log, j)
    requires forall j | SpellStart(log, i) < j <= i :: log[j].now <= log[j - 1].now + gap
    ensures ArmedAt(log, i) <= log[SpellStart(log, i)].now + (RESTART_MS + gap) * TimedInSpell(log, i)
    ensures log[i].now < ArmedAt(log, i) + RESTART_MS
  {
    assert TurnIsExact(held, log, i);
    if i > 0 && log[i - 1].down {
      ResetsKeepComing(held, log, i - 1, gap);
      var period := RESTART_MS + gap;
      OneMoreMultiple(period, TimedInSpell(log, i - 1));
    }
  }

  /** The two bounds on the reset in turn `i`, the k-th of its spell. */
  ghost predicate ResetInBounds(log: seq<Turn>, i: nat, gap: nat)
    requires i < |log| && log[i].down
  {
    var c0, k := log[SpellStart(log, i)].now, TimedInSpell(log, i);
    && log[i].now >= Min(c0 + RESTART_MS * k, U64_MAX)
    && (PolledWithin(log, i, gap) ==> log[i].now <= c0 + (RESTART_MS + gap) * k)
  }

  /** The polls of the spell are at most a gap apart. */
  ghost predicate PolledWithin(log: seq<Turn>, i: nat, gap: nat)
    requires i < |log| && log[i].down
  {
    forall j | SpellStart(log, i) < j <= i :: log[j].now <= log[j - 1].now + gap
  }

  lemma TimedResetInBounds(held: bool, log: seq<Turn>, i: nat, gap: nat)
    requires i < |log| && log[i].timed
    requires forall j | 0 <= j <= i :: TurnIsExact(held, log, j)
    ensures log[i].down && ResetInBounds(log, i, gap)
  {
    assert TurnIsExact(held, log, i);
    ResetsAreSpaced(held, log, i);
    if PolledWithin(log, i, gap) {
      ResetsKeepComing(held, log, i, gap);
    }
  }

  /** Whether there is a lease after the first `n` turns, by what the client reported. */
  predicate Held(start: Stack, polls: seq<Poll>, n: nat)
    requires n <= |polls|
  {
    if n == 0 then start.lease.Some?
    else
      match polls[n - 1].event
      case Some(Configured(_)) => true
      case Some(Deconfigured) => false
      case None => Held(start, polls, n - 1)
  }

  lemma {:induction false} HeldOfPrefix(start: Stack, polls: seq<Poll>, m: nat, n: nat)
    requires n <= m <= |polls|
    ensures Held(start, polls[..m], n) == Held(start, polls, n)
  {
    if n > 0 {
      HeldOfPrefix(start, polls, m, n - 1);
    }
  }

  lemma PollIsLogged(keeper: Keeper, poll: Poll)
    ensures var after := AfterPoll(keeper, poll);
            && |after.log| == |keeper.log| + 1 && after.log[..|keeper.log|] == keeper.log
            && after.log[|keeper.log|].now == poll.now
            && (after.log[|keeper.log|].down <==> after.stack.lease.None?)
            && after.stack == AfterEvent(keeper.stack, poll.event)
  {
  }

  lemma {:induction false} StackFollowsPolls(start: Stack, polls: seq<Poll>)
    ensures |AfterPolls(start, polls).log| == |polls|
    ensures AfterPolls(start, polls).stack.lease.Some? <==> Held(start, polls, |polls|)
    decreases polls
  {
    if polls == [] {
    } else {
      var n := |polls| - 1;
      StackFollowsPolls(start, polls[..n]);
      HeldOfPrefix(start, polls, n, n);
      PollIsLogged(AfterPolls(start, polls[..n]), polls[n]);
    }
  }

  /** The log tells the clock of the polls, and when there is no lease by their events. */
  lemma {:induction false} LogFollowsPolls(start: Stack, polls: seq<Poll>, i: nat)
    requires i < |polls|
    ensures var log := AfterPolls(start, polls).log;
            |log| == |polls| && log[i].now == polls[i].now && (log[i].down <==> !Held(start, polls, i + 1))
    decreases polls
  {
    var n := |polls| - 1;
    var init := polls[..n];
    var before := AfterPolls(start, init);
    StackFollowsPolls(start, init);
    StackFollowsPolls(start, polls);
    PollIsLogged(before, polls[n]);
    if i < n {
      LogFollowsPolls(start, init, i);
      HeldOfPrefix(start, polls, n, i + 1);
      assert AfterPolls(start, polls).log[..n][i] == before.log[i];
    }
  }

  lemma {:induction false} ArmedTurnIsInSpell(log: seq<Turn>, i: nat, m: nat)
    requires i < |log| && log[i].down && ArmedTurn(log, i) <= m <= i
    ensures log[m].down
    ensures m == ArmedTurn(log, i) ==> log[m].timed || m == 0 || !log[m - 1].down
    ensures m > ArmedTurn(log, i) ==> !log[m].timed
  {
    if m < i {
      ArmedTurnIsInSpell(log, i - 1, m);
    }
  }

  lemma {:induction false} SpellIsDown(log: seq<Turn>, i: nat, m: nat)
    requires i < |log| && log[i].down && SpellStart(log, i) <= m <= i
    ensures log[m].down
    ensures m == SpellStart(log, i) ==> m == 0 || !log[m - 1].down
  {
    if m < i {
      SpellIsDown(log, i - 1, m);
    }
  }

  /** What turn `i` does, said of the polls: the timer resets the client exactly when there
      was no lease before the turn and is none after it, and the clock is 10 s past the turn
      that armed the timer, which is the first without a lease or the last timed reset. A lost
      lease, and nothing else, resets it at once. */
  lemma TimerFiresOnTime(start: Stack, polls: seq<Poll>, i: nat)
    requires i < |polls|
    ensures |AfterPolls(start, polls).log| == |polls|
    ensures i > 0 ==> (AfterPolls(start, polls).log[i - 1].down <==> !Held(start, polls, i))
    ensures var log := AfterPolls(start, polls).log;
            && (log[i].lost <==> Held(start, polls, i) && !Held(start, polls, i + 1))
            && (log[i].timed <==>
                  && i > 0 && !Held(start, polls, i) && !Held(start, polls, i + 1)
                  && polls[i].now >= Min(polls[ArmedTurn(log, i - 1)].now + 10_000, U64_MAX))
  {
    var log := AfterPolls(start, polls).log;
    EveryTurnIsExact(start, polls);
    LogFollowsPolls(start, polls, i);
    assert TurnIsExact(start.lease.Some?, log, i);
    if i > 0 {
      LogFollowsPolls(start, polls, i - 1);
      if log[i - 1].down {
        LogFollowsPolls(start, polls, ArmedTurn(log, i - 1));
      }
    }
  }

  lemma GapsOfPolls(start: Stack, polls: seq<Poll>, s: nat, i: nat, gap: nat)
    requires i < |polls| && |AfterPolls(start, polls).log| == |polls|
    requires forall j | s < j <= i :: polls[j].now <= polls[j - 1].now + gap
    ensures var log := AfterPolls(start, polls).log;
            forall j | s < j <= i :: log[j].now <= log[j - 1].now + gap
  {
    var log := AfterPolls(start, polls).log;
    forall j | s < j <= i
      ensures log[j].now <= log[j - 1].now + gap
    {
      LogFollowsPolls(start, polls, j);
      LogFollowsPolls(start, polls, j - 1);
    }
  }

  lemma SpellOfPolls(start: Stack, polls: seq<Poll>, i: nat, m: nat)
    requires i < |polls| && |AfterPolls(start, polls).log| == |polls| && AfterPolls(start, polls).log[i].down
    requires SpellStart(AfterPolls(start, polls).log, i) < m <= i + 1
    ensures !Held(start, polls, m)
    ensures m - 1 == SpellStart(AfterPolls(start, polls).log, i) && m > 1 ==> Held(start, polls, m - 1)
  {
    SpellIsDown(AfterPolls(start, polls).log, i, m - 1);
    LogFollowsPolls(start, polls, m - 1);
    if m > 1 {
      LogFollowsPolls(start, polls, m - 2);
    }
  }

  /** Both bounds hold for every timed reset of any run, whatever the client reports. Said of
      the polls: there was no lease from turn `s` to the reset, there was one before, and the
      reset is the k-th of the timer since. */
  lemma RestartTimerBound(start: Stack, polls: seq<Poll>, i: nat, gap: nat) returns (s: nat, k: nat)
    requires i < |polls| && |AfterPolls(start, polls).log| == |polls|
    requires AfterPolls(start, polls).log[i].timed
    ensures s <= i && (forall m | s < m <= i + 1 :: !Held(start, polls, m)) && (s == 0 || Held(start, polls, s))
    ensures AfterPolls(start, polls).log[i].down && k == TimedInSpell(AfterPolls(start, polls).log, i) > 0
    ensures polls[i].now >= Min(polls[s].now + 10_000 * k, U64_MAX)
    ensures (forall j | s < j <= i :: polls[j].now <= polls[j - 1].now + gap) ==>
              polls[i].now <= polls[s].now + (10_000 + gap) * k
  {
    var log := AfterPolls(start, polls).log;
    EveryTurnIsExact(start, polls);
    TimedResetInBounds(start.lease.Some?, log, i, gap);
    s, k := SpellStart(log, i), TimedInSpell(log, i);
    LogFollowsPolls(start, polls, i);
    LogFollowsPolls(start, polls, s);
    SpellOfPolls(start, polls, i, s + 1);
    forall m | s < m <= i + 1
      ensures !Held(start, polls, m)
    {
      SpellOfPolls(start, polls, i, m);
    }
    if forall j | s < j <= i :: polls[j].now <= polls[j - 1].now + gap {
      GapsOfPolls(start, polls, s, i, gap);
    }
  }
}
