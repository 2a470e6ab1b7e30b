/** The control flow of wifi_connectivity: initialize, scan at most twice, then connect and
    run the network again and again, with one event expected for each operation. */
module ScanFlow {
  import opened Machine

  type Ssid = seq<u8>

  datatype ScanOutcome = ScanOutcome(count: nat, truncated: bool)

  datatype ErrorKind = Backend(code: nat) | Protocol | Other

  datatype WifiError = WifiError(kind: ErrorKind, timedOut: bool)

  datatype Event =
    | Initialized
    | ScanCompleted(count: nat, truncated: bool)
    | Connected
    | Disconnected(reason: u16)
    | Failed(code: nat)

  datatype Result<T> = Success(value: T) | Error(error: WifiError) | OuterTimeout

  /** What the checks before a connection find. */
  datatype Preparation = Ready | InvalidCredentials | SecurityMismatch

  /** One operation, how it ends, and what the backend posts to the event queue for it; a
      scan also leaves its results in the buffer, and a connection is prepared first and is
      followed by the network runner, while which more is posted. */
  datatype Op =
    | Initialize(initialized: Result<()>, posted: seq<Event>)
    | Scan(scanned: Result<ScanOutcome>, buffer: seq<Ssid>, posted: seq<Event>)
    | Connect(preparation: Preparation, connected: Result<()>, posted: seq<Event>, whileRunning: seq<Event>)

  datatype Phase = Initializing | Scanning(retries: nat) | Connecting(reconnects: u32) | Running | Halted

  /** What one turn of the scan or the reconnect loop found in the event queue. */
  datatype Start = ScanStart(pending: seq<Event>) | ConnectStart(pending: seq<Event>)

  datatype State = State(phase: Phase, queue: seq<Event>, results: seq<Ssid>, starts: seq<Start>)

  const BEGIN: State := State(Initializing, [], [], [])

  // ---- The expected events --------------------------------------------------

  /** `expect_scan_event`. */
  predicate ScanEventMatches(scanned: Result<ScanOutcome>, event: Event) {
    match scanned
    case Success(o) => event == ScanCompleted(o.count, o.truncated)
    case Error(WifiError(Backend(code), _)) => event == Failed(code)
    case Error(WifiError(Protocol, _)) => event.Failed?
    case _ => false
  }

  predicate EndsNetwork(event: Event) {
    event.Disconnected? || event.Failed?
  }

  /** How many events the network runner takes: up to the first that ends it. */
  function TakenByNetwork(queue: seq<Event>): (n: nat)
    ensures n <= |queue|
  {
    if queue == [] then 0
    else if EndsNetwork(queue[0]) then 1
    else 1 + TakenByNetwork(queue[1..])
  }

  // ---- One operation --------------------------------------------------------

  predicate Accepts(state: State, op: Op) {
    match state.phase
    case Initializing => op.Initialize?
    case Scanning(_) => op.Scan?
    case Connecting(_) => op.Connect?
    case _ => false
  }

  function Halt(state: State): State {
    state.(phase := Halted)
  }

  function AfterInitialize(state: State, initialized: Result<()>, posted: seq<Event>): State {
    var queue := state.queue + posted;
    if !initialized.Success? || queue == [] then Halt(state)
    else
      var next := state.(queue := queue[1..]);
      if queue[0] == Initialized then next.(phase := Scanning(0)) else Halt(next)
  }

  function AfterScan(target: Ssid, state: State, retries: nat, scanned: Result<ScanOutcome>,
                     buffer: seq<Ssid>, posted: seq<Event>): State {
    var started := state.(starts := state.starts + [ScanStart(state.queue)]);
    var queue := state.queue + posted;
    if scanned.OuterTimeout? || queue == [] then Halt(started)
    else
      var next := started.(queue := queue[1..]);
      if !ScanEventMatches(scanned, queue[0]) then Halt(next)
      else
        match scanned
        case Success(outcome) =>
          if outcome.count > |buffer| then Halt(next)  // the slice of the results panics
          else if target in buffer[..outcome.count] then
            next.(phase := Connecting(0), results := buffer[..outcome.count])
          else if retries == 0 then next.(phase := Scanning(1)) else Halt(next)
        case Error(error) =>
          if retries == 0 && error.timedOut then next.(phase := Scanning(1)) else Halt(next)
        case OuterTimeout => Halt(next)
  }

  function AfterConnect(state: State, reconnects: u32, preparation: Preparation, connected: Result<()>,
                        posted: seq<Event>, whileRunning: seq<Event>): State {
    var started := state.(starts := state.starts + [ConnectStart(state.queue)]);
    var queue := state.queue + posted;
    if preparation != Ready || !connected.Success? || queue == [] then Halt(started)
    else if queue[0] != Connected then Halt(started.(queue := queue[1..]))
    else
      var seen := queue[1..] + whileRunning;
      var n := TakenByNetwork(seen);
      var next := started.(queue := seen[n..]);
      if n == 0 || !EndsNetwork(seen[n - 1]) then next.(phase := Running)
      else if seen[n - 1].Failed? then Halt(next)
      else next.(phase := Connecting(SatAdd(reconnects, 1, U32_MAX)))
  }

  function AfterOp(target: Ssid, state: State, op: Op): State
    requires Accepts(state, op)
  {
    match op
    case Initialize(initialized, posted) => AfterInitialize(state, initialized, posted)
    case Scan(scanned, buffer, posted) =>
      AfterScan(target, state, state.phase.retries, scanned, buffer, posted)
    case Connect(preparation, connected, posted, whileRunning) =>
      AfterConnect(state, state.phase.reconnects, preparation, connected, posted, whileRunning)
  }

  /** The run over some operations; it stops at the first one the code does not start. */
  function AfterOps(target: Ssid, ops: seq<Op>): State
    decreases ops
  {
    if ops == [] then BEGIN
    else
      var before := AfterOps(target, ops[..|ops| - 1]);
      if Accepts(before, ops[|ops| - 1]) then AfterOp(target, before, ops[|ops| - 1]) else before
  }

  // ---- The code's own loops -------------------------------------------------

  /** The first result with the wanted name. */
  method Find(results: seq<Ssid>, target: Ssid) returns (index: nat)
    ensures index <= |results|
    ensures index < |results| ==> results[index] == target
    ensures target !in results[..index]
  {
    index := 0;
    while index < |results| && results[index] != target
      invariant index <= |results| && target !in results[..index]
    {
      index := index + 1;
    }
  }

  /** The local variables of `connectivity`, with the controller's event queue. */
  class Station {
    const target: Ssid
    var phase: Phase
    var queue: seq<Event>
    var results: seq<Ssid>
    var starts: seq<Start>

    function Now(): State
      reads this
    {
      State(phase, queue, results, starts)
    }

    constructor (target: Ssid)
      ensures Now() == BEGIN && this.target == target
    {
      this.target := target;
      phase, queue, results, starts := Initializing, [], [], [];
    }

    /** `next_event_or_halt`. */
    method NextEvent() returns (event: Option<Event>)
      modifies this`queue
      ensures old(queue) == [] ==> event == None && queue == []
      ensures old(queue) != [] ==> event == Some(old(queue)[0]) && queue == old(queue)[1..]
    {
      event := None;
      if queue != [] {
        event := Some(queue[0]);
        queue := queue[1..];
      }
    }

    method DoInitialize(initialized: Result<()>, posted: seq<Event>)
      modifies this
      ensures Now() == AfterInitialize(old(Now()), initialized, posted)
    {
      phase := Halted;
      if !initialized.Success? {
        return;
      }
      queue := queue + posted;
      var event := NextEvent();
      if event == Some(Initialized) {
        phase := Scanning(0);
      }
    }

    /** One turn of the scan loop. */
    method DoScan(scanned: Result<ScanOutcome>, buffer: seq<Ssid>, posted: seq<Event>)
      requires phase.Scanning?
      modifies this
      ensures Now() == AfterScan(target, old(Now()), old(phase.retries), scanned, buffer, posted)
    {
      var retries := phase.retries;
      phase := Halted;
      starts := starts + [ScanStart(queue)];
      if scanned.OuterTimeout? {
        return;
      }
      queue := queue + posted;
      var event := NextEvent();
      if event.None? || !ScanEventMatches(scanned, event.value) {
        return;
      }
      match scanned {
        case Success(outcome) =>
          if outcome.count > |buffer| {
            return;
          }
          var index := Find(buffer[..outcome.count], target);
          if index < outcome.count {
            results := buffer[..outcome.count];
            phase := Connecting(0);
          } else if retries == 0 {
            phase := Scanning(1);
          }
        case Error(error) =>
          if retries == 0 && error.timedOut {
            phase := Scanning(1);
          }
        case OuterTimeout =>
      }
    }

    /** The network runner's use of the event queue. */
    method RunNetwork() returns (end: Option<Event>)
      modifies this`queue
      ensures queue == old(queue)[TakenByNetwork(old(queue))..]
      ensures var n := TakenByNetwork(old(queue));
              end == if n > 0 && EndsNetwork(old(queue)[n - 1]) then Some(old(queue)[n - 1]) else None
    {
      ghost var all := queue;
      ghost var n := 0;
      while queue != []
        invariant n <= |all| && queue == all[n..]
        invariant TakenByNetwork(all) == n + TakenByNetwork(queue)
        invariant n > 0 ==> !EndsNetwork(all[n - 1])
        decreases queue
      {
        var event := queue[0];
        queue := queue[1..];
        n := n + 1;
        if EndsNetwork(event) {
          return Some(event);
        }
      }
      end := None;
    }

    /** One turn of the reconnect loop. */
    method DoConnect(preparation: Preparation, connected: Result<()>, posted: seq<Event>,
                     whileRunning: seq<Event>)
      requires phase.Connecting?
      modifies this
      ensures Now() == AfterConnect(old(Now()), old(phase.reconnects), preparation, connected, posted,
                                    whileRunning)
    {
      var reconnects := phase.reconnects;
      phase := Halted;
      starts := starts + [ConnectStart(queue)];
      if preparation.InvalidCredentials? {
        return;
      }
      if preparation.SecurityMismatch? {
        return;
      }
      if !connected.Success? {
        return;
      }
      queue := queue + posted;
      var event := NextEvent();
      if event != Some(Connected) {
        return;
      }
      queue := queue + whileRunning;
      var end := RunNetwork();
      if end.None? {
        phase := Running;
      } else if end.value.Disconnected? {
        phase := Connecting(SatAdd(reconnects, 1, U32_MAX));
      }
    }
  }

  lemma OpsOneMore(target: Ssid, ops: seq<Op>, n: nat)
    requires n < |ops| && Accepts(AfterOps(target, ops[..n]), ops[n])
    ensures AfterOps(target, ops[..n + 1]) == AfterOp(target, AfterOps(target, ops[..n]), ops[n])
  {
    assert ops[..n + 1][..n] == ops[..n];
  }

  /** `connectivity`: initialize, the scan loop, the look-up of the target, the reconnect
      loop. It takes operations as long as it gets the one it asks for. */
  method Connectivity(target: Ssid, ops: seq<Op>) returns (station: Station, taken: nat)
    ensures taken <= |ops| && station.Now() == AfterOps(target, ops[..taken])
    ensures taken < |ops| ==> !Accepts(station.Now(), ops[taken])
  {
    station := new Station(target);
    taken := 0;
    if ops == [] || !ops[0].Initialize? {
      return;
    }
    OpsOneMore(target, ops, 0);
    station.DoInitialize(ops[0].initialized, ops[0].posted);
    taken := ScanLoop(station, ops);
    if station.phase.Connecting? {
      var index := Find(station.results, target);
      RunKeeps(target, ops[..taken]);
      assert index < |station.results|;  // the scan loop ended with it
      taken := ReconnectLoop(station, ops, taken);
    }
  }

  method ScanLoop(station: Station, ops: seq<Op>) returns (taken: nat)
    requires ops != [] && station.Now() == AfterOps(station.target, ops[..1])
    requires !station.phase.Initializing?
    modifies station
    ensures taken <= |ops| && station.Now() == AfterOps(station.target, ops[..taken])
    ensures !station.phase.Initializing? && (station.phase.Scanning? && taken < |ops| ==> !ops[taken].Scan?)
  {
    taken := 1;
    while taken < |ops| && station.phase.Scanning? && ops[taken].Scan?
      invariant taken <= |ops| && !station.phase.Initializing?
      invariant station.Now() == AfterOps(station.target, ops[..taken])
    {
      OpsOneMore(station.target, ops, taken);
      station.DoScan(ops[taken].scanned, ops[taken].buffer, ops[taken].posted);
      taken := taken + 1;
    }
  }

  method ReconnectLoop(station: Station, ops: seq<Op>, first: nat) returns (taken: nat)
    requires first <= |ops| && station.Now() == AfterOps(station.target, ops[..first])
    requires station.phase.Connecting?
    modifies station
    ensures taken <= |ops| && station.Now() == AfterOps(station.target, ops[..taken])
    ensures taken < |ops| ==> !Accepts(station.Now(), ops[taken])
  {
    taken := first;
    while taken < |ops| && station.phase.Connecting? && ops[taken].Connect?
      invariant taken <= |ops|
      invariant station.Now() == AfterOps(station.target, ops[..taken])
      invariant station.phase.Connecting? || station.phase.Running? || station.phase.Halted?
    {
      OpsOneMore(station.target, ops, taken);
      station.DoConnect(ops[taken].preparation, ops[taken].connected, ops[taken].posted, ops[taken].whileRunning);
      taken := taken + 1;
    }
  }

  // ---- What every run keeps -------------------------------------------------

  function ScanStarts(starts: seq<Start>): nat {
    if starts == [] then 0
    else ScanStarts(starts[..|starts| - 1]) + if starts[|starts| - 1].ScanStart? then 1 else 0
  }

  ghost predicate Kept(target: Ssid, state: State) {
    && (state.phase.Initializing? ==> state.starts == [] && state.queue == [])
    && (state.phase.Scanning? ==> state.phase.retries <= 1 && ScanStarts(state.starts) == state.phase.retries)
    && ScanStarts(state.starts) <= 2
    && (state.phase.Connecting? || state.phase.Running? ==> target in state.results)
  }

  lemma OneMoreStart(starts: seq<Start>, start: Start)
    ensures ScanStarts(starts + [start]) == ScanStarts(starts) + if start.ScanStart? then 1 else 0
  {
    assert (starts + [start])[..|starts|] == starts;
  }

  lemma ScanKeeps(target: Ssid, state: State, scan: Op)
    requires Kept(target, state) && state.phase.Scanning? && scan.Scan?
    ensures Kept(target, AfterScan(target, state, state.phase.retries, scan.scanned, scan.buffer, scan.posted))
  {
    OneMoreStart(state.starts, ScanStart(state.queue));
  }

  lemma ConnectKeeps(target: Ssid, state: State, connect: Op)
    requires Kept(target, state) && state.phase.Connecting? && connect.Connect?
    ensures Kept(target, AfterConnect(state, state.phase.reconnects, connect.preparation, connect.connected,
                                      connect.posted, connect.whileRunning))
  {
    OneMoreStart(state.starts, ConnectStart(state.queue));
  }

  lemma OpKeeps(target: Ssid, state: State, op: Op)
    requires Kept(target, state) && Accepts(state, op)
    ensures Kept(target, AfterOp(target, state, op))
  {
    match op
    case Initialize(_, _) =>
    case Scan(_, _, _) => ScanKeeps(target, state, op);
    case Connect(_, _, _, _) => ConnectKeeps(target, state, op);
  }

  /** In every run at most two scans start, and whenever a connection is tried the wanted
      name is among the results that were kept, so looking it up succeeds. */
  lemma {:induction false} RunKeeps(target: Ssid, ops: seq<Op>)
    ensures Kept(target, AfterOps(target, ops))
    decreases ops
  {
    if ops == [] {
    } else {
      var n := |ops| - 1;
      RunKeeps(target, ops[..n]);
      if Accepts(AfterOps(target, ops[..n]), ops[n]) {
        OpKeeps(target, AfterOps(target, ops[..n]), ops[n]);
      }
    }
  }

  // ---- Which way each operation goes ----------------------------------------

  /** Initialization goes on to scanning exactly when it succeeds and posts its event first;
      any other end halts. */
  lemma InitializationGoes(state: State, initialized: Result<()>, posted: seq<Event>)
    requires state.phase.Initializing? && state.queue == []
    ensures var phase := AfterInitialize(state, initialized, posted).phase;
            phase == if initialized.Success? && posted != [] && posted[0] == Initialized
                     then Scanning(0) else Halted
  {
    assert [] + posted == posted;
  }

  /** The event a scan has to be followed by. */
  predicate Announces(scanned: Result<ScanOutcome>, event: Event) {
    || (scanned.Success? && event.ScanCompleted?
        && event.count == scanned.value.count && event.truncated == scanned.value.truncated)
    || (scanned.Error? && event.Failed?
        && (scanned.error.kind.Protocol? || scanned.error.kind == Backend(event.code)))
  }

  /** A scan of which the queue holds the event first goes on to a connection exactly when it
      found the target, scans again exactly when it is the first and missed the target or
      timed out, and halts otherwise. */
  lemma ScanGoes(target: Ssid, state: State, scanned: Result<ScanOutcome>, buffer: seq<Ssid>, posted: seq<Event>)
    requires state.phase.Scanning? && state.queue + posted != []
    ensures var announced := Announces(scanned, (state.queue + posted)[0]);
            var complete := announced && scanned.Success? && scanned.value.count <= |buffer|;
            var hit := complete && target in buffer[..scanned.value.count];
            var again := state.phase.retries == 0
                         && ((complete && !hit) || (announced && scanned.Error? && scanned.error.timedOut));
            var after := AfterScan(target, state, state.phase.retries, scanned, buffer, posted);
            && after.phase == (if hit then Connecting(0) else if again then Scanning(1) else Halted)
            && (hit ==> after.results == buffer[..scanned.value.count])
  {
  }

  lemma {:induction false} NetworkTakesUpTo(events: seq<Event>, last: Event)
    requires forall i | 0 <= i < |events| :: !events[i].Disconnected? && !events[i].Failed?
    ensures TakenByNetwork(events + [last]) == |events| + 1
    ensures TakenByNetwork(events) == |events|
  {
    if events == [] {
      assert [] + [last] == [last];
    } else {
      NetworkTakesUpTo(events[1..], last);
      assert (events + [last])[1..] == events[1..] + [last];
    }
  }

  /** After a connection that was prepared, succeeded and posted its event first, the network
      runner goes on through all events but two. A lost link leads to another connection and
      is counted, a failed backend halts, and without either the runner is still at work. */
  lemma ConnectionGoes(state: State, events: seq<Event>, last: Event)
    requires state.phase.Connecting? && state.queue == []
    requires forall i | 0 <= i < |events| :: !events[i].Disconnected? && !events[i].Failed?
    ensures var reconnects := state.phase.reconnects;
            var after := AfterConnect(state, reconnects, Ready, Success(()), [Connected], events + [last]);
            && (after.phase == Connecting(Min(reconnects + 1, U32_MAX)) <==> last.Disconnected?)
            && (after.phase == Halted <==> last.Failed?)
            && (after.phase == Running <==> !last.Disconnected? && !last.Failed?)
            && after.queue == []
  {
    assert [] + [Connected] == [Connected] && [Connected][1..] == [];
    var seen := events + [last];
    assert [Connected][1..] + seen == seen;
    NetworkTakesUpTo(events, last);
    assert seen[|seen|..] == [];
  }

  /** A connection that is not prepared, does not succeed or does not post its event halts. */
  lemma BadConnectionHalts(
    state: State, preparation: Preparation, connected: Result<()>, posted: seq<Event>, whileRunning: seq<Event>)
    requires state.phase.Connecting? && state.queue == []
    requires preparation != Ready || !connected.Success? || posted == [] || posted[0] != Connected
    ensures var after := AfterConnect(state, state.phase.reconnects, preparation, connected, posted, whileRunning);
            && after.phase == Halted
            && (preparation == Ready && connected.Success? && posted != [] ==> after.queue == posted[1..])
  {
    assert [] + posted == posted;
  }

  /** How many connections were tried. */
  function Connections(ops: seq<Op>): nat {
    if ops == [] then 0
    else Connections(ops[..|ops| - 1]) + if ops[|ops| - 1].Connect? then 1 else 0
  }

  /** The reconnect counter is the number of connections tried so far, as far as a u32 goes. */
  lemma {:induction false} ReconnectsAreCounted(target: Ssid, ops: seq<Op>)
    requires AllAccepted(target, ops)
    ensures var state := AfterOps(target, ops);
            && (state.phase.Connecting? ==> state.phase.reconnects == Min(Connections(ops), U32_MAX))
            && (state.phase.Initializing? || state.phase.Scanning? ==> Connections(ops) == 0)
    decreases ops
  {
    if ops == [] {
    } else {
      ReconnectsAreCounted(target, ops[..|ops| - 1]);
    }
  }

  // ---- Leftover events ------------------------------------------------------

  /** The backend posts exactly one event for an initialization or a scan. For a connection
      it posts `Connected` first, and nothing after the event that ends the network runner. */
  predicate LeavesNothing(op: Op) {
    if op.Connect? then
      op.posted != [] && (var seen := op.posted[1..] + op.whileRunning; TakenByNetwork(seen) == |seen|)
    else |op.posted| == 1
  }

  /** Every scan and every connection found the event queue empty. */
  ghost predicate StartsClean(starts: seq<Start>) {
    forall i | 0 <= i < |starts| :: starts[i].pending == []
  }

  /** All operations were started, and the code goes on with another one. */
  ghost predicate AllStarted(target: Ssid, ops: seq<Op>)
    decreases ops
  {
    var state := AfterOps(target, ops);
    && (state.phase.Initializing? || state.phase.Scanning? || state.phase.Connecting?)
    && (ops != [] ==>
          && AllStarted(target, ops[..|ops| - 1])
          && Accepts(AfterOps(target, ops[..|ops| - 1]), ops[|ops| - 1]))
  }

  lemma OneEventIsTaken(target: Ssid, state: State, op: Op)
    requires Accepts(state, op) && state.queue == []
    requires var after := AfterOp(target, state, op); after.phase.Scanning? || after.phase.Connecting?
    ensures AfterOp(target, state, op).queue == [] <==> LeavesNothing(op)
  {
    assert state.queue + op.posted == op.posted;
  }

  lemma StartIsRecorded(target: Ssid, state: State, op: Op)
    requires Accepts(state, op)
    ensures var after := AfterOp(target, state, op);
            if op.Initialize? then after.starts == state.starts
            else StartsClean(after.starts) <==> StartsClean(state.starts) && state.queue == []
  {
    var after := AfterOp(target, state, op);
    if !op.Initialize? {
      var n := |state.starts|;
      assert after.starts[..n] == state.starts && after.starts[n].pending == state.queue;
      assert forall i | 0 <= i < n :: after.starts[i] == state.starts[i];
    }
  }

  /** A run finds the event queue empty at every scan and connection and goes on with an
      empty queue if and only if no operation leaves an event behind. A timed-out first
      scan is no exception. */
  lemma {:induction false} CleanIffOneEventEach(target: Ssid, ops: seq<Op>)
    requires AllStarted(target, ops)
    ensures StartsClean(AfterOps(target, ops).starts) && AfterOps(target, ops).queue == []
            <==> forall i | 0 <= i < |ops| :: LeavesNothing(ops[i])
    decreases ops
  {
    if ops != [] {
      var n := |ops| - 1;
      var before := AfterOps(target, ops[..n]);
      CleanIffOneEventEach(target, ops[..n]);
      RunKeeps(target, ops[..n]);
      if before.queue == [] {
        OneEventIsTaken(target, before, ops[n]);
      }
      StartIsRecorded(target, before, ops[n]);
    }
  }

  /** All operations were started. */
  ghost predicate AllAccepted(target: Ssid, ops: seq<Op>)
    decreases ops
  {
    ops == [] ||
    (AllAccepted(target, ops[..|ops| - 1]) && Accepts(AfterOps(target, ops[..|ops| - 1]), ops[|ops| - 1]))
  }

  lemma {:induction false} AcceptedGoOn(target: Ssid, ops: seq<Op>)
    requires AllAccepted(target, ops)
    requires var phase := AfterOps(target, ops).phase;
             phase.Initializing? || phase.Scanning? || phase.Connecting?
    ensures AllStarted(target, ops)
    decreases ops
  {
    if ops == [] {
    } else {
      AcceptedGoOn(target, ops[..|ops| - 1]);
    }
  }

  /** In any run, however it ends, every scan and every connection found the event queue empty
      if and only if no operation before the last one left an event behind. */
  lemma StartsCleanIffNothingLeft(target: Ssid, ops: seq<Op>)
    requires AllAccepted(target, ops)
    ensures StartsClean(AfterOps(target, ops).starts)
            <==> forall i | 0 <= i < |ops| - 1 :: LeavesNothing(ops[i])
  {
    if ops == [] {
    } else {
      var n := |ops| - 1;
      var init, last := ops[..n], ops[n];
      var before := AfterOps(target, init);
      RunKeeps(target, init);
      StartIsRecorded(target, before, last);
      if last.Initialize? {
        FirstOpInitializes(target, init);
      } else {
        AcceptedGoOn(target, init);
        CleanIffOneEventEach(target, init);
        assert forall i | 0 <= i < n :: init[i] == ops[i];
      }
    }
  }

  /** Only the first operation initializes. */
  lemma FirstOpInitializes(target: Ssid, ops: seq<Op>)
    requires AllAccepted(target, ops) && AfterOps(target, ops).phase.Initializing?
    ensures ops == []
  {
  }

  /** A first scan that times out and a second one that finds the target lead to a
      connection attempt, with nothing left over from either. */
  lemma SecondScanCanConnect(target: Ssid, code: nat, outcome: ScanOutcome, buffer: seq<Ssid>)
    requires outcome.count <= |buffer| && target in buffer[..outcome.count]
    ensures var timedOut: Result<ScanOutcome> := Error(WifiError(Backend(code), true));
            var ops := [Initialize(Success(()), [Initialized]),
                        Scan(timedOut, [], [Failed(code)]),
                        Scan(Success(outcome), buffer, [ScanCompleted(outcome.count, outcome.truncated)])];
            AfterOps(target, ops)
            == State(Connecting(0), [], buffer[..outcome.count], [ScanStart([]), ScanStart([])])
  {
    var timedOut: Result<ScanOutcome> := Error(WifiError(Backend(code), true));
    var first, second := Initialize(Success(()), [Initialized]), Scan(timedOut, [], [Failed(code)]);
    var third := Scan(Success(outcome), buffer, [ScanCompleted(outcome.count, outcome.truncated)]);
    assert [first, second, third][..2] == [first, second];
    assert [first, second][..1] == [first] && [first][..0] == [];
    assert AfterOps(target, [first]) == State(Scanning(0), [], [], []);
    assert AfterOps(target, [first, second]) == State(Scanning(1), [], [], [ScanStart([])]);
  }
}
