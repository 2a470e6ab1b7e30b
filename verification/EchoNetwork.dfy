/** The two boards together: the station's probe, the access point's echo service, and a
    network between them that may lose, reorder and duplicate what it carries. */
module EchoNetwork {
  import opened Machine
  import opened Bits
  import opened Net
  import opened LocalProbe

  /// Packet slots and payload bytes of the two receiving sockets.
  const STATION_SLOTS: nat := 10
  const STATION_BYTES: nat := 128
  const AP_SLOTS: nat := 16
  const AP_BYTES: nat := 512
  const ECHO_BUFFER: nat := 256

  function Bytes(queue: seq<Datagram>): nat {
    if queue == [] then 0 else Bytes(queue[..|queue| - 1]) + |queue[|queue| - 1].payload|
  }

  /** A datagram that does not find a slot and room for its payload is dropped. */
  predicate HasRoom(queue: seq<Datagram>, slots: nat, bytes: nat, datagram: Datagram) {
    |queue| < slots && Bytes(queue) + |datagram.payload| <= bytes
  }

  // ---- The echo service -----------------------------------------------------

  function Reply(request: Datagram): Datagram {
    Datagram(request.destination, request.source, request.payload)
  }

  /** A request that was taken from the socket, and whether the socket would send. */
  datatype Handled = Handled(request: Datagram, sendOk: bool) {
    /** A datagram longer than the buffer is reported as an error. */
    predicate FitsBuffer() {
      |request.payload| <= ECHO_BUFFER
    }
    predicate Answered() {
      FitsBuffer() && sendOk
    }
  }

  function Requests(handled: seq<Handled>): (requests: seq<Datagram>)
    ensures |requests| == |handled|
  {
    if handled == [] then [] else Requests(handled[..|handled| - 1]) + [handled[|handled| - 1].request]
  }

  /** The replies to the requests that could be answered, in their order. */
  function Replies(handled: seq<Handled>): seq<Datagram> {
    if handled == [] then []
    else
      var last := handled[|handled| - 1];
      Replies(handled[..|handled| - 1]) + if last.Answered() then [Reply(last.request)] else []
  }

  /** How many requests fitted the buffer. */
  function Fitting(handled: seq<Handled>): nat {
    if handled == [] then 0
    else Fitting(handled[..|handled| - 1]) + if handled[|handled| - 1].FitsBuffer() then 1 else 0
  }

  lemma HandleOneMore(handled: seq<Handled>, last: Handled)
    ensures Requests(handled + [last]) == Requests(handled) + [last.request]
    ensures Replies(handled + [last]) == Replies(handled) + if last.Answered() then [Reply(last.request)] else []
    ensures Fitting(handled + [last]) == Fitting(handled) + if last.FitsBuffer() then 1 else 0
  {
    assert (handled + [last])[..|handled|] == handled;
  }

  /** The receive queue after some arrivals. */
  function AfterArrivals(queue: seq<Datagram>, arrivals: seq<Datagram>): seq<Datagram>
    decreases arrivals
  {
    if arrivals == [] then queue
    else
      var n := |arrivals| - 1;
      var before := AfterArrivals(queue, arrivals[..n]);
      if HasRoom(before, AP_SLOTS, AP_BYTES, arrivals[n]) then before + [arrivals[n]] else before
  }

  /** As long as there are slots and room for all of them, arrivals are admitted in order. */
  lemma {:induction false} ArrivalsAreAdmitted(queue: seq<Datagram>, arrivals: seq<Datagram>)
    requires |queue| + |arrivals| <= 16 && Bytes(queue) + Bytes(arrivals) <= 512
    ensures AfterArrivals(queue, arrivals) == queue + arrivals
    ensures Bytes(queue + arrivals) == Bytes(queue) + Bytes(arrivals)
    decreases arrivals
  {
    if arrivals == [] {
      assert queue + [] == queue;
    } else {
      var init, last := arrivals[..|arrivals| - 1], arrivals[|arrivals| - 1];
      ArrivalsAreAdmitted(queue, init);
      assert queue + arrivals == (queue + init) + [last];
      assert (queue + arrivals)[..|queue| + |init|] == queue + init;
    }
  }

  /** What the loop of the access point meets in one turn: what arrives before the echo
      service is called, whether it can send, and what arrives after it. */
  datatype Round = Round(before: seq<Datagram>, sendOk: bool, after: seq<Datagram>)

  /** What the echo service holds: its queue, and what it has handled. */
  datatype Served = Served(queue: seq<Datagram>, handled: seq<Handled>)

  /** One call takes the head of the queue. */
  function AfterCall(served: Served, sendOk: bool): Served {
    if served.queue == [] then served
    else Served(served.queue[1..], served.handled + [Handled(served.queue[0], sendOk)])
  }

  function AfterRound(served: Served, round: Round): Served {
    var called := AfterCall(Served(AfterArrivals(served.queue, round.before), served.handled), round.sendOk);
    Served(AfterArrivals(called.queue, round.after), called.handled)
  }

  /** What the turns of the access point leave. */
  function AfterRounds(rounds: seq<Round>): Served
    decreases rounds
  {
    if rounds == [] then Served([], [])
    else AfterRound(AfterRounds(rounds[..|rounds| - 1]), rounds[|rounds| - 1])
  }

  lemma RoundsOneMore(rounds: seq<Round>, n: nat)
    requires n < |rounds|
    ensures AfterRounds(rounds[..n + 1]) == AfterRound(AfterRounds(rounds[..n]), rounds[n])
  {
    assert rounds[..n + 1][..n] == rounds[..n];
  }

  lemma RoundAppended(rounds: seq<Round>, last: Round)
    ensures AfterRounds(rounds + [last]) == AfterRound(AfterRounds(rounds), last)
  {
    assert (rounds + [last])[..|rounds|] == rounds;
  }

  ghost predicate IsSilent(round: Round) {
    round.before == [] && round.after == []
  }

  lemma SilentRoundTakesOne(served: Served, round: Round)
    requires IsSilent(round) && served.queue != []
    ensures AfterRound(served, round).queue == served.queue[1..]
    ensures Requests(AfterRound(served, round).handled) == Requests(served.handled) + [served.queue[0]]
  {
    HandleOneMore(served.handled, Handled(served.queue[0], round.sendOk));
  }

  /** Further turns after some state. */
  function Continued(served: Served, rounds: seq<Round>): Served
    decreases rounds
  {
    if rounds == [] then served else Continued(AfterRound(served, rounds[0]), rounds[1..])
  }

  lemma {:induction false} ContinuedRounds(rounds: seq<Round>, more: seq<Round>)
    ensures AfterRounds(rounds + more) == Continued(AfterRounds(rounds), more)
    decreases more
  {
    if more == [] {
      assert rounds + more == rounds;
    } else {
      var longer := rounds + [more[0]];
      RoundAppended(rounds, more[0]);
      ContinuedRounds(longer, more[1..]);
      assert rounds + more == longer + more[1..];
    }
  }

  lemma Reassociated(a: seq<Datagram>, queue: seq<Datagram>)
    requires queue != []
    ensures (a + [queue[0]]) + queue[1..] == a + queue
  {
  }

  lemma {:induction false} SilenceTakesAll(served: Served, silent: seq<Round>)
    requires |silent| == |served.queue|
    requires forall i | 0 <= i < |silent| :: IsSilent(silent[i])
    ensures Continued(served, silent).queue == []
    ensures Requests(Continued(served, silent).handled) == Requests(served.handled) + served.queue
    decreases silent
  {
    if silent == [] {
    } else {
      var next := AfterRound(served, silent[0]);
      SilentRoundTakesOne(served, silent[0]);
      SilenceTakesAll(next, silent[1..]);
      Reassociated(Requests(served.handled), served.queue);
    }
  }

  /** As many turns without arrivals as there are datagrams waiting handle them all, in the
      order they came. */
  lemma SilenceEmptiesQueue(rounds: seq<Round>, silent: seq<Round>)
    requires |silent| == |AfterRounds(rounds).queue|
    requires forall i | 0 <= i < |silent| :: IsSilent(silent[i])
    ensures var served, after := AfterRounds(rounds), AfterRounds(rounds + silent);
            after.queue == [] && Requests(after.handled) == Requests(served.handled) + served.queue
  {
    ContinuedRounds(rounds, silent);
    SilenceTakesAll(AfterRounds(rounds), silent);
  }

  class EchoService {
    var queue: seq<Datagram>
    var echoRx: u32
    var echoTx: u32
    /// Everything that was sent, everything that ever found room, and what became of it.
    var outbox: seq<Datagram>
    ghost var admitted: seq<Datagram>
    ghost var handled: seq<Handled>

    /** Every admitted datagram was handled once, in order of arrival, or still waits; the
        replies are those to the handled ones that could be answered, and the counters
        count them. */
    ghost predicate Valid()
      reads this
    {
      && Requests(handled) + queue == admitted
      && outbox == Replies(handled)
      && echoRx == Min(Fitting(handled), U32_MAX)
      && echoTx == Min(|Replies(handled)|, U32_MAX)
    }

    constructor ()
      ensures Valid() && queue == [] && handled == [] && admitted == []
    {
      queue, echoRx, echoTx, outbox := [], 0, 0, [];
      admitted, handled := [], [];
    }

    /** The socket takes what finds room. */
    method Arrive(arrivals: seq<Datagram>)
      requires Valid() && |queue| <= AP_SLOTS
      modifies `queue, `admitted
      ensures Valid() && |queue| <= AP_SLOTS
      ensures queue == AfterArrivals(old(queue), arrivals)
      ensures old(queue) <= queue && admitted == old(admitted) + queue[|old(queue)|..]
    {
      var i := 0;
      while i < |arrivals|
        invariant 0 <= i <= |arrivals|
        invariant Valid() && |queue| <= AP_SLOTS
        invariant queue == AfterArrivals(old(queue), arrivals[..i])
        invariant old(queue) <= queue && admitted == old(admitted) + queue[|old(queue)|..]
      {
        assert arrivals[..i + 1][..i] == arrivals[..i];
        if HasRoom(queue, AP_SLOTS, AP_BYTES, arrivals[i]) {
          queue := queue + [arrivals[i]];
          admitted := admitted + [arrivals[i]];
        }
        i := i + 1;
      }
      assert arrivals[..i] == arrivals;
    }

    /** `service_echo`: the oldest waiting datagram leaves the queue, and if it fits the
        buffer and the socket takes the answer its payload goes back to where it came from,
        from the address it was sent to. The result is the byte of a one-byte answer. */
    method ServiceEcho(sendOk: bool) returns (sequence: Option<u8>)
      requires Valid()
      modifies this
      ensures Valid() && admitted == old(admitted)
      ensures old(queue) == [] ==> handled == old(handled) && queue == [] && sequence == None
      ensures old(queue) != [] ==>
                && queue == old(queue)[1..]
                && handled == old(handled) + [Handled(old(queue)[0], sendOk)]
      ensures sequence.Some? <==>
                && |outbox| == |old(outbox)| + 1
                && |outbox[|outbox| - 1].payload| == 1
      ensures sequence.Some? ==> outbox[|outbox| - 1].payload == [sequence.value]
    {
      sequence := None;
      if queue == [] {
        return;
      }
      var request := queue[0];
      HandleOneMore(handled, Handled(request, sendOk));
      assert Requests(handled) + queue == Requests(handled) + [request] + queue[1..];
      queue := queue[1..];
      handled := handled + [Handled(request, sendOk)];
      if |request.payload| > ECHO_BUFFER {
        return;
      }
      echoRx := SatAdd(echoRx, 1, U32_MAX);
      if sendOk {
        outbox := outbox + [Reply(request)];
        echoTx := SatAdd(echoTx, 1, U32_MAX);
        if |request.payload| == 1 {
          sequence := Some(request.payload[0]);
        }
      }
    }

    /** One turn of the access point. */
    method ServeRound(round: Round)
      requires Valid() && |queue| <= AP_SLOTS
      modifies this
      ensures Valid() && |queue| <= AP_SLOTS
      ensures Served(queue, handled) == AfterRound(old(Served(queue, handled)), round)
    {
      Arrive(round.before);
      var sequence := ServiceEcho(round.sendOk);
      Arrive(round.after);
    }
  }

  /** The access point's loop, as far as the echo service goes: what it holds, what it has
      handled and so what it has sent is determined by what arrived and when it could send. */
  method ServeRounds(rounds: seq<Round>) returns (service: EchoService)
    ensures service.Valid() && |service.queue| <= AP_SLOTS
    ensures Served(service.queue, service.handled) == AfterRounds(rounds)
    ensures service.outbox == Replies(AfterRounds(rounds).handled)
  {
    service := new EchoService();
    var i := 0;
    while i < |rounds|
      invariant 0 <= i <= |rounds| && fresh(service)
      invariant service.Valid() && |service.queue| <= AP_SLOTS
      invariant Served(service.queue, service.handled) == AfterRounds(rounds[..i])
    {
      RoundsOneMore(rounds, i);
      service.ServeRound(rounds[i]);
      i := i + 1;
    }
    assert rounds[..i] == rounds;
  }

  // ---- The system -----------------------------------------------------------

  datatype Setup = Setup(station: Endpoint, ap: Endpoint, startedAt: u64)

  /** A datagram on its way, and whether it stems from this run: a probe that was sent in
      it, or the answer to one. The boards see the datagram alone. */
  datatype Packet = Packet(datagram: Datagram, ours: bool)

  function Datagrams(packets: seq<Packet>): (datagrams: seq<Datagram>)
    ensures |datagrams| == |packets|
  {
    seq(|packets|, i requires 0 <= i < |packets| => packets[i].datagram)
  }

  datatype World = World(
    probe: Probe,
    network: multiset<Packet>,   // in flight
    waiting: seq<Packet>,        // in the station's receive queue
    requests: seq<Packet>,       // in the access point's receive queue
    echoes: seq<Packet>,         // everything the access point echoed in this run
    credited: seq<Packet>)       // the packets that made the station count a reply

  datatype Step =
    | StationTurn(taken: nat, now: u64, sendOk: bool)
    | ApTurn(sendOk: bool)
    | ToStation(packet: Packet)
    | ToAp(packet: Packet)
    | Lose(packet: Packet)
    | Duplicate(packet: Packet)
    | Foreign(datagram: Datagram)

  function Leftover(datagrams: seq<Datagram>): (packets: seq<Packet>)
    ensures |packets| == |datagrams|
  {
    seq(|datagrams|, i requires 0 <= i < |datagrams| => Packet(datagrams[i], false))
  }

  /** Earlier traffic may still be in flight when a probe starts. A datagram that already
      waits at a receiver is one in flight that is delivered first. */
  function Start(setup: Setup, leftover: seq<Datagram>): World {
    World(Fresh(setup.startedAt), multiset(Leftover(leftover)), [], [], [], [])
  }

  function Enqueue(queue: seq<Packet>, slots: nat, bytes: nat, packet: Packet): seq<Packet> {
    if HasRoom(Datagrams(queue), slots, bytes, packet.datagram) then queue + [packet] else queue
  }

  function Probed(setup: Setup, sequence: u8): Datagram {
    Datagram(setup.station, setup.ap, [sequence])
  }

  /** A datagram of another host. */
  predicate IsForeign(setup: Setup, d: Datagram) {
    d.source != setup.station && d.source != setup.ap
  }

  predicate IsCounted(probe: Probe, target: Endpoint, d: Datagram) {
    Answers(probe, target, d) && !HasBit(probe.received, d.payload[0])
  }

  /** The waiting packets that the receive loop counts. */
  function Credits(probe: Probe, target: Endpoint, waiting: seq<Packet>): seq<Packet>
    requires probe.sent <= ATTEMPTS
  {
    if waiting == [] then []
    else
      var n := |waiting| - 1;
      var before := ReceiveAll(probe, target, Datagrams(waiting[..n]));
      Credits(probe, target, waiting[..n])
      + if IsCounted(before, target, waiting[n].datagram) then [waiting[n]] else []
  }

  function AfterStationTurn(setup: Setup, w: World, taken: nat, now: u64, sendOk: bool): World
    requires w.probe.sent <= ATTEMPTS && taken <= |w.waiting|
  {
    var turn := Turn(now, Datagrams(w.waiting[..taken]), now, sendOk, None);
    var after := AfterTurn(w.probe, setup.ap, setup.startedAt, turn);
    w.(probe := after, waiting := w.waiting[taken..],
       credited := w.credited + Credits(w.probe, setup.ap, w.waiting[..taken]),
       network := if after.sent > w.probe.sent
                  then w.network + multiset{Packet(Probed(setup, w.probe.sent), true)} else w.network)
  }

  function AfterApTurn(w: World, sendOk: bool): World
    requires w.requests != []
  {
    var request := w.requests[0];
    var rest := w.(requests := w.requests[1..]);
    if !Handled(request.datagram, sendOk).Answered() then rest
    else
      var reply := Packet(Reply(request.datagram), request.ours);
      rest.(network := w.network + multiset{reply}, echoes := w.echoes + [reply])
  }

  function AfterStep(setup: Setup, w: World, step: Step): World
    requires w.probe.sent <= ATTEMPTS
  {
    match step
    case StationTurn(taken, now, sendOk) =>
      if taken > |w.waiting| then w else AfterStationTurn(setup, w, taken, now, sendOk)
    case ApTurn(sendOk) =>
      if w.requests == [] then w else AfterApTurn(w, sendOk)
    case ToStation(p) =>
      if p !in w.network || p.datagram.destination != setup.station then w
      else w.(network := w.network - multiset{p},
              waiting := Enqueue(w.waiting, STATION_SLOTS, STATION_BYTES, p))
    case ToAp(p) =>
      if p !in w.network || p.datagram.destination != setup.ap then w
      else w.(network := w.network - multiset{p},
              requests := Enqueue(w.requests, AP_SLOTS, AP_BYTES, p))
    case Lose(p) =>
      w.(network := w.network - multiset{p})
    case Duplicate(p) =>
      if p in w.network then w.(network := w.network + multiset{p}) else w
    case Foreign(d) =>
      // Any other host may send anything under its own address.
      if IsForeign(setup, d) then w.(network := w.network + multiset{Packet(d, false)}) else w
  }

  function Run(setup: Setup, leftover: seq<Datagram>, steps: seq<Step>): (w: World)
    ensures w.probe.sent <= ATTEMPTS
    decreases steps
  {
    if steps == [] then Start(setup, leftover)
    else
      var n := |steps| - 1;
      AfterStep(setup, Run(setup, leftover, steps[..n]), steps[n])
  }

  /** Only the network and the receive queues changed, and what is new there was in flight or
      comes from another host. */
  ghost predicate Moved(setup: Setup, w: World, after: World) {
    && after.probe == w.probe && after.echoes == w.echoes && after.credited == w.credited
    && (forall p | p in after.network :: p in w.network || (IsForeign(setup, p.datagram) && !p.ours))
    && (forall p | p in after.waiting ::
          p in w.waiting || (p in w.network && p.datagram.destination == setup.station))
    && (forall p | p in after.requests ::
          p in w.requests || (p in w.network && p.datagram.destination == setup.ap))
  }

  lemma OtherStepsMove(setup: Setup, w: World, step: Step)
    requires w.probe.sent <= ATTEMPTS && !step.StationTurn? && !step.ApTurn?
    ensures Moved(setup, w, AfterStep(setup, w, step))
  {
  }

  /** What the access point's turn takes, sends and leaves is what its echo service does. */
  lemma ApTurnIsService(w: World, sendOk: bool)
    requires w.requests != []
    ensures var after := AfterApTurn(w, sendOk);
            var handled := Handled(Datagrams(w.requests)[0], sendOk);
            && Datagrams(after.requests) == Datagrams(w.requests)[1..]
            && Datagrams(after.echoes) == Datagrams(w.echoes) + Replies([handled])
  {
    assert Replies([Handled(Datagrams(w.requests)[0], sendOk)][..0]) == [];
  }

  /** A station turn puts exactly one packet into the network when it sends, the probe with
      the sequence that was up next, and takes none out. */
  lemma SendReachesNetwork(setup: Setup, w: World, taken: nat, now: u64, sendOk: bool)
    requires w.probe.sent <= ATTEMPTS && taken <= |w.waiting|
    ensures var after := AfterStep(setup, w, StationTurn(taken, now, sendOk));
            && after.waiting == w.waiting[taken..]
            && after.network
               == w.network + if |after.probe.sends| > |w.probe.sends|
                              then multiset{Packet(Datagram(setup.station, setup.ap, [w.probe.sent]), true)}
                              else multiset{}
  {
    ReceiveAllPutsOutNothing(w.probe, setup.ap, Datagrams(w.waiting[..taken]));
  }

  /** The network is as bad as can be: it may lose any packet, double any packet, take in any
      foreign one, and deliver any packet next to the board it is for. */
  lemma NetworkMayDoAnything(setup: Setup, w: World, p: Packet, foreign: Datagram)
    requires w.probe.sent <= ATTEMPTS && p in w.network
    requires foreign.source != setup.station && foreign.source != setup.ap
    ensures AfterStep(setup, w, Lose(p)).network[p] == w.network[p] - 1
    ensures AfterStep(setup, w, Duplicate(p)).network[p] == w.network[p] + 1
    ensures AfterStep(setup, w, Foreign(foreign)).network[Packet(foreign, false)]
            == w.network[Packet(foreign, false)] + 1
    ensures p.datagram.destination == setup.station && HasRoom(Datagrams(w.waiting), 10, 128, p.datagram) ==>
              var after := AfterStep(setup, w, ToStation(p));
              after.waiting == w.waiting + [p] && after.network[p] == w.network[p] - 1
    ensures p.datagram.destination == setup.ap && HasRoom(Datagrams(w.requests), 16, 512, p.datagram) ==>
              var after := AfterStep(setup, w, ToAp(p));
              after.requests == w.requests + [p] && after.network[p] == w.network[p] - 1
  {
  }

  /** The receive queues never hold more than their sockets can. */
  ghost predicate QueuesFit(w: World) {
    && |w.waiting| <= 10 && Bytes(Datagrams(w.waiting)) <= 128
    && |w.requests| <= 16 && Bytes(Datagrams(w.requests)) <= 512
  }

  lemma {:induction false} BytesOfTail(queue: seq<Datagram>, taken: nat)
    requires taken <= |queue|
    ensures Bytes(queue[taken..]) <= Bytes(queue)
  {
    if taken == |queue| {
      assert queue[taken..] == [];
    } else {
      var n := |queue| - 1;
      BytesOfTail(queue[..n], taken);
      assert queue[taken..][..n - taken] == queue[..n][taken..];
    }
  }

  lemma TakingKeepsFit(queue: seq<Packet>, taken: nat)
    requires taken <= |queue|
    ensures |queue[taken..]| <= |queue| && Bytes(Datagrams(queue[taken..])) <= Bytes(Datagrams(queue))
  {
    BytesOfTail(Datagrams(queue), taken);
    assert Datagrams(queue[taken..]) == Datagrams(queue)[taken..];
  }

  lemma EnqueueFits(queue: seq<Packet>, slots: nat, bytes: nat, p: Packet)
    requires |queue| <= slots && Bytes(Datagrams(queue)) <= bytes
    ensures |Enqueue(queue, slots, bytes, p)| <= slots
    ensures Bytes(Datagrams(Enqueue(queue, slots, bytes, p))) <= bytes
  {
    var longer := Datagrams(queue + [p]);
    assert longer[..|queue|] == Datagrams(queue);
  }

  lemma StepKeepsFit(setup: Setup, w: World, step: Step)
    requires w.probe.sent <= ATTEMPTS && QueuesFit(w)
    ensures QueuesFit(AfterStep(setup, w, step))
  {
    match step
    case StationTurn(taken, _, _) =>
      if taken <= |w.waiting| {
        TakingKeepsFit(w.waiting, taken);
      }
    case ApTurn(_) =>
      if w.requests != [] {
        TakingKeepsFit(w.requests, 1);
      }
    case ToStation(p) => EnqueueFits(w.waiting, STATION_SLOTS, STATION_BYTES, p);
    case ToAp(p) => EnqueueFits(w.requests, AP_SLOTS, AP_BYTES, p);
    case _ =>
  }

  /** In every reachable state the receive queues fit their sockets. */
  lemma {:induction false} QueuesAlwaysFit(setup: Setup, leftover: seq<Datagram>, steps: seq<Step>)
    ensures QueuesFit(Run(setup, leftover, steps))
    decreases steps
  {
    if steps == [] {
    } else {
      var n := |steps| - 1;
      QueuesAlwaysFit(setup, leftover, steps[..n]);
      StepKeepsFit(setup, Run(setup, leftover, steps[..n]), steps[n]);
    }
  }

  // ---- What holds with any network ------------------------------------------

  /** A one-byte request or reply with a sequence number that a probe can use. */
  predicate IsRequest(setup: Setup, d: Datagram) {
    d.source == setup.station && d.destination == setup.ap && |d.payload| == 1 && d.payload[0] < ATTEMPTS
  }

  predicate IsReply(setup: Setup, d: Datagram) {
    d.source == setup.ap && d.destination == setup.station && |d.payload| == 1 && d.payload[0] < ATTEMPTS
  }

  /** Each counted sequence has the packet that made it count. */
  ghost predicate CreditsMatch(counted: seq<u8>, credited: seq<Packet>) {
    |credited| == |counted| && forall i | 0 <= i < |counted| :: credited[i].datagram.payload == [counted[i]]
  }

  ghost predicate Sound(setup: Setup, w: World) {
    && CountsOnce(w.probe)
    && CreditsMatch(w.probe.counted, w.credited)
    && (forall p | p in w.waiting :: p.datagram.destination == setup.station)
    && (forall p | p in w.requests :: p.datagram.destination == setup.ap)
    && (forall p | p in w.credited :: IsReply(setup, p.datagram) && p.datagram.payload[0] < w.probe.sent)
  }

  lemma {:induction false} CreditsAreCounted(probe: Probe, target: Endpoint, waiting: seq<Packet>)
    requires probe.sent <= ATTEMPTS
    ensures var credits, counted := Credits(probe, target, waiting),
                                    ReceiveAll(probe, target, Datagrams(waiting)).counted;
            && |counted| == |probe.counted| + |credits| && probe.counted <= counted
            && CreditsMatch(counted[|probe.counted|..], credits)
            && (forall p | p in credits :: p in waiting && Answers(probe, target, p.datagram))
    decreases waiting
  {
    if waiting == [] {
      assert Datagrams(waiting) == [];
    } else {
      var n := |waiting| - 1;
      CreditsAreCounted(probe, target, waiting[..n]);
      assert Datagrams(waiting)[..n] == Datagrams(waiting[..n]);
    }
  }

  lemma StationTurnIsSound(setup: Setup, w: World, taken: nat, now: u64, sendOk: bool)
    requires Sound(setup, w) && taken <= |w.waiting|
    ensures Sound(setup, AfterStationTurn(setup, w, taken, now, sendOk))
  {
    var waiting := w.waiting[..taken];
    var turn := Turn(now, Datagrams(waiting), now, sendOk, None);
    var after := AfterStationTurn(setup, w, taken, now, sendOk);
    TurnCountsOnce(w.probe, setup.ap, setup.startedAt, turn);
    CreditsAreCounted(w.probe, setup.ap, waiting);
    forall p | p in after.credited
      ensures IsReply(setup, p.datagram) && p.datagram.payload[0] < after.probe.sent
    {
      assert p in w.credited || p in w.waiting;
    }
  }

  lemma StepIsSound(setup: Setup, w: World, step: Step)
    requires Sound(setup, w)
    ensures Sound(setup, AfterStep(setup, w, step))
  {
    if step.StationTurn? && step.taken <= |w.waiting| {
      StationTurnIsSound(setup, w, step.taken, step.now, step.sendOk);
    }
  }

  lemma {:induction false} RunIsSound(setup: Setup, leftover: seq<Datagram>, steps: seq<Step>)
    ensures Sound(setup, Run(setup, leftover, steps))
    decreases steps
  {
    if steps == [] {
      NoPositions(MASK_BITS);
    } else {
      var n := |steps| - 1;
      RunIsSound(setup, leftover, steps[..n]);
      StepIsSound(setup, Run(setup, leftover, steps[..n]), steps[n]);
    }
  }

  /** Whatever the network does and whatever is in flight: replies never exceed sends, and
      the loss reported is the number of sequences that were sent and never counted. */
  lemma ReportedLossIsExact(setup: Setup, leftover: seq<Datagram>, steps: seq<Step>)
    ensures var probe := Run(setup, leftover, steps).probe;
            && probe.replies <= probe.sent <= ATTEMPTS
            && SatSub(probe.sent, probe.replies) == |Unanswered(probe)|
  {
    RunIsSound(setup, leftover, steps);
    LostIsExact(Run(setup, leftover, steps).probe);
  }

  // ---- What holds as long as nothing in flight spoils it --------------------

  /** Three things to keep of every packet of a run. */
  datatype Promise = EchoedHere | FromThisRun | Genuine

  ghost predicate Fits(promise: Promise, setup: Setup, sent: u8, echoes: seq<Packet>, p: Packet) {
    var d := p.datagram;
    match promise
    // A reply was echoed in this run.
    case EchoedHere =>
      IsReply(setup, d) ==> p in echoes
    // A packet of this run is a probe that was sent or its answer; no other packet looks
    // like one.
    case FromThisRun =>
      if p.ours then (IsRequest(setup, d) || IsReply(setup, d)) && d.payload[0] < sent
      else !IsRequest(setup, d) && !IsReply(setup, d)
    // A packet under a board's address was sent by that board, in this run.
    case Genuine =>
      && (d.source == setup.station ==> IsRequest(setup, d) && d.payload[0] < sent)
      && (d.source == setup.ap ==>
            p in echoes && (d.destination == setup.station ==> IsReply(setup, d) && d.payload[0] < sent))
  }

  /** What each of them asks of a datagram that is in flight when the run starts. */
  predicate Harmless(promise: Promise, setup: Setup, d: Datagram) {
    match promise
    case EchoedHere => !IsReply(setup, d)
    case FromThisRun => !IsRequest(setup, d) && !IsReply(setup, d)
    case Genuine => IsForeign(setup, d)
  }

  ghost predicate AllHarmless(promise: Promise, setup: Setup, leftover: seq<Datagram>) {
    forall d | d in leftover :: Harmless(promise, setup, d)
  }

  ghost predicate Kept(promise: Promise, setup: Setup, w: World) {
    && (forall p | p in w.network :: Fits(promise, setup, w.probe.sent, w.echoes, p))
    && (forall p | p in w.waiting :: Fits(promise, setup, w.probe.sent, w.echoes, p))
    && (forall p | p in w.requests :: Fits(promise, setup, w.probe.sent, w.echoes, p))
    && (forall p | p in w.credited :: Fits(promise, setup, w.probe.sent, w.echoes, p))
  }

  lemma StillFits(
    promise: Promise, setup: Setup, sent: u8, echoes: seq<Packet>, later: u8, more: seq<Packet>, p: Packet)
    requires Fits(promise, setup, sent, echoes, p)
    requires sent <= later && forall e | e in echoes :: e in more
    ensures Fits(promise, setup, later, more, p)
  {
  }

  lemma ReplyFits(
    promise: Promise, setup: Setup, sent: u8, echoes: seq<Packet>, request: Packet, reply: Packet)
    requires setup.station != setup.ap && request.datagram.destination == setup.ap
    requires Fits(promise, setup, sent, echoes, request)
    requires reply == Packet(Reply(request.datagram), request.ours) && reply in echoes
    ensures Fits(promise, setup, sent, echoes, reply)
  {
  }

  lemma StationTurnKeeps(
    promise: Promise, setup: Setup, w: World, taken: nat, now: u64, sendOk: bool)
    requires setup.station != setup.ap && w.probe.sent <= ATTEMPTS && taken <= |w.waiting|
    requires Kept(promise, setup, w)
    ensures Kept(promise, setup, AfterStationTurn(setup, w, taken, now, sendOk))
  {
    var after := AfterStationTurn(setup, w, taken, now, sendOk);
    CreditsAreCounted(w.probe, setup.ap, w.waiting[..taken]);
    forall p | p in w.network || p in w.waiting || p in w.requests || p in w.credited
      ensures Fits(promise, setup, after.probe.sent, after.echoes, p)
    {
      StillFits(promise, setup, w.probe.sent, w.echoes, after.probe.sent, after.echoes, p);
    }
  }

  lemma ApTurnKeeps(promise: Promise, setup: Setup, w: World, sendOk: bool)
    requires setup.station != setup.ap && w.requests != []
    requires Sound(setup, w) && Kept(promise, setup, w)
    ensures Kept(promise, setup, AfterApTurn(w, sendOk))
  {
    var after := AfterApTurn(w, sendOk);
    forall p | p in w.network || p in w.waiting || p in w.requests || p in w.credited
      ensures Fits(promise, setup, after.probe.sent, after.echoes, p)
    {
      StillFits(promise, setup, w.probe.sent, w.echoes, after.probe.sent, after.echoes, p);
    }
    var request := w.requests[0];
    if Handled(request.datagram, sendOk).Answered() {
      var reply := Packet(Reply(request.datagram), request.ours);
      assert after.echoes[|w.echoes|] == reply;
      ReplyFits(promise, setup, after.probe.sent, after.echoes, request, reply);
    }
  }

  lemma MovingKeeps(promise: Promise, setup: Setup, w: World, after: World)
    requires Kept(promise, setup, w) && Moved(setup, w, after)
    ensures Kept(promise, setup, after)
  {
  }

  lemma StepKeeps(promise: Promise, setup: Setup, w: World, step: Step)
    requires setup.station != setup.ap
    requires Sound(setup, w) && Kept(promise, setup, w)
    ensures Kept(promise, setup, AfterStep(setup, w, step))
  {
    match step
    case StationTurn(taken, now, sendOk) =>
      if taken <= |w.waiting| {
        StationTurnKeeps(promise, setup, w, taken, now, sendOk);
      }
    case ApTurn(sendOk) =>
      if w.requests != [] {
        ApTurnKeeps(promise, setup, w, sendOk);
      }
    case _ =>
      OtherStepsMove(setup, w, step);
      MovingKeeps(promise, setup, w, AfterStep(setup, w, step));
  }

  lemma {:induction false} RunKeeps(promise: Promise, setup: Setup, leftover: seq<Datagram>, steps: seq<Step>)
    requires setup.station != setup.ap && AllHarmless(promise, setup, leftover)
    ensures Kept(promise, setup, Run(setup, leftover, steps))
    decreases steps
  {
    if steps == [] {
      forall p | p in multiset(Leftover(leftover))
        ensures Fits(promise, setup, 0, [], p)
      {
        var i :| 0 <= i < |leftover| && p == Leftover(leftover)[i];
        assert leftover[i] in leftover;
      }
    } else {
      var n := |steps| - 1;
      RunIsSound(setup, leftover, steps[..n]);
      RunKeeps(promise, setup, leftover, steps[..n]);
      StepKeeps(promise, setup, Run(setup, leftover, steps[..n]), steps[n]);
    }
  }

  /** Every counted reply is a sequence the station sent and the access point echoed in this
      run, counted once. */
  ghost predicate Safe(setup: Setup, w: World) {
    && CountsOnce(w.probe)
    && (forall k | k in w.probe.counted ::
          k < w.probe.sent && Datagram(setup.ap, setup.station, [k]) in Datagrams(w.echoes))
  }

  lemma CreditedCounts(setup: Setup, w: World, k: u8) returns (p: Packet)
    requires Sound(setup, w) && k in w.probe.counted
    ensures p in w.credited && p.datagram == Datagram(setup.ap, setup.station, [k])
    ensures k < w.probe.sent
  {
    var i :| 0 <= i < |w.probe.counted| && w.probe.counted[i] == k;
    p := w.credited[i];
    assert p in w.credited;
  }

  /** Safety of the exchange: with no reply to an earlier probe in flight, every reachable
      state is safe, whatever the network loses, reorders and duplicates. */
  lemma EchoIsSafe(setup: Setup, leftover: seq<Datagram>, steps: seq<Step>)
    requires setup.station != setup.ap && AllHarmless(EchoedHere, setup, leftover)
    ensures Safe(setup, Run(setup, leftover, steps))
  {
    var w := Run(setup, leftover, steps);
    RunIsSound(setup, leftover, steps);
    RunKeeps(EchoedHere, setup, leftover, steps);
    forall k | k in w.probe.counted
      ensures k < w.probe.sent && Datagram(setup.ap, setup.station, [k]) in Datagrams(w.echoes)
    {
      var p := CreditedCounts(setup, w, k);
      assert p in w.echoes;
      var i :| 0 <= i < |w.echoes| && w.echoes[i] == p;
      assert Datagrams(w.echoes)[i] == p.datagram;
    }
  }

  /** And with nothing in flight under either board's address, everything that ever is in
      flight under one of them was sent by that board in this run. */
  lemma TrafficIsGenuine(setup: Setup, leftover: seq<Datagram>, steps: seq<Step>, p: Packet)
    requires setup.station != setup.ap && AllHarmless(Genuine, setup, leftover)
    requires p in Run(setup, leftover, steps).network
    ensures var w := Run(setup, leftover, steps);
            && (p.datagram.source == setup.station ==>
                  IsRequest(setup, p.datagram) && p.datagram.payload[0] < w.probe.sent)
            && (p.datagram.source == setup.ap ==> p in w.echoes)
  {
    RunKeeps(Genuine, setup, leftover, steps);
  }

  // ---- An exchange without loss ---------------------------------------------

  lemma RoomInEmptyQueue(slots: nat, bytes: nat, p: Packet)
    requires slots > 0 && |p.datagram.payload| <= bytes
    ensures Enqueue([], slots, bytes, p) == [p]
  {
  }

  /** A request that the access point gets is echoed to its sender, with its payload, exactly
      when that is at most 256 bytes long and the socket sends. */
  lemma ApEchoes(w: World, sendOk: bool)
    requires w.requests != []
    ensures var request, after := w.requests[0], AfterApTurn(w, sendOk);
            && after.requests == w.requests[1..]
            && (if sendOk && |request.datagram.payload| <= 256 then
                  var reply := Packet(Datagram(request.datagram.destination, request.datagram.source,
                                               request.datagram.payload), request.ours);
                  after.echoes == w.echoes + [reply] && after.network == w.network + multiset{reply}
                else after.echoes == w.echoes && after.network == w.network)
  {
  }

  lemma RequestIsAnswered(setup: Setup, w: World, request: Packet)
    requires w.probe.sent <= ATTEMPTS && w.requests == [] && request in w.network
    requires request.datagram.destination == setup.ap && |request.datagram.payload| == 1
    ensures var reply := Packet(Reply(request.datagram), request.ours);
            var after := AfterStep(setup, AfterStep(setup, w, ToAp(request)), ApTurn(true));
            && reply in after.network && after.echoes == w.echoes + [reply]
            && after.probe == w.probe && after.waiting == w.waiting && after.credited == w.credited
  {
    RoomInEmptyQueue(AP_SLOTS, AP_BYTES, request);
    var delivered := AfterStep(setup, w, ToAp(request));
    assert delivered.requests == [request];
  }

  lemma ReplyIsDelivered(setup: Setup, w: World, reply: Packet)
    requires w.probe.sent <= ATTEMPTS && w.waiting == [] && reply in w.network
    requires reply.datagram.destination == setup.station && |reply.datagram.payload| == 1
    ensures var after := AfterStep(setup, w, ToStation(reply));
            && after.waiting == [reply]
            && after.probe == w.probe && after.echoes == w.echoes && after.credited == w.credited
  {
    RoomInEmptyQueue(STATION_SLOTS, STATION_BYTES, reply);
  }

  lemma ReplyIsCounted(setup: Setup, w: World, reply: Packet, now: u64)
    requires CountsOnce(w.probe) && w.waiting == [reply]
    requires IsReply(setup, reply.datagram) && reply.datagram.payload[0] < w.probe.sent
    ensures var after := AfterStep(setup, w, StationTurn(1, now, false));
            reply.datagram.payload[0] in after.probe.counted && after.echoes == w.echoes
  {
    var waiting := Datagrams(w.waiting);
    assert w.waiting[..1] == w.waiting && waiting[0] == reply.datagram;
    WaitingAnswersAreCounted(w.probe, setup.ap, waiting, 0);
    var received := ReceiveAll(w.probe, setup.ap, waiting);
    assert reply.datagram.payload[0] in received.counted;
  }

  /** A probe that is delivered, echoed and delivered back is counted. */
  lemma ExchangeIsCounted(setup: Setup, w: World, k: u8, now: u64)
    requires CountsOnce(w.probe) && k < w.probe.sent
    requires w.waiting == [] && w.requests == [] && Packet(Probed(setup, k), true) in w.network
    ensures var request := Packet(Probed(setup, k), true);
            var reply := Packet(Reply(request.datagram), true);
            var answered := AfterStep(setup, AfterStep(setup, w, ToAp(request)), ApTurn(true));
            var delivered := AfterStep(setup, answered, ToStation(reply));
            var after := AfterStep(setup, delivered, StationTurn(1, now, false));
            k in after.probe.counted && reply in after.echoes
  {
    var request := Packet(Probed(setup, k), true);
    var reply := Packet(Reply(request.datagram), true);
    RequestIsAnswered(setup, w, request);
    var answered := AfterStep(setup, AfterStep(setup, w, ToAp(request)), ApTurn(true));
    assert answered.echoes[|w.echoes|] == reply;
    ReplyIsDelivered(setup, answered, reply);
    var delivered := AfterStep(setup, answered, ToStation(reply));
    ReplyIsCounted(setup, delivered, reply, now);
  }

  // ---- Queue sizing ---------------------------------------------------------

  ghost predicate QuietNetwork(steps: seq<Step>) {
    forall step | step in steps :: !step.Duplicate? && !step.Foreign?
  }

  function InSystem(w: World): nat {
    |w.network| + |w.waiting| + |w.requests|
  }

  ghost predicate OneByteEach(w: World) {
    && (forall p | p in w.network :: |p.datagram.payload| == 1)
    && (forall p | p in w.waiting :: |p.datagram.payload| == 1)
    && (forall p | p in w.requests :: |p.datagram.payload| == 1)
  }

  lemma StepAddsOnlySends(setup: Setup, w: World, step: Step)
    requires w.probe.sent <= ATTEMPTS && InSystem(w) <= w.probe.sent
    requires !step.Duplicate? && !step.Foreign?
    ensures InSystem(AfterStep(setup, w, step)) <= AfterStep(setup, w, step).probe.sent
  {
  }

  lemma NothingNewInNetwork(setup: Setup, w: World, step: Step)
    requires w.probe.sent <= ATTEMPTS && !step.StationTurn? && !step.ApTurn? && !step.Foreign?
    ensures forall p | p in AfterStep(setup, w, step).network :: p in w.network
  {
  }

  lemma StepKeepsOneByte(setup: Setup, w: World, step: Step)
    requires w.probe.sent <= ATTEMPTS && OneByteEach(w) && !step.Foreign?
    ensures OneByteEach(AfterStep(setup, w, step))
  {
    var after := AfterStep(setup, w, step);
    if step.StationTurn? {
      forall p | p in after.network ensures |p.datagram.payload| == 1 {
        assert p in w.network || p.datagram == Probed(setup, w.probe.sent);
      }
    } else if step.ApTurn? {
      forall p | p in after.network ensures |p.datagram.payload| == 1 {
        assert p in w.network || p.datagram == Reply(w.requests[0].datagram);
      }
    } else {
      OtherStepsMove(setup, w, step);
      NothingNewInNetwork(setup, w, step);
    }
  }

  /** Without duplication and other traffic at most ten datagrams exist at any time, of one
      byte each. */
  lemma {:induction false} AtMostTenInSystem(setup: Setup, steps: seq<Step>)
    requires QuietNetwork(steps)
    ensures InSystem(Run(setup, [], steps)) <= Run(setup, [], steps).probe.sent <= ATTEMPTS
    ensures OneByteEach(Run(setup, [], steps))
    decreases steps
  {
    if steps == [] {
      assert Leftover([]) == [];
    } else {
      var n := |steps| - 1;
      AtMostTenInSystem(setup, steps[..n]);
      assert steps[n] in steps;
      StepAddsOnlySends(setup, Run(setup, [], steps[..n]), steps[n]);
      StepKeepsOneByte(setup, Run(setup, [], steps[..n]), steps[n]);
    }
  }

  lemma {:induction false} BytesOfOneByteEach(packets: seq<Packet>)
    requires forall p | p in packets :: |p.datagram.payload| == 1
    ensures Bytes(Datagrams(packets)) == |packets|
  {
    if packets == [] {
    } else {
      var n := |packets| - 1;
      BytesOfOneByteEach(packets[..n]);
      assert Datagrams(packets)[..n] == Datagrams(packets[..n]);
      assert packets[n] in packets;
    }
  }

  /** So the sockets have a slot and room for every datagram that is in flight: an arrival is
      never dropped. */
  lemma ArrivalsFindRoom(setup: Setup, steps: seq<Step>, p: Packet)
    requires QuietNetwork(steps)
    requires p in Run(setup, [], steps).network
    ensures var w := Run(setup, [], steps);
            && Enqueue(w.waiting, STATION_SLOTS, STATION_BYTES, p) == w.waiting + [p]
            && Enqueue(w.requests, AP_SLOTS, AP_BYTES, p) == w.requests + [p]
  {
    AtMostTenInSystem(setup, steps);
    var w := Run(setup, [], steps);
    assert w.network == (w.network - multiset{p}) + multiset{p};
    assert |w.network| >= 1;
    BytesOfOneByteEach(w.waiting);
    BytesOfOneByteEach(w.requests);
  }

  // ---- Traffic of an earlier probe ------------------------------------------

  /** A clock reading some time after another, round the u64 range if need be. */
  function Later(at: u64, ms: u64): u64 {
    var sum := at as int + ms;
    if sum <= U64_MAX then sum else sum - U64_MAX - 1
  }

  /** When the `n`th probe can be sent well before the probe times out. */
  function SendTime(startedAt: u64, n: nat): u64
    requires n <= ATTEMPTS
  {
    Later(startedAt, 500 * n + if n > PRIMARY_ATTEMPTS then 3_000 else 0)
  }

  function SendTurn(startedAt: u64, n: nat): Step
    requires n <= ATTEMPTS
  {
    StationTurn(0, SendTime(startedAt, n), true)
  }

  /** `n` turns that each send. */
  function SendTurns(startedAt: u64, n: nat): seq<Step>
    requires n <= ATTEMPTS
  {
    if n == 0 then [] else SendTurns(startedAt, n - 1) + [SendTurn(startedAt, n)]
  }

  /** The first `n` probes of a run, all in flight. */
  function ProbesInFlight(setup: Setup, n: nat): multiset<Packet>
    requires n <= ATTEMPTS
  {
    if n == 0 then multiset{} else ProbesInFlight(setup, n - 1) + multiset{Packet(Probed(setup, n - 1), true)}
  }

  /** A world in which `n` probes were sent and nothing arrived: each of them is in flight
      once, beside what was in flight at the start. */
  ghost predicate OnlySent(setup: Setup, leftover: seq<Datagram>, w: World, n: nat) {
    && n <= ATTEMPTS && w.probe.sent == n && w.probe.received == 0
    && w.probe.lastSendAt == (if n == 0 then WrappingSub(setup.startedAt, INTERVAL_MS)
                              else SendTime(setup.startedAt, n))
    && w.waiting == [] && w.requests == [] && w.echoes == []
    && w.network == multiset(Leftover(leftover)) + ProbesInFlight(setup, n)
  }

  lemma OneMoreSend(setup: Setup, leftover: seq<Datagram>, w: World, n: nat)
    requires 0 < n <= ATTEMPTS && OnlySent(setup, leftover, w, n - 1)
    ensures OnlySent(setup, leftover, AfterStep(setup, w, SendTurn(setup.startedAt, n)), n)
  {
    var now := SendTime(setup.startedAt, n);
    var announced := Announce(w.probe, setup.startedAt, now);
    assert w.waiting[..0] == [] && Datagrams([]) == [];
    assert ReceiveAll(w.probe, setup.ap, []) == w.probe;
    assert n > PRIMARY_ATTEMPTS ==> WrappingSub(now, setup.startedAt) >= RECOVERY_DELAY_MS;
    assert WrappingSub(now, w.probe.lastSendAt) >= INTERVAL_MS;
    assert Attempts(announced, setup.startedAt, now);
  }

  lemma RunStep(setup: Setup, leftover: seq<Datagram>, steps: seq<Step>, step: Step)
    ensures Run(setup, leftover, steps + [step]) == AfterStep(setup, Run(setup, leftover, steps), step)
  {
    assert (steps + [step])[..|steps|] == steps;
  }

  lemma RunOneMoreSend(setup: Setup, leftover: seq<Datagram>, steps: seq<Step>, n: nat)
    requires 0 < n <= ATTEMPTS && OnlySent(setup, leftover, Run(setup, leftover, steps), n - 1)
    ensures OnlySent(setup, leftover, Run(setup, leftover, steps + [SendTurn(setup.startedAt, n)]), n)
  {
    var w := Run(setup, leftover, steps);
    OneMoreSend(setup, leftover, w, n);
    RunStep(setup, leftover, steps, SendTurn(setup.startedAt, n));
  }

  lemma NothingSent(setup: Setup, leftover: seq<Datagram>)
    ensures OnlySent(setup, leftover, Start(setup, leftover), 0)
  {
  }

  /** Turns that are due send: afterwards each probe is in flight once. */
  lemma {:induction false} SendTurnsSend(setup: Setup, leftover: seq<Datagram>, n: nat)
    requires n <= ATTEMPTS
    ensures OnlySent(setup, leftover, Run(setup, leftover, SendTurns(setup.startedAt, n)), n)
  {
    if n == 0 {
      NothingSent(setup, leftover);
    } else {
      var earlier := SendTurns(setup.startedAt, n - 1);
      SendTurnsSend(setup, leftover, n - 1);
      RunOneMoreSend(setup, leftover, earlier, n);
      var w := Run(setup, leftover, earlier + [SendTurn(setup.startedAt, n)]);
      assert OnlySent(setup, leftover, w, n);
      assert SendTurns(setup.startedAt, n) == earlier + [SendTurn(setup.startedAt, n)];
    }
  }

  lemma LeftoverIsInFlight(setup: Setup, leftover: seq<Datagram>, w: World, n: nat, d: Datagram)
    requires OnlySent(setup, leftover, w, n) && d in leftover
    ensures Packet(d, false) in w.network
  {
    var i :| 0 <= i < |leftover| && leftover[i] == d;
    assert Leftover(leftover)[i] == Packet(d, false);
  }

  lemma FreshReplyIsCredited(setup: Setup, w: World, reply: Packet, now: u64)
    requires w.probe.sent <= ATTEMPTS && w.probe.received == 0
    requires w.waiting == [reply]
    requires IsReply(setup, reply.datagram) && reply.datagram.payload[0] < w.probe.sent
    ensures var after := AfterStep(setup, w, StationTurn(1, now, false));
            reply in after.credited && after.echoes == w.echoes
  {
    NoBit(reply.datagram.payload[0]);
    assert w.waiting[..1] == [reply] && [reply][..0] == [] && Datagrams([]) == [];
    assert ReceiveAll(w.probe, setup.ap, []) == w.probe;
    assert Credits(w.probe, setup.ap, []) == [];
    assert IsCounted(w.probe, setup.ap, reply.datagram);
    var credits := Credits(w.probe, setup.ap, [reply]);
    assert credits == [] + [reply];
    assert credits[0] == reply;
  }

  /** The time since the start at the last turn of the station. */
  function Elapsed(startedAt: u64, steps: seq<Step>): u64
    decreases steps
  {
    if steps == [] then 0
    else
      var last := steps[|steps| - 1];
      if last.StationTurn? then WrappingSub(last.now, startedAt) else Elapsed(startedAt, steps[..|steps| - 1])
  }

  /** The station's clock never goes back, and all its turns come before the timeout. */
  ghost predicate Timely(startedAt: u64, steps: seq<Step>)
    decreases steps
  {
    steps == [] ||
    var init, last := steps[..|steps| - 1], steps[|steps| - 1];
    && Timely(startedAt, init)
    && (last.StationTurn? ==> Elapsed(startedAt, init) <= WrappingSub(last.now, startedAt) < TIMEOUT_MS)
  }

  lemma OneMoreTimely(startedAt: u64, steps: seq<Step>, step: Step)
    requires Timely(startedAt, steps)
    requires step.StationTurn? ==> Elapsed(startedAt, steps) <= WrappingSub(step.now, startedAt) < TIMEOUT_MS
    ensures Timely(startedAt, steps + [step])
    ensures Elapsed(startedAt, steps + [step])
            == if step.StationTurn? then WrappingSub(step.now, startedAt) else Elapsed(startedAt, steps)
  {
    assert (steps + [step])[..|steps|] == steps;
  }

  lemma SendTimeSinceStart(startedAt: u64, n: nat)
    requires n <= ATTEMPTS
    ensures WrappingSub(SendTime(startedAt, n), startedAt) == 500 * n + if n > PRIMARY_ATTEMPTS then 3_000 else 0
  {
  }

  lemma {:induction false} SendTurnsAreTimely(startedAt: u64, n: nat)
    requires n <= ATTEMPTS
    ensures Timely(startedAt, SendTurns(startedAt, n))
    ensures Elapsed(startedAt, SendTurns(startedAt, n)) == WrappingSub(SendTime(startedAt, n), startedAt)
  {
    SendTimeSinceStart(startedAt, n);
    if n == 0 {
    } else {
      SendTimeSinceStart(startedAt, n - 1);
      SendTurnsAreTimely(startedAt, n - 1);
      OneMoreTimely(startedAt, SendTurns(startedAt, n - 1), SendTurn(startedAt, n));
    }
  }

  lemma ReplyWitnessIsTimely(startedAt: u64, n: nat, toStation: Step)
    requires n <= ATTEMPTS && toStation.ToStation?
    ensures Timely(startedAt, SendTurns(startedAt, n) + [toStation] + [StationTurn(1, SendTime(startedAt, n), false)])
  {
    SendTimeSinceStart(startedAt, n);
    SendTurnsAreTimely(startedAt, n);
    var sends, turn := SendTurns(startedAt, n), StationTurn(1, SendTime(startedAt, n), false);
    OneMoreTimely(startedAt, sends, toStation);
    OneMoreTimely(startedAt, sends + [toStation], turn);
  }

  lemma RequestWitnessIsTimely(startedAt: u64, n: nat, toAp: Step, toStation: Step)
    requires n <= ATTEMPTS && toAp.ToAp? && toStation.ToStation?
    ensures Timely(startedAt, SendTurns(startedAt, n) + [toAp] + [ApTurn(true)] + [toStation]
                              + [StationTurn(1, SendTime(startedAt, n), false)])
  {
    SendTimeSinceStart(startedAt, n);
    SendTurnsAreTimely(startedAt, n);
    var sends, turn := SendTurns(startedAt, n), StationTurn(1, SendTime(startedAt, n), false);
    OneMoreTimely(startedAt, sends, toAp);
    OneMoreTimely(startedAt, sends + [toAp], ApTurn(true));
    OneMoreTimely(startedAt, sends + [toAp] + [ApTurn(true)], toStation);
    OneMoreTimely(startedAt, sends + [toAp] + [ApTurn(true)] + [toStation], turn);
  }

  /** A reply to an earlier probe that arrives after its sequence was sent again counts. */
  lemma EarlierReplyIsCredited(setup: Setup, leftover: seq<Datagram>, d: Datagram)
    returns (steps: seq<Step>)
    requires d in leftover && IsReply(setup, d)
    ensures Timely(setup.startedAt, steps)
    ensures var w := Run(setup, leftover, steps);
            Packet(d, false) in w.credited && w.echoes == []
  {
    var n: nat := d.payload[0] as int + 1;
    var reply := Packet(d, false);
    var sends := SendTurns(setup.startedAt, n);
    SendTurnsSend(setup, leftover, n);
    LeftoverIsInFlight(setup, leftover, Run(setup, leftover, sends), n, d);
    var delivered := sends + [ToStation(reply)];
    ReplyIsDelivered(setup, Run(setup, leftover, sends), reply);
    RunStep(setup, leftover, sends, ToStation(reply));
    FreshReplyIsCredited(setup, Run(setup, leftover, delivered), reply, SendTime(setup.startedAt, n));
    RunStep(setup, leftover, delivered, StationTurn(1, SendTime(setup.startedAt, n), false));
    steps := delivered + [StationTurn(1, SendTime(setup.startedAt, n), false)];
    ReplyWitnessIsTimely(setup.startedAt, n, ToStation(reply));
  }

  /** After enough sends, a request in flight is delivered, echoed, delivered back and counted. */
  lemma RequestIsCredited(setup: Setup, leftover: seq<Datagram>, request: Packet, n: nat) returns (steps: seq<Step>)
    requires IsRequest(setup, request.datagram) && n == request.datagram.payload[0] as int + 1
    requires request in Run(setup, leftover, SendTurns(setup.startedAt, n)).network
    ensures Timely(setup.startedAt, steps)
    ensures Packet(Reply(request.datagram), request.ours) in Run(setup, leftover, steps).credited
  {
    var reply := Packet(Reply(request.datagram), request.ours);
    var sends := SendTurns(setup.startedAt, n);
    SendTurnsSend(setup, leftover, n);
    var asked := sends + [ToAp(request)];
    var answered := asked + [ApTurn(true)];
    var delivered := answered + [ToStation(reply)];
    RequestIsAnswered(setup, Run(setup, leftover, sends), request);
    RunStep(setup, leftover, sends, ToAp(request));
    RunStep(setup, leftover, asked, ApTurn(true));
    ReplyIsDelivered(setup, Run(setup, leftover, answered), reply);
    RunStep(setup, leftover, answered, ToStation(reply));
    FreshReplyIsCredited(setup, Run(setup, leftover, delivered), reply, SendTime(setup.startedAt, n));
    RunStep(setup, leftover, delivered, StationTurn(1, SendTime(setup.startedAt, n), false));
    steps := delivered + [StationTurn(1, SendTime(setup.startedAt, n), false)];
    RequestWitnessIsTimely(setup.startedAt, n, ToAp(request), ToStation(reply));
  }

  /** So does the answer to an earlier probe's request that is echoed only now. */
  lemma EarlierRequestIsCredited(setup: Setup, leftover: seq<Datagram>, d: Datagram) returns (steps: seq<Step>)
    requires d in leftover && IsRequest(setup, d)
    ensures Timely(setup.startedAt, steps)
    ensures Packet(Reply(d), false) in Run(setup, leftover, steps).credited
  {
    var n: nat := d.payload[0] as int + 1;
    SendTurnsSend(setup, leftover, n);
    LeftoverIsInFlight(setup, leftover, Run(setup, leftover, SendTurns(setup.startedAt, n)), n, d);
    steps := RequestIsCredited(setup, leftover, Packet(d, false), n);
  }

  /** All runs are safe if no reply to an earlier probe is in flight at the start, and only
      then, even of the runs whose clock does not go back and that end before the timeout. */
  lemma SafeIffNoEarlierReply(setup: Setup, leftover: seq<Datagram>)
    requires setup.station != setup.ap
    ensures (forall steps: seq<Step> | Timely(setup.startedAt, steps) :: Safe(setup, Run(setup, leftover, steps)))
            <==> AllHarmless(EchoedHere, setup, leftover)
    ensures AllHarmless(EchoedHere, setup, leftover) ==>
              forall steps: seq<Step> :: Safe(setup, Run(setup, leftover, steps))
  {
    if AllHarmless(EchoedHere, setup, leftover) {
      forall steps: seq<Step>
        ensures Safe(setup, Run(setup, leftover, steps))
      {
        EchoIsSafe(setup, leftover, steps);
      }
    } else {
      var d :| d in leftover && IsReply(setup, d);
      var steps := EarlierReplyIsCredited(setup, leftover, d);
      var w := Run(setup, leftover, steps);
      RunIsSound(setup, leftover, steps);
      var i :| 0 <= i < |w.credited| && w.credited[i] == Packet(d, false);
      assert w.probe.counted[i] in w.probe.counted;
      assert !Safe(setup, w);
    }
  }

  /** Every packet that made the station count a reply stems from a request of this run. */
  ghost predicate AnswersThisRun(w: World) {
    forall p | p in w.credited :: p.ours
  }

  /** Counted replies answer the probe that counts them, in all runs, if neither a request nor
      a reply of an earlier probe is in flight when it starts, and only then, even of the
      runs whose clock does not go back and that end before the timeout: the payload does not
      tell the probes apart. */
  lemma AnswersThisRunIffNothingEarlier(setup: Setup, leftover: seq<Datagram>)
    requires setup.station != setup.ap
    ensures (forall steps: seq<Step> | Timely(setup.startedAt, steps) :: AnswersThisRun(Run(setup, leftover, steps)))
            <==> AllHarmless(FromThisRun, setup, leftover)
    ensures AllHarmless(FromThisRun, setup, leftover) ==>
              forall steps: seq<Step> :: AnswersThisRun(Run(setup, leftover, steps))
  {
    if AllHarmless(FromThisRun, setup, leftover) {
      forall steps: seq<Step>
        ensures AnswersThisRun(Run(setup, leftover, steps))
      {
        RunIsSound(setup, leftover, steps);
        RunKeeps(FromThisRun, setup, leftover, steps);
      }
    } else {
      var d :| d in leftover && (IsRequest(setup, d) || IsReply(setup, d));
      var steps;
      if IsReply(setup, d) {
        steps := EarlierReplyIsCredited(setup, leftover, d);
      } else {
        steps := EarlierRequestIsCredited(setup, leftover, d);
      }
      assert !AnswersThisRun(Run(setup, leftover, steps));
    }
  }

  /** From an empty network every sequence of a probe can be sent, echoed and counted in time,
      in a run that counts nothing but answers of its own. */
  lemma EverySequenceCanBeCounted(setup: Setup, k: u8) returns (steps: seq<Step>)
    requires setup.station != setup.ap && k < ATTEMPTS
    ensures Timely(setup.startedAt, steps)
    ensures var w := Run(setup, [], steps);
            k in w.probe.counted && w.probe.replies > 0 && AnswersThisRun(w) && Safe(setup, w)
  {
    var n: nat := k as int + 1;
    var request := Packet(Probed(setup, k), true);
    SendTurnsSend(setup, [], n);
    assert request in ProbesInFlight(setup, n);
    steps := RequestIsCredited(setup, [], request, n);
    var w := Run(setup, [], steps);
    RunIsSound(setup, [], steps);
    var i :| 0 <= i < |w.credited| && w.credited[i] == Packet(Reply(request.datagram), true);
    assert w.probe.counted[i] == k;
    AnswersThisRunIffNothingEarlier(setup, []);
    SafeIffNoEarlierReply(setup, []);
  }
}
