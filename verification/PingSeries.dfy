/** The two ping series of wifi_init_smoke: over smoltcp's ICMP socket, and on raw frames. */
module PingSeries {
  import opened Machine
  import opened Rfc1071
  import opened PingFrame
  import opened PingStats

  const TIMEOUT_MS: u64 := 1_000

  /** The time since the start, at most what a u32 holds. */
  function RoundTrip(startedAt: u64, at: u64): u32 {
    Min(WrappingSub(at, startedAt), U32_MAX)
  }

  /** By a clock that does not wrap the round-trip time is the time that went by. */
  lemma RoundTripIsElapsed(startedAt: u64, at: u64)
    requires startedAt <= at
    ensures RoundTrip(startedAt, at) == Min(at - startedAt, 0xFFFF_FFFF)
  {
  }

  // ---- Over the ICMP socket -------------------------------------------------

  /** A message from the socket, and the clock when it is looked at. */
  datatype Arrival = Arrival(from: u32, echoReply: Option<(u16, u16)>, at: u64)

  /** One turn of the receive loop. */
  datatype Poll = Poll(checkedAt: u64, waiting: seq<Arrival>)

  datatype Window = Window(sendOk: bool, startedAt: u64, polls: seq<Poll>)

  predicate Matches(target: u32, sequence: u16, arrival: Arrival) {
    arrival.from == target && arrival.echoReply == Some((IDENTIFIER, sequence))
  }

  /** Everything that is waiting in the turns before the timeout. */
  function Delivered(startedAt: u64, polls: seq<Poll>): seq<Arrival> {
    if polls == [] || WrappingSub(polls[0].checkedAt, startedAt) >= TIMEOUT_MS then []
    else polls[0].waiting + Delivered(startedAt, polls[1..])
  }

  /** All messages of some turns. */
  function AllWaiting(polls: seq<Poll>): seq<Arrival> {
    if polls == [] then [] else polls[0].waiting + AllWaiting(polls[1..])
  }

  /** A wait takes in what waits in its turns up to the first that begins a second after the
      start or later. */
  lemma {:induction false} DeliveredInTime(startedAt: u64, polls: seq<Poll>, rest: seq<Poll>)
    requires forall i | 0 <= i < |polls| :: startedAt <= polls[i].checkedAt < startedAt + 1_000
    requires rest == [] || rest[0].checkedAt >= startedAt + 1_000
    ensures Delivered(startedAt, polls + rest) == AllWaiting(polls)
    decreases polls
  {
    if polls == [] {
      assert polls + rest == rest;
    } else {
      DeliveredInTime(startedAt, polls[1..], rest);
      assert (polls + rest)[1..] == polls[1..] + rest;
    }
  }

  /** A message is a reply exactly if it comes from the target, is an echo reply, and carries
      the identifier and the sequence number of the request. */
  lemma RepliesAreExact(target: u32, sequence: u16, from: u32, identifier: u16, number: u16, at: u64)
    ensures Matches(target, sequence, Arrival(from, Some((identifier, number)), at))
            <==> from == target && identifier == 0x5753 && number == sequence
    ensures !Matches(target, sequence, Arrival(from, None, at))
  {
  }

  /** The place of the first matching message, or the number of messages. */
  function FirstMatch(target: u32, sequence: u16, arrivals: seq<Arrival>): (k: nat)
    ensures k <= |arrivals|
    ensures k < |arrivals| ==> Matches(target, sequence, arrivals[k])
    ensures forall j | 0 <= j < k :: !Matches(target, sequence, arrivals[j])
  {
    if arrivals == [] || Matches(target, sequence, arrivals[0]) then 0
    else 1 + FirstMatch(target, sequence, arrivals[1..])
  }

  lemma {:induction false} FirstMatchAcross(target: u32, sequence: u16, a: seq<Arrival>, b: seq<Arrival>)
    ensures FirstMatch(target, sequence, a + b)
            == var k := FirstMatch(target, sequence, a);
               if k < |a| then k else |a| + FirstMatch(target, sequence, b)
  {
    if a == [] {
      assert a + b == b;
    } else {
      FirstMatchAcross(target, sequence, a[1..], b);
      assert (a + b)[1..] == a[1..] + b;
    }
  }

  /** How the wait for one reply ends, turn by turn. */
  function Await(target: u32, sequence: u16, startedAt: u64, polls: seq<Poll>): (sample: Sample)
    ensures !sample.TxError?
  {
    if polls == [] || WrappingSub(polls[0].checkedAt, startedAt) >= TIMEOUT_MS then NoReply
    else
      var waiting := polls[0].waiting;
      var k := FirstMatch(target, sequence, waiting);
      if k < |waiting| then Reply(RoundTrip(startedAt, waiting[k].at))
      else Await(target, sequence, startedAt, polls[1..])
  }

  /** The wait ends with the first reply of its own window that names its target, the
      identifier and its own sequence number, and without one it times out. */
  lemma {:induction false} AwaitEndsWithFirstMatch(target: u32, sequence: u16, startedAt: u64, polls: seq<Poll>)
    ensures var arrivals := Delivered(startedAt, polls);
            var k := FirstMatch(target, sequence, arrivals);
            Await(target, sequence, startedAt, polls)
            == if k < |arrivals| then Reply(RoundTrip(startedAt, arrivals[k].at)) else NoReply
  {
    if polls != [] && WrappingSub(polls[0].checkedAt, startedAt) < TIMEOUT_MS {
      AwaitEndsWithFirstMatch(target, sequence, startedAt, polls[1..]);
      FirstMatchAcross(target, sequence, polls[0].waiting, Delivered(startedAt, polls[1..]));
    }
  }

  function Expected(target: u32, sequence: u16, window: Window): Sample {
    if window.sendOk then Await(target, sequence, window.startedAt, window.polls) else TxError
  }

  /** A request is an error exactly when the socket does not take it, and otherwise ends with
      the first reply to it that its own window delivers, or without one. */
  lemma SampleIsExact(target: u32, sequence: u16, window: Window)
    ensures var arrivals := Delivered(window.startedAt, window.polls);
            var k := FirstMatch(target, sequence, arrivals);
            Expected(target, sequence, window)
            == if !window.sendOk then TxError
               else if k < |arrivals| then Reply(RoundTrip(window.startedAt, arrivals[k].at)) else NoReply
  {
    AwaitEndsWithFirstMatch(target, sequence, window.startedAt, window.polls);
  }

  /** The inner loop over one batch of messages. */
  method ReceiveBatch(target: u32, sequence: u16, waiting: seq<Arrival>) returns (k: nat)
    ensures k == FirstMatch(target, sequence, waiting)
  {
    k := 0;
    while k < |waiting|
      invariant k <= |waiting|
      invariant FirstMatch(target, sequence, waiting) == k + FirstMatch(target, sequence, waiting[k..])
    {
      assert waiting[k..][1..] == waiting[k + 1..];
      var arrival := waiting[k];
      if arrival.echoReply.Some? {
        var (ident, seqNo) := arrival.echoReply.value;
        if arrival.from == target && ident == IDENTIFIER && seqNo == sequence {
          return;
        }
      }
      k := k + 1;
    }
  }

  /** The wait for one reply. */
  method AwaitReply(target: u32, sequence: u16, window: Window) returns (sample: Sample)
    requires window.sendOk
    ensures sample == Expected(target, sequence, window)
  {
    var polls := window.polls;
    while polls != [] && WrappingSub(polls[0].checkedAt, window.startedAt) < TIMEOUT_MS
      invariant Await(target, sequence, window.startedAt, polls) == Expected(target, sequence, window)
      decreases polls
    {
      var waiting := polls[0].waiting;
      var k := ReceiveBatch(target, sequence, waiting);
      if k < |waiting| {
        return Reply(RoundTrip(window.startedAt, waiting[k].at));
      }
      polls := polls[1..];
    }
    sample := NoReply;
  }

  /** One turn of the series. */
  method OneSample(target: u32, sequence: u16, window: Window, counters: Counters) returns (sample: Sample)
    modifies counters
    ensures sample == Expected(target, sequence, window)
    ensures counters.State() == AfterSample(old(counters.State()), sample)
  {
    sample := TxError;
    if !window.sendOk {
      counters.CountError();
    } else {
      counters.CountSent();
      sample := AwaitReply(target, sequence, window);
      if sample.Reply? {
        counters.CountReply(sample.rtt);
      }
    }
  }

  /** `ping_series` for any count, where `windows(i)` is what request `i + 1` meets. */
  method Series(target: u32, count: u16, windows: nat -> Window) returns (stats: Stats, samples: seq<Sample>)
    ensures |samples| == count
    ensures forall i | 0 <= i < count :: samples[i] == Expected(target, i + 1, windows(i))
    ensures stats == AfterSamples(samples)
  {
    var counters := new Counters();
    samples := [];
    while |samples| < count
      invariant |samples| <= count
      invariant forall i | 0 <= i < |samples| :: samples[i] == Expected(target, i + 1, windows(i))
      invariant counters.State() == AfterSamples(samples)
    {
      var i := |samples|;
      var sample := OneSample(target, i + 1, windows(i), counters);
      assert (samples + [sample])[..i] == samples;
      samples := samples + [sample];
    }
    stats := counters.State();
  }

  // ---- On raw frames --------------------------------------------------------

  const SAMPLE_COUNT: nat := 5
  const TIMEOUT_STEPS: nat := 100

  /** One step of the wait: the frame that was received, if any, and the clock after it. */
  datatype Step = Step(frame: Option<seq<u8>>, now: u64)

  /** What one request meets; after the listed steps nothing more is received. */
  datatype RawWindow = RawWindow(transmitOk: bool, startedAt: u64, steps: seq<Step>)

  /** What one request put out: its frame, the ARP replies sent while waiting, its end. */
  datatype RawSample = RawSample(request: seq<u8>, arpReplies: seq<seq<u8>>, sample: Sample)

  predicate IsArpRequest(peer: Peer, frame: seq<u8>) {
    && |frame| >= 42 && frame[12..14] == [0x08, 0x06] && frame[20..22] == [0x00, 0x01]
    && frame[38..42] == peer.address
  }

  predicate IsEchoReply(peer: Peer, sequence: u16, frame: seq<u8>) {
    && |frame| >= 42 && frame[12..14] == [0x08, 0x00] && frame[23] == 1
    && frame[26..30] == peer.target && frame[30..34] == peer.address && frame[34] == 0
    && frame[38..40] == BigEndian(IDENTIFIER) && frame[40..42] == BigEndian(sequence)
  }

  /** An ARP reply to the sender of a request. */
  function ArpReply(peer: Peer, frame: seq<u8>): seq<u8>
    requires |frame| >= 42
  {
    frame[22..28] + peer.mac + [0x08, 0x06] + [0x00, 0x01, 0x08, 0x00, 0x06, 0x04, 0x00, 0x02]
    + peer.mac + peer.address + frame[22..28] + frame[28..32]
  }

  /** The bytes of an echo reply, at the offsets of Ethernet, IPv4 and ICMP (RFC 792): type 0
      from the target to the own address, with the identifier and the sequence number. */
  lemma EchoReplyFields(peer: Peer, sequence: u16, f: seq<u8>)
    requires peer.Sized() && |f| >= 42
    ensures IsEchoReply(peer, sequence, f) <==>
              && f[12] == 0x08 && f[13] == 0x00 && f[23] == 1
              && (forall i | 0 <= i < 4 :: f[26 + i] == peer.target[i])
              && (forall i | 0 <= i < 4 :: f[30 + i] == peer.address[i])
              && f[34] == 0 && f[38] == 0x57 && f[39] == 0x53
              && 256 * f[40] as int + f[41] as int == sequence
  {
    BigEndianFields(f[40], f[41], sequence);
    BigEndianFields(f[38], f[39], IDENTIFIER);
    PairIs(f, 12, 0x08, 0x00);
    PairIs(f, 38, 0x57, 0x53);
    PairIs(f, 40, BigEndian(sequence)[0], BigEndian(sequence)[1]);
    FourAre(f, 26, peer.target);
    FourAre(f, 30, peer.address);
  }

  lemma BigEndianFields(high: u8, low: u8, value: u16)
    ensures [high, low] == BigEndian(value) <==> 256 * high as int + low as int == value
  {
    if 256 * high as int + low as int == value {
      assert value as int / 256 == high && value as int % 256 == low;
    }
    if [high, low] == BigEndian(value) {
      assert [high, low][0] == high && [high, low][1] == low;
      assert BigEndian(value)[0] == high && BigEndian(value)[1] == low;
    }
  }

  lemma PairIs(f: seq<u8>, at: nat, a: u8, b: u8)
    requires at + 2 <= |f|
    ensures f[at..at + 2] == [a, b] <==> f[at] == a && f[at + 1] == b
  {
    if f[at..at + 2] == [a, b] {
      assert f[at..at + 2][0] == a && f[at..at + 2][1] == b;
    }
  }

  lemma FourAre(f: seq<u8>, at: nat, four: seq<u8>)
    requires at + 4 <= |f| && |four| == 4
    ensures f[at..at + 4] == four <==> forall i | 0 <= i < 4 :: f[at + i] == four[i]
  {
    if f[at..at + 4] == four {
      forall i | 0 <= i < 4 ensures f[at + i] == four[i] {
        assert f[at..at + 4][i] == f[at + i];
      }
    }
  }

  /** What the target makes of a request (RFC 792): both address pairs exchanged and the type
      changed to 0; the rest of the header and the message's own checksum may change too. */
  function EchoReplyTo(request: seq<u8>, header: seq<u8>, checksum: u16): seq<u8>
    requires |request| == FRAME_LEN && |header| == 12
  {
    Flatten([request[6..12] + request[..6] + request[12..14], header[..9] + [request[23]] + header[10..],
             request[30..34] + request[26..30], [0, request[35]] + BigEndian(checksum), request[38..]])
  }

  lemma EchoReplyIs(request: seq<u8>, header: seq<u8>, checksum: u16)
    requires |request| == FRAME_LEN && |header| == 12
    ensures |EchoReplyTo(request, header, checksum)| == FRAME_LEN
    ensures var reply := EchoReplyTo(request, header, checksum);
            && reply[12] == request[12] && reply[13] == request[13] && reply[23] == request[23]
            && reply[26..30] == request[30..34] && reply[30..34] == request[26..30]
            && reply[34] == 0 && (forall k | 38 <= k < FRAME_LEN :: reply[k] == request[k])
  {
    var a, b := request[6..12] + request[..6] + request[12..14], header[..9] + [request[23]] + header[10..];
    var c, d, e := request[30..34] + request[26..30], [0, request[35]] + BigEndian(checksum), request[38..];
    Flatten5(a, b, c, d, e);
    var reply := a + b + c + d + e;
    assert |a| == 14 && |b| == 12 && |c| == 8 && |d| == 4 && |e| == 36;
    assert reply[26..34] == c;
    SliceOfSlice(reply, 26, 34, 0, 4);
    SliceOfSlice(reply, 26, 34, 4, 8);
  }

  /** The genuine reply to a request counts for that request and for no other; the request
      itself, coming back, counts for none. */
  lemma GenuineReplyCounts(peer: Peer, k: u16, j: u16, header: seq<u8>, checksum: u16)
    requires peer.Sized() && |header| == 12
    ensures |EchoRequest(peer, k)| == FRAME_LEN
    ensures IsEchoReply(peer, j, EchoReplyTo(EchoRequest(peer, k), header, checksum)) <==> j == k
    ensures !IsEchoReply(peer, j, EchoRequest(peer, k))
  {
    var request := EchoRequest(peer, k);
    RequestFields(peer, k, 0);
    EchoReplyIs(request, header, checksum);
    var reply := EchoReplyTo(request, header, checksum);
    FourAre(reply, 26, peer.target);
    FourAre(reply, 30, peer.address);
    EchoReplyFields(peer, j, reply);
  }

  /** An ARP packet for IPv4 over Ethernet (RFC 826), in its frame. */
  function ArpFrame(destination: seq<u8>, source: seq<u8>, operation: u16, senderMac: seq<u8>,
                    senderIp: seq<u8>, targetMac: seq<u8>, targetIp: seq<u8>): seq<u8> {
    Flatten([destination + source + [0x08, 0x06], [0, 1, 8, 0, 6, 4] + BigEndian(operation),
             senderMac + senderIp, targetMac + targetIp, []])
  }

  lemma ArpFrameIs(destination: seq<u8>, source: seq<u8>, operation: u16, senderMac: seq<u8>,
                   senderIp: seq<u8>, targetMac: seq<u8>, targetIp: seq<u8>)
    requires |destination| == |source| == |senderMac| == |targetMac| == 6 && |senderIp| == |targetIp| == 4
    ensures var f := ArpFrame(destination, source, operation, senderMac, senderIp, targetMac, targetIp);
            && |f| == 42 && f[..6] == destination && f[6..12] == source
            && f[12..14] == [0x08, 0x06] && f[14..20] == [0, 1, 8, 0, 6, 4] && f[20..22] == BigEndian(operation)
            && f[22..28] == senderMac && f[28..32] == senderIp && f[32..38] == targetMac && f[38..42] == targetIp
  {
    var a, b := destination + source + [0x08, 0x06], [0, 1, 8, 0, 6, 4] + BigEndian(operation);
    var c, d := senderMac + senderIp, targetMac + targetIp;
    Flatten5(a, b, c, d, []);
    var f := a + b + c + d + [];
    assert f[..14] == a && f[14..22] == b && f[22..32] == c && f[32..42] == d;
    SliceOfSlice(f, 0, 14, 0, 6);
    SliceOfSlice(f, 0, 14, 6, 12);
    SliceOfSlice(f, 0, 14, 12, 14);
    SliceOfSlice(f, 14, 22, 0, 6);
    SliceOfSlice(f, 14, 22, 6, 8);
    SliceOfSlice(f, 22, 32, 0, 6);
    SliceOfSlice(f, 22, 32, 6, 10);
    SliceOfSlice(f, 32, 42, 0, 6);
    SliceOfSlice(f, 32, 42, 6, 10);
  }

  /** The frame that answers is an ARP reply (operation 2) to the sender of the request. */
  lemma ArpReplyIs(peer: Peer, request: seq<u8>)
    requires peer.Sized() && |request| >= 42
    ensures ArpReply(peer, request) == ArpFrame(request[22..28], peer.mac, 2, peer.mac, peer.address,
                                                request[22..28], request[28..32])
  {
    var sender, address := request[22..28], request[28..32];
    ArpFrameIs(sender, peer.mac, 2, peer.mac, peer.address, sender, address);
    var f := ArpFrame(sender, peer.mac, 2, peer.mac, peer.address, sender, address);
    assert f == f[..6] + f[6..12] + f[12..14] + f[14..20] + f[20..22] + f[22..28] + f[28..32] + f[32..38] + f[38..42];
    assert [0x00, 0x01, 0x08, 0x00, 0x06, 0x04] + [0x00, 0x02] == [0x00, 0x01, 0x08, 0x00, 0x06, 0x04, 0x00, 0x02];
  }

  /** An ARP packet is answered exactly when it is a request (operation 1) for the own address,
      and then with a reply that tells its sender the own MAC. */
  lemma ArpIsAnswered(peer: Peer, destination: seq<u8>, source: seq<u8>, operation: u16, senderMac: seq<u8>,
                      senderIp: seq<u8>, targetMac: seq<u8>, targetIp: seq<u8>)
    requires peer.Sized()
    requires |destination| == |source| == |senderMac| == |targetMac| == 6 && |senderIp| == |targetIp| == 4
    ensures var request := ArpFrame(destination, source, operation, senderMac, senderIp, targetMac, targetIp);
            && |request| == 42
            && (IsArpRequest(peer, request) <==> operation == 1 && targetIp == peer.address)
            && ArpReply(peer, request)
               == ArpFrame(senderMac, peer.mac, 2, peer.mac, peer.address, senderMac, senderIp)
  {
    ArpFrameIs(destination, source, operation, senderMac, senderIp, targetMac, targetIp);
    var request := ArpFrame(destination, source, operation, senderMac, senderIp, targetMac, targetIp);
    ArpReplyIs(peer, request);
    BigEndianFields(0, 1, operation);
  }

  predicate Replies(peer: Peer, sequence: u16, step: Step) {
    step.frame.Some? && IsEchoReply(peer, sequence, step.frame.value)
  }

  /** What waiting puts out and how it ends: each step answers an ARP request, ends with
      the echo reply, or does nothing. */
  function Wait(peer: Peer, sequence: u16, startedAt: u64, steps: seq<Step>, limit: nat)
    : (result: (seq<seq<u8>>, Sample))
    ensures !result.1.TxError?
  {
    if steps == [] || limit == 0 then ([], NoReply)
    else if Replies(peer, sequence, steps[0]) then ([], Reply(RoundTrip(startedAt, steps[0].now)))
    else
      var (later, sample) := Wait(peer, sequence, startedAt, steps[1..], limit - 1);
      var frame := steps[0].frame;
      (if frame.Some? && IsArpRequest(peer, frame.value) then [ArpReply(peer, frame.value)] + later else later,
       sample)
  }

  /** The wait ends with the first echo reply among the first steps, if there is one. */
  lemma {:induction false} WaitEndsWithFirstReply(
    peer: Peer, sequence: u16, startedAt: u64, steps: seq<Step>, limit: nat, k: nat)
    requires k <= |steps| && k <= limit
    requires forall j | 0 <= j < k :: !Replies(peer, sequence, steps[j])
    ensures k < |steps| && k < limit && Replies(peer, sequence, steps[k]) ==>
              Wait(peer, sequence, startedAt, steps, limit).1 == Reply(RoundTrip(startedAt, steps[k].now))
    ensures k == |steps| || k == limit ==> Wait(peer, sequence, startedAt, steps, limit).1 == NoReply
  {
    if k == 0 {
    } else {
      WaitEndsWithFirstReply(peer, sequence, startedAt, steps[1..], limit - 1, k - 1);
    }
  }

  /** The answers to the ARP requests for the own address among some frames. */
  function ArpAnswers(peer: Peer, steps: seq<Step>): seq<seq<u8>> {
    if steps == [] then []
    else
      var frame := steps[0].frame;
      (if frame.Some? && IsArpRequest(peer, frame.value) then [ArpReply(peer, frame.value)] else [])
      + ArpAnswers(peer, steps[1..])
  }

  /** While waiting, exactly the ARP requests before the end of the wait are answered. */
  lemma {:induction false} WaitAnswersArp(
    peer: Peer, sequence: u16, startedAt: u64, steps: seq<Step>, limit: nat, k: nat)
    requires k <= |steps| && k <= limit
    requires forall j | 0 <= j < k :: !Replies(peer, sequence, steps[j])
    requires k == |steps| || k == limit || Replies(peer, sequence, steps[k])
    ensures Wait(peer, sequence, startedAt, steps, limit).0 == ArpAnswers(peer, steps[..k])
  {
    if k > 0 {
      WaitAnswersArp(peer, sequence, startedAt, steps[1..], limit - 1, k - 1);
      assert steps[..k][1..] == steps[1..][..k - 1];
    }
  }

  function ExpectedRaw(peer: Peer, sequence: u16, window: RawWindow): RawSample
    requires peer.Sized()
  {
    var request := EchoRequest(peer, sequence);
    if !window.transmitOk then RawSample(request, [], TxError)
    else
      var (arpReplies, sample) := Wait(peer, sequence, window.startedAt, window.steps, TIMEOUT_STEPS);
      RawSample(request, arpReplies, sample)
  }

  /** The frame of a sample is the request of its sequence number, whether it is taken or not,
      and exactly when it is not there is no wait. */
  lemma RawSampleIsExact(peer: Peer, sequence: u16, window: RawWindow, k: nat)
    requires peer.Sized() && k <= |window.steps| && k <= 100
    requires forall j | 0 <= j < k :: !Replies(peer, sequence, window.steps[j])
    requires k == |window.steps| || k == 100 || Replies(peer, sequence, window.steps[k])
    ensures var sample := ExpectedRaw(peer, sequence, window);
            && sample.request == EchoRequest(peer, sequence)
            && sample.arpReplies == (if window.transmitOk then ArpAnswers(peer, window.steps[..k]) else [])
            && sample.sample == (if !window.transmitOk then TxError
                                 else if k < |window.steps| && k < 100
                                 then Reply(RoundTrip(window.startedAt, window.steps[k].now)) else NoReply)
  {
    WaitEndsWithFirstReply(peer, sequence, window.startedAt, window.steps, TIMEOUT_STEPS, k);
    WaitAnswersArp(peer, sequence, window.startedAt, window.steps, TIMEOUT_STEPS, k);
  }

  /** The wait of `run_ping_series`. */
  method AwaitFrame(peer: Peer, sequence: u16, window: RawWindow) returns (arpReplies: seq<seq<u8>>, sample: Sample)
    ensures (arpReplies, sample) == Wait(peer, sequence, window.startedAt, window.steps, TIMEOUT_STEPS)
  {
    ghost var all := Wait(peer, sequence, window.startedAt, window.steps, TIMEOUT_STEPS);
    arpReplies := [];
    var steps, left: nat := window.steps, TIMEOUT_STEPS;
    while left > 0 && steps != []
      invariant arpReplies + Wait(peer, sequence, window.startedAt, steps, left).0 == all.0
      invariant Wait(peer, sequence, window.startedAt, steps, left).1 == all.1
      decreases steps
    {
      var step := steps[0];
      steps, left := steps[1..], left - 1;
      if step.frame.Some? {
        var frame := step.frame.value;
        if IsArpRequest(peer, frame) {
          arpReplies := arpReplies + [ArpReply(peer, frame)];
          continue;
        }
        if IsEchoReply(peer, sequence, frame) {
          assert arpReplies + [] == arpReplies;
          return arpReplies, Reply(RoundTrip(window.startedAt, step.now));
        }
      }
    }
    assert arpReplies + [] == arpReplies;
    sample := NoReply;
  }

  /** What the frame buffer holds after some requests. */
  function Buffer(peer: Peer, requests: nat): seq<u8>
    requires peer.Sized() && requests <= SAMPLE_COUNT
  {
    if requests == 0 then Frame(peer, 0, 0, 0, 0) else EchoRequest(peer, requests)
  }

  method RefreshBuffer(peer: Peer, requests: nat, request: array<u8>)
    requires peer.Sized() && requests < SAMPLE_COUNT && request[..] == Buffer(peer, requests)
    modifies request
    ensures request[..] == EchoRequest(peer, requests + 1)
  {
    if requests == 0 {
      RefreshFrame(request, 1, peer, 0, 0, 0, 0);
    } else {
      ghost var ip, icmp := Checksum(IpHeader(peer, requests, 0)), Checksum(IcmpEcho(requests, 0));
      RefreshFrame(request, requests + 1, peer, requests, ip, requests, icmp);
    }
  }

  /** One turn of the series. */
  method OneRequest(peer: Peer, requests: nat, window: RawWindow, request: array<u8>, counters: Counters)
    returns (result: RawSample)
    requires peer.Sized() && requests < SAMPLE_COUNT && request[..] == Buffer(peer, requests)
    modifies request, counters
    ensures request[..] == Buffer(peer, requests + 1)
    ensures result == ExpectedRaw(peer, requests + 1, window)
    ensures counters.State() == AfterSample(old(counters.State()), result.sample)
  {
    RefreshBuffer(peer, requests, request);
    var arpReplies, sample := [], TxError;
    if !window.transmitOk {
      counters.CountError();
    } else {
      counters.CountSent();
      arpReplies, sample := AwaitFrame(peer, requests + 1, window);
      if sample.Reply? {
        counters.CountReply(sample.rtt);
      }
    }
    result := RawSample(request[..], arpReplies, sample);
  }

  function Samples(trace: seq<RawSample>): (samples: seq<Sample>)
    ensures |samples| == |trace|
  {
    if trace == [] then [] else Samples(trace[..|trace| - 1]) + [trace[|trace| - 1].sample]
  }

  lemma CountOneMore(trace: seq<RawSample>, result: RawSample)
    ensures AfterSamples(Samples(trace + [result])) == AfterSample(AfterSamples(Samples(trace)), result.sample)
  {
    assert (trace + [result])[..|trace|] == trace;
    assert (Samples(trace) + [result.sample])[..|trace|] == Samples(trace);
  }

  /** Request `i + 1` did what its own window asks for. */
  ghost predicate TraceIsExact(peer: Peer, windows: nat -> RawWindow, trace: seq<RawSample>)
    requires peer.Sized() && |trace| <= SAMPLE_COUNT
  {
    trace == [] ||
    var n := |trace| - 1;
    TraceIsExact(peer, windows, trace[..n]) && trace[n] == ExpectedRaw(peer, n + 1, windows(n))
  }

  lemma {:induction false} TraceAt(peer: Peer, windows: nat -> RawWindow, trace: seq<RawSample>, i: nat)
    requires peer.Sized() && i < |trace| <= SAMPLE_COUNT
    requires TraceIsExact(peer, windows, trace)
    ensures trace[i] == ExpectedRaw(peer, i + 1, windows(i))
  {
    if i < |trace| - 1 {
      TraceAt(peer, windows, trace[..|trace| - 1], i);
    }
  }

  lemma TraceOneMore(
    peer: Peer, windows: nat -> RawWindow, trace: seq<RawSample>, result: RawSample)
    requires peer.Sized() && |trace| < SAMPLE_COUNT
    requires TraceIsExact(peer, windows, trace)
    requires result == ExpectedRaw(peer, |trace| + 1, windows(|trace|))
    ensures TraceIsExact(peer, windows, trace + [result])
  {
    assert (trace + [result])[..|trace|] == trace;
  }

  /** One more request at the end of a trace. */
  method NextRequest(peer: Peer, windows: nat -> RawWindow, request: array<u8>, counters: Counters,
                     trace: seq<RawSample>)
    returns (longer: seq<RawSample>)
    requires peer.Sized() && |trace| < SAMPLE_COUNT && request[..] == Buffer(peer, |trace|)
    requires TraceIsExact(peer, windows, trace) && counters.State() == AfterSamples(Samples(trace))
    modifies request, counters
    ensures |longer| == |trace| + 1 && request[..] == Buffer(peer, |longer|)
    ensures TraceIsExact(peer, windows, longer) && counters.State() == AfterSamples(Samples(longer))
  {
    var result := OneRequest(peer, |trace|, windows(|trace|), request, counters);
    CountOneMore(trace, result);
    TraceOneMore(peer, windows, trace, result);
    longer := trace + [result];
  }

  /** `run_ping_series`: five requests from one buffer that is refreshed in place. */
  method RawSeries(peer: Peer, windows: nat -> RawWindow) returns (stats: Stats, trace: seq<RawSample>)
    requires peer.Sized()
    ensures |trace| == SAMPLE_COUNT == 5
    ensures TraceIsExact(peer, windows, trace)
    ensures stats == AfterSamples(Samples(trace))
  {
    var counters := new Counters();
    var request := BuildFrame(peer);
    trace := [];
    while |trace| < SAMPLE_COUNT
      invariant |trace| <= SAMPLE_COUNT
      invariant TraceIsExact(peer, windows, trace)
      invariant counters.State() == AfterSamples(Samples(trace))
      invariant request[..] == Buffer(peer, |trace|)
    {
      trace := NextRequest(peer, windows, request, counters, trace);
    }
    stats := counters.State();
  }

  /** Every request of the series goes out with a verifying IPv4 header and a verifying
      ICMP message. */
  lemma EveryRequestVerifies(
    peer: Peer, windows: nat -> RawWindow, trace: seq<RawSample>, i: nat)
    requires peer.Sized() && i < |trace| <= SAMPLE_COUNT
    requires TraceIsExact(peer, windows, trace)
    ensures |trace[i].request| == FRAME_LEN
    ensures Verifies(trace[i].request[14..34]) && Verifies(trace[i].request[34..])
  {
    TraceAt(peer, windows, trace, i);
    RequestVerifies(peer, i + 1);
  }

  /** A reply counts for one sequence number only, so an earlier request's late reply is
      never counted for the current one. */
  lemma ReplyNamesItsRequest(peer: Peer, a: u16, b: u16, frame: seq<u8>)
    requires IsEchoReply(peer, a, frame) && IsEchoReply(peer, b, frame)
    ensures a == b
  {
    assert a as int / 256 == BigEndian(a)[0] && a as int % 256 == BigEndian(a)[1];
    assert b as int / 256 == BigEndian(b)[0] && b as int % 256 == BigEndian(b)[1];
  }
}
