/** The ping statistics of both runners, and the series of wifi_init_smoke's smoltcp runner. */
module PingStats {
  import opened Machine
  import opened Modulo

  datatype Stats = Stats(tx: u32, rx: u32, txErrors: u32, rttTotal: u64, rttMin: u32, rttMax: u32)

  const NO_STATS: Stats := Stats(0, 0, 0, 0, 0, 0)

  /** How one request ended. */
  datatype Sample = TxError | NoReply | Reply(rtt: u32)

  /** The counters, updated in place. */
  class Counters {
    var tx: u32
    var rx: u32
    var txErrors: u32
    var rttTotal: u64
    var rttMin: u32
    var rttMax: u32

    function State(): Stats
      reads this
    {
      Stats(tx, rx, txErrors, rttTotal, rttMin, rttMax)
    }

    constructor ()
      ensures State() == NO_STATS
    {
      tx, rx, txErrors, rttTotal, rttMin, rttMax := 0, 0, 0, 0, 0, 0;
    }

    method CountError()
      modifies this
      ensures State() == AfterSample(old(State()), TxError)
    {
      txErrors := SatAdd(txErrors, 1, U32_MAX);
    }

    method CountSent()
      modifies this
      ensures State() == AfterSample(old(State()), NoReply)
    {
      tx := SatAdd(tx, 1, U32_MAX);
    }

    /** A counted reply: if the counters showed the number, sum and extremes of some
        round-trip times, they now show those of one more. Nothing else changes. */
    method CountReply(rtt: u32)
      modifies `rx, `rttTotal, `rttMin, `rttMax
      ensures State() == WithReply(old(State()), rtt)
      ensures forall rtts: seq<u32> | old(ShowsRtts(State(), rtts)) && |rtts| < U32_MAX ::
                ShowsRtts(State(), rtts + [rtt])
    {
      forall rtts: seq<u32> | ShowsRtts(State(), rtts) && |rtts| < U32_MAX
        ensures ShowsRtts(WithReply(State(), rtt), rtts + [rtt])
      {
        ReplyShowsRtts(State(), rtts, rtt);
      }
      rx := SatAdd(rx, 1, U32_MAX);
      rttTotal := SatAdd(rttTotal, rtt, U64_MAX);
      rttMin := if rx == 1 then rtt else Min(rttMin, rtt);
      rttMax := Max(rttMax, rtt);
    }
  }

  function WithReply(stats: Stats, rtt: u32): Stats {
    var rx: u32 := SatAdd(stats.rx, 1, U32_MAX);
    stats.(rx := rx, rttTotal := SatAdd(stats.rttTotal, rtt, U64_MAX),
           rttMin := if rx == 1 then rtt else Min(stats.rttMin, rtt), rttMax := Max(stats.rttMax, rtt))
  }

  function AfterSample(stats: Stats, sample: Sample): Stats {
    match sample
    case TxError => stats.(txErrors := SatAdd(stats.txErrors, 1, U32_MAX))
    case NoReply => stats.(tx := SatAdd(stats.tx, 1, U32_MAX))
    case Reply(rtt) => WithReply(stats.(tx := SatAdd(stats.tx, 1, U32_MAX)), rtt)
  }

  function AfterSamples(samples: seq<Sample>): Stats
    decreases samples
  {
    if samples == [] then NO_STATS
    else AfterSample(AfterSamples(samples[..|samples| - 1]), samples[|samples| - 1])
  }

  // ---- What the statistics mean ---------------------------------------------

  /** The round-trip times of the answered requests. */
  function Rtts(samples: seq<Sample>): (rtts: seq<u32>)
    decreases samples
  {
    if samples == [] then []
    else
      var last := samples[|samples| - 1];
      Rtts(samples[..|samples| - 1]) + if last.Reply? then [last.rtt] else []
  }

  function Errors(samples: seq<Sample>): nat
    decreases samples
  {
    if samples == [] then 0
    else Errors(samples[..|samples| - 1]) + if samples[|samples| - 1].TxError? then 1 else 0
  }

  function Total(rtts: seq<u32>): nat {
    if rtts == [] then 0 else Total(rtts[..|rtts| - 1]) + rtts[|rtts| - 1]
  }

  /** The extremes of some round-trip times, 0 for none. */
  ghost predicate AreExtremes(rtts: seq<u32>, low: u32, high: u32) {
    if rtts == [] then low == 0 && high == 0
    else low in rtts && high in rtts && forall r | r in rtts :: low <= r <= high
  }

  lemma ExtremesOneMore(rtts: seq<u32>, low: u32, high: u32, rtt: u32)
    requires AreExtremes(rtts, low, high)
    ensures AreExtremes(rtts + [rtt], if rtts == [] then rtt else Min(low, rtt), Max(high, rtt))
  {
    var more := rtts + [rtt];
    assert more[|rtts|] == rtt;
    forall r | r in rtts ensures r in more {
    }
  }

  lemma {:induction false} TotalIsBounded(rtts: seq<u32>, low: u32, high: u32)
    requires forall r | r in rtts :: low <= r <= high
    ensures low * |rtts| <= Total(rtts) <= high * |rtts|
  {
    if rtts == [] {
    } else {
      var n := |rtts| - 1;
      assert rtts[n] in rtts && forall r | r in rtts[..n] :: r in rtts;
      TotalIsBounded(rtts[..n], low, high);
      OneMoreMultiple(low, n);
      OneMoreMultiple(high, n);
    }
  }

  /** The statistics of some round-trip times. */
  ghost predicate ShowsRtts(stats: Stats, rtts: seq<u32>) {
    && stats.rx == |rtts|
    && stats.rttTotal == Total(rtts) <= U32_MAX * stats.rx as int
    && AreExtremes(rtts, stats.rttMin, stats.rttMax)
  }

  lemma ReplyShowsRtts(stats: Stats, rtts: seq<u32>, rtt: u32)
    requires ShowsRtts(stats, rtts) && |rtts| < U32_MAX
    ensures ShowsRtts(WithReply(stats, rtt), rtts + [rtt])
  {
    ExtremesOneMore(rtts, stats.rttMin, stats.rttMax, rtt);
    assert (rtts + [rtt])[..|rtts|] == rtts;
    assert U32_MAX * (stats.rx + 1) <= U32_MAX * U32_MAX <= U64_MAX;
    assert stats.rttTotal + rtt as int <= U32_MAX * (stats.rx + 1);
  }

  ghost predicate Exact(stats: Stats, samples: seq<Sample>) {
    && stats.tx as int + stats.txErrors == |samples| && stats.txErrors == Errors(samples)
    && stats.rx <= stats.tx
    && ShowsRtts(stats, Rtts(samples))
  }

  lemma SampleKeepsExact(stats: Stats, samples: seq<Sample>, sample: Sample)
    requires Exact(stats, samples) && |samples| < U16_MAX
    ensures Exact(AfterSample(stats, sample), samples + [sample])
  {
    var more := samples + [sample];
    assert more[..|samples|] == samples;
    if sample.Reply? {
      ReplyShowsRtts(AfterSample(stats, NoReply), Rtts(samples), sample.rtt);
    } else {
      assert Rtts(more) == Rtts(samples) + [] == Rtts(samples);
    }
  }

  lemma NothingIsExact()
    ensures Exact(NO_STATS, [])
  {
  }

  /** For any u16 count and any replies: every request is an error or sent, the counted
      replies are the answered ones, and total and extremes are those of their times. No
      counter ever saturates. */
  lemma {:induction false} StatsAreExact(samples: seq<Sample>)
    requires |samples| <= U16_MAX
    ensures Exact(AfterSamples(samples), samples)
    decreases samples
  {
    if samples == [] {
      NothingIsExact();
    } else {
      var init, last := samples[..|samples| - 1], samples[|samples| - 1];
      var before := AfterSamples(init);
      StatsAreExact(init);
      SampleKeepsExact(before, init, last);
      assert init + [last] == samples;
    }
  }

  /** The average round-trip time, which is reported when there are replies. */
  function Average(stats: Stats): nat
    requires stats.rx > 0
  {
    stats.rttTotal / stats.rx
  }

  lemma QuotientBetween(total: nat, n: nat, low: nat, high: nat)
    requires n > 0 && low * n <= total <= high * n
    ensures low <= total / n <= high
  {
    var q, r := total / n, total % n;
    assert total == n * q + r && 0 <= r < n;
    Scale(n, q + 1, low);
    Scale(n, high + 1, q);
    OneMoreMultiple(n, q);
    OneMoreMultiple(n, high);
  }

  lemma Scale(n: nat, a: nat, b: nat)
    ensures a <= b ==> n * a <= n * b
  {
    if a <= b {
      MultipleAtLeast(n, b, a);
    }
  }

  /** The reported average is the whole milliseconds of the mean of the answered requests'
      times, and lies between the reported extremes. */
  lemma AverageIsBetween(samples: seq<Sample>)
    requires |samples| <= U16_MAX && Rtts(samples) != []
    ensures var stats := AfterSamples(samples);
            && stats.rx > 0 && stats.rttMin <= Average(stats) <= stats.rttMax
            && Average(stats) * |Rtts(samples)| <= Total(Rtts(samples)) < (Average(stats) + 1) * |Rtts(samples)|
  {
    var stats := AfterSamples(samples);
    StatsAreExact(samples);
    TotalIsBounded(Rtts(samples), stats.rttMin, stats.rttMax);
    QuotientBetween(stats.rttTotal, stats.rx, stats.rttMin, stats.rttMax);
    QuotientIsFloor(stats.rttTotal, stats.rx);
  }

  lemma QuotientIsFloor(total: nat, n: nat)
    requires n > 0
    ensures total / n * n <= total < (total / n + 1) * n
  {
    var q, r := total / n, total % n;
    assert total == n * q + r && 0 <= r < n;
    OneMoreMultiple(n, q);
  }

  /** The percentage of drops among the requests that were sent, and 100 if there are none. */
  function LossPercent(stats: Stats): u32 {
    var drops := SatSub(stats.tx, stats.rx);
    if stats.tx == 0 then 100 else Min(drops * 100, U32_MAX) / stats.tx
  }

  /** The loss is the whole percentage of requests without a reply, from 0 to 100: 100 when
      nothing was sent or nothing was answered, and 0 when less than one in a hundred was
      lost. */
  lemma LossIsExact(samples: seq<Sample>)
    requires |samples| <= U16_MAX
    ensures var stats := AfterSamples(samples);
            var sent, lost := |samples| - Errors(samples), |samples| - Errors(samples) - |Rtts(samples)|;
            && 0 <= LossPercent(stats) <= 100
            && (sent == 0 ==> LossPercent(stats) == 100)
            && (sent > 0 ==> LossPercent(stats) * sent <= 100 * lost < (LossPercent(stats) + 1) * sent)
  {
    var stats := AfterSamples(samples);
    StatsAreExact(samples);
    if stats.tx > 0 {
      var sent: nat, lost: nat := stats.tx, stats.tx - stats.rx;
      assert LossPercent(stats) == lost * 100 / sent;
      Percent(sent, lost, LossPercent(stats));
    }
  }

  lemma Percent(sent: nat, lost: nat, q: nat)
    requires 0 < sent && lost <= sent && q == lost * 100 / sent
    ensures q <= 100
    ensures q * sent <= 100 * lost < (q + 1) * sent
  {
    var r := lost * 100 % sent;
    assert lost * 100 == sent * q + r && 0 <= r < sent;
    OneMoreMultiple(sent, q);
    Scale(sent, 101, q);
  }
}
