/** The TX timeline: a producer that writes event i to slot i mod N, a reader with a cursor
    that reports what is new, and a reader that reports one interval. */
module TxTimeline {
  import opened Machine
  import opened Modulo

  datatype Report<T> = Report(index: nat, event: T)

  // ---- The producer's ring --------------------------------------------------

  /** The slots after some events, starting from blank ones. */
  function Ring<T>(blank: T, slots: nat, events: seq<T>): (ring: seq<T>)
    requires slots > 0
    ensures |ring| == slots
  {
    if events == [] then seq(slots, _ => blank)
    else
      var n := |events| - 1;
      Ring(blank, slots, events[..n])[n % slots := events[n]]
  }

  /** Each of the newest events is still in its slot. */
  lemma {:induction false} RingHolds<T>(blank: T, slots: nat, events: seq<T>, i: nat)
    requires slots > 0
    requires i < |events| <= i + slots
    ensures Ring(blank, slots, events)[i % slots] == events[i]
  {
    var n := |events| - 1;
    if i < n {
      RingHolds(blank, slots, events[..n], i);
      ModuloDiffers(i, n, slots);
    }
  }

  /** The slot of any older event has been overwritten: it holds one that came a number of
      rounds later. */
  lemma {:induction false} RingForgets<T>(blank: T, slots: nat, events: seq<T>, i: nat) returns (j: nat)
    requires slots > 0
    requires i + slots < |events|
    ensures i < j < |events| <= j + slots && j % slots == i % slots
    ensures Ring(blank, slots, events)[i % slots] == events[j]
    decreases |events| - i
  {
    ModuloOneRoundOn(i, slots);
    if i + 2 * slots < |events| {
      j := RingForgets(blank, slots, events, i + slots);
    } else {
      j := i + slots;
      RingHolds(blank, slots, events, j);
    }
  }

  // ---- The readers ----------------------------------------------------------

  /** Where reading starts when `cutoff` is taken for the number of slots. */
  function From(cursor: nat, cutoff: nat, total: nat): nat {
    Max(cursor, SatSub(total, cutoff))
  }

  /** What a loop over the ring from one index to another puts out. */
  function Reports<T>(ring: seq<T>, from: nat, end: nat): (reports: seq<Report<T>>)
    requires ring != []
    ensures |reports| == if end > from then end - from else 0
    decreases end
  {
    if from >= end then []
    else Reports(ring, from, end - 1) + [Report(end - 1, ring[(end - 1) % |ring|])]
  }

  /** One of the two loops of `write_new_tx_timeline`. */
  method ReportNew<T>(ring: array<T>, cutoff: nat, total: u32, start: u32)
    returns (cursor: u32, reports: seq<Report<T>>)
    requires ring.Length > 0
    ensures reports == Reports(ring[..], From(start, cutoff, total), total)
    ensures cursor == Max(start, total)
  {
    cursor := Max(start, SatSub(total, cutoff));
    reports := [];
    while cursor < total
      invariant From(start, cutoff, total) <= cursor <= Max(start, total)
      invariant reports == Reports(ring[..], From(start, cutoff, total), cursor)
    {
      var index := cursor;
      var slot := index % ring.Length;
      reports := reports + [Report(index, ring[slot])];
      cursor := index + 1;
    }
  }

  /** The cursors of the access point's diagnostics. */
  class TimelineCursors<S, C> {
    var submission: u32
    var completion: u32

    constructor (submission: u32, completion: u32)
      ensures this.submission == submission && this.completion == completion
    {
      this.submission, this.completion := submission, completion;
    }

    /** `write_new_tx_timeline`: both rings are cut off at the length of the first one. */
    method WriteNew(submissions: array<S>, submissionTotal: u32, completions: array<C>, completionTotal: u32)
      returns (submitted: seq<Report<S>>, completed: seq<Report<C>>)
      requires submissions.Length > 0 && completions.Length > 0
      modifies this
      ensures submission == Max(old(submission), submissionTotal)
      ensures completion == Max(old(completion), completionTotal)
      ensures submitted == Reports(submissions[..], From(old(submission), submissions.Length, submissionTotal),
                                   submissionTotal)
      ensures completed == Reports(completions[..], From(old(completion), submissions.Length, completionTotal),
                                   completionTotal)
    {
      submission, submitted := ReportNew(submissions, submissions.Length, submissionTotal, submission);
      completion, completed := ReportNew(completions, submissions.Length, completionTotal, completion);
    }
  }

  /** `write_probe_tx_timeline`: the interval since two earlier totals. */
  method WriteInterval<S, C>(
    submissions: array<S>, submissionTotal: u32, submissionStart: u32,
    completions: array<C>, completionTotal: u32, completionStart: u32)
    returns (truncated: bool, submitted: seq<Report<S>>, completed: seq<Report<C>>)
    requires submissions.Length > 0 && completions.Length > 0
    ensures truncated <==>
              || (exists i | submissionStart <= i < submissionTotal ::
                    Overwritten(i, submissions.Length, submissionTotal))
              || (exists i | completionStart <= i < completionTotal ::
                    Overwritten(i, completions.Length, completionTotal))
    ensures submitted == Reports(submissions[..], From(submissionStart, submissions.Length, submissionTotal),
                                 submissionTotal)
    ensures completed == Reports(completions[..], From(completionStart, completions.Length, completionTotal),
                                 completionTotal)
  {
    var retainedSubmissionStart := SatSub(submissionTotal, submissions.Length);
    var retainedCompletionStart := SatSub(completionTotal, completions.Length);
    truncated := submissionStart < retainedSubmissionStart || completionStart < retainedCompletionStart;
    SomethingOverwritten(submissionStart, submissions.Length, submissionTotal);
    SomethingOverwritten(completionStart, completions.Length, completionTotal);
    var index;
    index, submitted := ReportNew(submissions, submissions.Length, submissionTotal, submissionStart);
    index, completed := ReportNew(completions, completions.Length, completionTotal, completionStart);
  }

  /** Event `i` of `total` is no longer in a ring of this size. */
  predicate Overwritten(i: nat, slots: nat, total: nat) {
    i + slots < total
  }

  lemma SomethingOverwritten(start: nat, slots: nat, total: nat)
    ensures start < SatSub(total, slots) <==> exists i | start <= i < total :: Overwritten(i, slots, total)
  {
    if start < SatSub(total, slots) {
      assert Overwritten(start, slots, total);
    }
  }

  // ---- Reports against the history ------------------------------------------

  /** Reports name consecutive events, each with its own contents. */
  ghost predicate AreEvents<T(!new)>(reports: seq<Report<T>>, from: nat, events: seq<T>) {
    && from + |reports| <= |events|
    && (forall k | 0 <= k < |reports| :: reports[k] == Report(from + k, events[from + k]))
  }

  lemma {:induction false} ReportsAreEvents<T(!new)>(blank: T, slots: nat, events: seq<T>, from: nat, end: nat)
    requires slots > 0
    requires |events| <= from + slots && from <= end <= |events|
    ensures AreEvents(Reports(Ring(blank, slots, events), from, end), from, events)
    decreases end
  {
    if from < end {
      ReportsAreEvents(blank, slots, events, from, end - 1);
      RingHolds(blank, slots, events, end - 1);
    }
  }

  datatype Step<T> = Produce(event: T) | Read

  /** The producer's history, the reader, and the totals its calls saw. */
  datatype Log<T> = Log(events: seq<T>, cursor: nat, reported: seq<Report<T>>, totals: seq<nat>)

  /** The reader takes `cutoff` for the number of slots. */
  function AfterStep<T>(blank: T, slots: nat, cutoff: nat, log: Log<T>, step: Step<T>): Log<T>
    requires slots > 0
  {
    match step
    case Produce(event) => log.(events := log.events + [event])
    case Read =>
      var total := |log.events|;
      Log(log.events, Max(log.cursor, total),
          log.reported + Reports(Ring(blank, slots, log.events), From(log.cursor, cutoff, total), total),
          log.totals + [total])
  }

  function Run<T>(blank: T, slots: nat, cutoff: nat, before: seq<T>, steps: seq<Step<T>>): Log<T>
    requires slots > 0
    decreases steps
  {
    if steps == [] then Log(before, |before|, [], [])
    else
      var n := |steps| - 1;
      AfterStep(blank, slots, cutoff, Run(blank, slots, cutoff, before, steps[..n]), steps[n])
  }

  /** The total at the first call of the reader after event `i` was produced. */
  function FirstSeen(totals: seq<nat>, i: nat): Option<nat> {
    if totals == [] then None
    else
      var n := |totals| - 1;
      var earlier := FirstSeen(totals[..n], i);
      if earlier.Some? then earlier else if totals[n] > i then Some(totals[n]) else None
  }

  ghost predicate IsReported<T(!new)>(reported: seq<Report<T>>, i: nat) {
    exists k | 0 <= k < |reported| :: reported[k].index == i
  }

  /** Events are reported at most once, in order, with their own contents. */
  ghost predicate InOrder<T(!new)>(log: Log<T>, start: nat) {
    && (forall k | 0 <= k < |log.reported| ::
          && start <= log.reported[k].index < log.cursor <= |log.events|
          && log.reported[k].event == log.events[log.reported[k].index])
    && (forall k | 0 < k < |log.reported| :: log.reported[k - 1].index < log.reported[k].index)
  }

  /** An event is reported exactly when the reader ran before it was overwritten. */
  ghost predicate LossIsExact<T(!new)>(log: Log<T>, slots: nat, start: nat) {
    && start <= log.cursor <= |log.events|
    && (forall i: nat | start <= i < log.cursor ::
          && FirstSeen(log.totals, i).Some?
          && (IsReported(log.reported, i) <==> !Overwritten(i, slots, FirstSeen(log.totals, i).value)))
    && (forall i: nat | log.cursor <= i :: FirstSeen(log.totals, i) == None && !IsReported(log.reported, i))
  }

  lemma ReportedTogether<T(!new)>(a: seq<Report<T>>, b: seq<Report<T>>, i: nat)
    ensures IsReported(a + b, i) <==> IsReported(a, i) || IsReported(b, i)
  {
    if IsReported(a, i) {
      var k :| 0 <= k < |a| && a[k].index == i;
      assert (a + b)[k].index == i;
    }
    if IsReported(b, i) {
      var k :| 0 <= k < |b| && b[k].index == i;
      assert (a + b)[|a| + k].index == i;
    }
  }

  lemma ReportedInterval<T(!new)>(reports: seq<Report<T>>, from: nat, events: seq<T>, i: nat)
    requires AreEvents(reports, from, events)
    ensures IsReported(reports, i) <==> from <= i < from + |reports|
  {
    if from <= i < from + |reports| {
      assert reports[i - from].index == i;
    }
  }

  lemma ReadKeepsOrder<T(!new)>(blank: T, slots: nat, log: Log<T>, start: nat)
    requires slots > 0 && start <= log.cursor <= |log.events| && InOrder(log, start)
    ensures InOrder(AfterStep(blank, slots, slots, log, Read), start)
  {
    var total := |log.events|;
    ReportsAreEvents(blank, slots, log.events, From(log.cursor, slots, total), total);
  }

  lemma ReadKeepsLossExact<T(!new)>(blank: T, slots: nat, log: Log<T>, start: nat)
    requires slots > 0 && LossIsExact(log, slots, start)
    ensures LossIsExact(AfterStep(blank, slots, slots, log, Read), slots, start)
  {
    var total := |log.events|;
    var from := From(log.cursor, slots, total);
    var latest := Reports(Ring(blank, slots, log.events), from, total);
    var after := AfterStep(blank, slots, slots, log, Read);
    ReportsAreEvents(blank, slots, log.events, from, total);
    assert after.totals[..|log.totals|] == log.totals;
    forall i: nat
      ensures IsReported(after.reported, i) <==> IsReported(log.reported, i) || from <= i < total
    {
      ReportedTogether(log.reported, latest, i);
      ReportedInterval(latest, from, log.events, i);
    }
  }

  /** Over any interleaving of producer steps and reader calls each event is reported at
      most once, in increasing order and with its own contents, and the events that are
      passed over are exactly those overwritten before the reader ran. */
  lemma {:induction false} TimelineIsExact<T(!new)>(blank: T, slots: nat, before: seq<T>, steps: seq<Step<T>>)
    requires slots > 0
    ensures var log := Run(blank, slots, slots, before, steps);
            LossIsExact(log, slots, |before|) && InOrder(log, |before|)
    decreases steps
  {
    if steps == [] {
    } else {
      var n := |steps| - 1;
      var log := Run(blank, slots, slots, before, steps[..n]);
      TimelineIsExact(blank, slots, before, steps[..n]);
      if steps[n].Read? {
        ReadKeepsOrder(blank, slots, log, |before|);
        ReadKeepsLossExact(blank, slots, log, |before|);
      }
    }
  }

  // ---- The cursor reader at work --------------------------------------------

  /** One thing that happens to the timeline: a submission, a completion, or a call of the
      reader, which reports both. */
  datatype Move<S, C> = Submitted(submission: S) | Completed(completion: C) | ReaderCall

  function SubmissionSteps<S, C>(moves: seq<Move<S, C>>): seq<Step<S>> {
    if moves == [] then []
    else
      SubmissionSteps(moves[..|moves| - 1])
      + match moves[|moves| - 1]
        case Submitted(event) => [Produce(event)]
        case Completed(_) => []
        case ReaderCall => [Read]
  }

  function CompletionSteps<S, C>(moves: seq<Move<S, C>>): seq<Step<C>> {
    if moves == [] then []
    else
      CompletionSteps(moves[..|moves| - 1])
      + match moves[|moves| - 1]
        case Submitted(_) => []
        case Completed(event) => [Produce(event)]
        case ReaderCall => [Read]
  }

  lemma RunOneMore<T>(blank: T, slots: nat, before: seq<T>, steps: seq<Step<T>>, step: Step<T>)
    requires slots > 0
    ensures Run(blank, slots, slots, before, steps + [step])
            == AfterStep(blank, slots, slots, Run(blank, slots, slots, before, steps), step)
  {
    assert (steps + [step])[..|steps|] == steps;
  }

  /** The producer's step: event i goes to slot i mod N. */
  method WriteEvent<T>(ring: array<T>, total: u32, event: T, ghost blank: T, ghost events: seq<T>)
    requires ring.Length > 0 && total == |events| && ring[..] == Ring(blank, ring.Length, events)
    modifies ring
    ensures ring[..] == Ring(blank, ring.Length, events + [event])
  {
    ring[total % ring.Length] := event;
    assert (events + [event])[..|events|] == events;
  }

  function SubmissionsAfter<S, C>(blank: S, slots: nat, log: Log<S>, move: Move<S, C>): Log<S>
    requires slots > 0
  {
    match move
    case Submitted(event) => AfterStep(blank, slots, slots, log, Produce(event))
    case Completed(_) => log
    case ReaderCall => AfterStep(blank, slots, slots, log, Read)
  }

  function CompletionsAfter<S, C>(blank: C, slots: nat, log: Log<C>, move: Move<S, C>): Log<C>
    requires slots > 0
  {
    match move
    case Submitted(_) => log
    case Completed(event) => AfterStep(blank, slots, slots, log, Produce(event))
    case ReaderCall => AfterStep(blank, slots, slots, log, Read)
  }

  lemma LogsOneMore<S, C>(noSubmission: S, noCompletion: C, slots: nat, moves: seq<Move<S, C>>, i: nat)
    requires slots > 0 && i < |moves|
    ensures Run(noSubmission, slots, slots, [], SubmissionSteps(moves[..i + 1]))
            == SubmissionsAfter(noSubmission, slots,
                                Run(noSubmission, slots, slots, [], SubmissionSteps(moves[..i])), moves[i])
    ensures Run(noCompletion, slots, slots, [], CompletionSteps(moves[..i + 1]))
            == CompletionsAfter(noCompletion, slots,
                                Run(noCompletion, slots, slots, [], CompletionSteps(moves[..i])), moves[i])
  {
    var earlierS, earlierC := SubmissionSteps(moves[..i]), CompletionSteps(moves[..i]);
    assert moves[..i + 1][..i] == moves[..i];
    match moves[i]
    case Submitted(event) =>
      RunOneMore(noSubmission, slots, [], earlierS, Produce(event));
      assert earlierC + [] == earlierC;
    case Completed(event) =>
      RunOneMore(noCompletion, slots, [], earlierC, Produce(event));
      assert earlierS + [] == earlierS;
    case ReaderCall =>
      RunOneMore(noSubmission, slots, [], earlierS, Read);
      RunOneMore(noCompletion, slots, [], earlierC, Read);
  }

  /** Two rings, the reader's cursors, and what it has reported. */
  class Timelines<S, C> {
    const noSubmission: S
    const noCompletion: C
    const submissions: array<S>
    const completions: array<C>
    const cursors: TimelineCursors<S, C>
    var submissionTotal: u32
    var completionTotal: u32
    var submitted: seq<Report<S>>
    var completed: seq<Report<C>>

    ghost predicate Apart()
      reads this
    {
      && submissions.Length == completions.Length > 0
      && (submissions as object) != (completions as object)
    }

    ghost predicate Submissions(log: Log<S>)
      reads this, submissions, cursors
    {
      && submissions.Length > 0 && submissions[..] == Ring(noSubmission, submissions.Length, log.events)
      && submissionTotal == |log.events| && cursors.submission == log.cursor && submitted == log.reported
    }

    ghost predicate Completions(log: Log<C>)
      reads this, completions, cursors
    {
      && completions.Length > 0 && completions[..] == Ring(noCompletion, completions.Length, log.events)
      && completionTotal == |log.events| && cursors.completion == log.cursor && completed == log.reported
    }

    constructor (noSubmission: S, noCompletion: C, slots: nat)
      requires slots > 0
      ensures fresh(submissions) && fresh(completions) && fresh(cursors) && Apart()
      ensures this.noSubmission == noSubmission && this.noCompletion == noCompletion
      ensures submissions.Length == slots
      ensures Submissions(Log([], 0, [], [])) && Completions(Log([], 0, [], []))
    {
      this.noSubmission, this.noCompletion := noSubmission, noCompletion;
      submissions := new S[slots](_ => noSubmission);
      completions := new C[slots](_ => noCompletion);
      cursors := new TimelineCursors(0, 0);
      submissionTotal, completionTotal, submitted, completed := 0, 0, [], [];
    }

    method Submit(event: S, ghost log: Log<S>, ghost other: Log<C>)
      requires Apart() && Submissions(log) && Completions(other) && submissionTotal < U32_MAX
      modifies this, submissions
      ensures Submissions(AfterStep(noSubmission, submissions.Length, submissions.Length, log, Produce(event)))
      ensures Completions(other)
    {
      WriteEvent(submissions, submissionTotal, event, noSubmission, log.events);
      submissionTotal := submissionTotal + 1;
    }

    method Complete(event: C, ghost log: Log<S>, ghost other: Log<C>)
      requires Apart() && Submissions(log) && Completions(other) && completionTotal < U32_MAX
      modifies this, completions
      ensures Completions(AfterStep(noCompletion, completions.Length, completions.Length, other, Produce(event)))
      ensures Submissions(log)
    {
      WriteEvent(completions, completionTotal, event, noCompletion, other.events);
      completionTotal := completionTotal + 1;
    }

    method CallReader(ghost log: Log<S>, ghost other: Log<C>)
      requires Apart() && Submissions(log) && Completions(other)
      modifies this, cursors
      ensures Submissions(AfterStep(noSubmission, submissions.Length, submissions.Length, log, Read))
      ensures Completions(AfterStep(noCompletion, completions.Length, completions.Length, other, Read))
    {
      var latestS, latestC := cursors.WriteNew(submissions, submissionTotal, completions, completionTotal);
      submitted, completed := submitted + latestS, completed + latestC;
    }

    method Take(move: Move<S, C>, ghost log: Log<S>, ghost other: Log<C>)
      requires Apart() && Submissions(log) && Completions(other)
      requires submissionTotal < U32_MAX && completionTotal < U32_MAX
      modifies this, submissions, completions, cursors
      ensures Submissions(SubmissionsAfter(noSubmission, submissions.Length, log, move))
      ensures Completions(CompletionsAfter(noCompletion, completions.Length, other, move))
      ensures submissionTotal <= old(submissionTotal) + 1 && completionTotal <= old(completionTotal) + 1
    {
      match move {
        case Submitted(event) => Submit(event, log, other);
        case Completed(event) => Complete(event, log, other);
        case ReaderCall => CallReader(log, other);
      }
    }
  }

  /** Any interleaving of submissions, completions and calls of `write_new_tx_timeline` on
      rings of the same length: both reports are exact for their histories. */
  method Follow<S(!new), C(!new)>(noSubmission: S, noCompletion: C, slots: nat, moves: seq<Move<S, C>>)
    returns (submitted: seq<Report<S>>, completed: seq<Report<C>>)
    requires slots > 0 && |moves| <= U32_MAX
    ensures var log := Run(noSubmission, slots, slots, [], SubmissionSteps(moves));
            submitted == log.reported && LossIsExact(log, slots, 0) && InOrder(log, 0)
    ensures var log := Run(noCompletion, slots, slots, [], CompletionSteps(moves));
            completed == log.reported && LossIsExact(log, slots, 0) && InOrder(log, 0)
  {
    var lines := new Timelines(noSubmission, noCompletion, slots);
    var i := 0;
    ghost var log, other := Run(noSubmission, slots, slots, [], []), Run(noCompletion, slots, slots, [], []);
    while i < |moves|
      invariant 0 <= i <= |moves|
      invariant fresh(lines) && fresh(lines.submissions) && fresh(lines.completions) && fresh(lines.cursors)
      invariant lines.Apart() && lines.submissions.Length == slots
      invariant lines.noSubmission == noSubmission && lines.noCompletion == noCompletion
      invariant log == Run(noSubmission, slots, slots, [], SubmissionSteps(moves[..i]))
      invariant other == Run(noCompletion, slots, slots, [], CompletionSteps(moves[..i]))
      invariant lines.Submissions(log) && lines.Completions(other)
      invariant lines.submissionTotal <= i && lines.completionTotal <= i
    {
      LogsOneMore(noSubmission, noCompletion, slots, moves, i);
      lines.Take(moves[i], log, other);
      log := Run(noSubmission, slots, slots, [], SubmissionSteps(moves[..i + 1]));
      other := Run(noCompletion, slots, slots, [], CompletionSteps(moves[..i + 1]));
      i := i + 1;
    }
    assert moves[..i] == moves;
    TimelineIsExact(noSubmission, slots, [], SubmissionSteps(moves));
    TimelineIsExact(noCompletion, slots, [], CompletionSteps(moves));
    submitted, completed := lines.submitted, lines.completed;
  }

  // ---- The one-shot reader --------------------------------------------------

  /** The interval reader against a history: it reports exactly the events from its start on
      that are still in the ring, in order and with their own contents. */
  lemma IntervalIsExact<T(!new)>(blank: T, slots: nat, events: seq<T>, start: nat, i: nat)
    requires slots > 0
    ensures var reports := Reports(Ring(blank, slots, events), From(start, slots, |events|), |events|);
            && (|reports| > 0 ==> AreEvents(reports, From(start, slots, |events|), events))
            && (IsReported(reports, i) <==> start <= i < |events| && !Overwritten(i, slots, |events|))
  {
    var from := From(start, slots, |events|);
    var reports := Reports(Ring(blank, slots, events), from, |events|);
    if from <= |events| {
      ReportsAreEvents(blank, slots, events, from, |events|);
      ReportedInterval(reports, from, events, i);
    }
  }

  /** `write_probe_tx_timeline` on rings that hold two histories: no notice means that every
      event from the two start indices on is reported. */
  method WriteIntervalOf<S(!new), C(!new)>(
    submissions: array<S>, submissionStart: u32, completions: array<C>, completionStart: u32,
    ghost noSubmission: S, ghost submitEvents: seq<S>, submissionTotal: u32,
    ghost noCompletion: C, ghost completeEvents: seq<C>, completionTotal: u32)
    returns (truncated: bool, submitted: seq<Report<S>>, completed: seq<Report<C>>)
    requires submissions.Length > 0 && completions.Length > 0
    requires submissions[..] == Ring(noSubmission, submissions.Length, submitEvents)
    requires completions[..] == Ring(noCompletion, completions.Length, completeEvents)
    requires submissionTotal == |submitEvents| && completionTotal == |completeEvents|
    ensures forall i: nat :: IsReported(submitted, i) <==>
              submissionStart <= i < submissionTotal && !Overwritten(i, submissions.Length, submissionTotal)
    ensures forall i: nat :: IsReported(completed, i) <==>
              completionStart <= i < completionTotal && !Overwritten(i, completions.Length, completionTotal)
    ensures !truncated <==>
              && (forall i: nat | submissionStart <= i < submissionTotal :: IsReported(submitted, i))
              && (forall i: nat | completionStart <= i < completionTotal :: IsReported(completed, i))
  {
    truncated, submitted, completed := WriteInterval(
      submissions, submissionTotal, submissionStart, completions, completionTotal, completionStart);
    forall i: nat
      ensures IsReported(submitted, i) <==>
              submissionStart <= i < submissionTotal && !Overwritten(i, submissions.Length, submissionTotal)
    {
      IntervalIsExact(noSubmission, submissions.Length, submitEvents, submissionStart, i);
    }
    forall i: nat
      ensures IsReported(completed, i) <==>
              completionStart <= i < completionTotal && !Overwritten(i, completions.Length, completionTotal)
    {
      IntervalIsExact(noCompletion, completions.Length, completeEvents, completionStart, i);
    }
  }

  // ---- The cut-off of the second ring ---------------------------------------

  /** A reader with this cut-off reports what `TimelineIsExact` promises, in every run. */
  ghost predicate ReadsRight(cutoff: nat, slots: nat)
    requires slots > 0
  {
    forall before: seq<nat>, steps: seq<Step<nat>> :: RightAfter(cutoff, slots, before, steps)
  }

  ghost predicate RightAfter(cutoff: nat, slots: nat, before: seq<nat>, steps: seq<Step<nat>>)
    requires slots > 0
  {
    var log := Run(0, slots, cutoff, before, steps);
    LossIsExact(log, slots, |before|) && InOrder(log, |before|)
  }

  function UpFromZero(count: nat): (events: seq<nat>)
    ensures |events| == count && forall i | 0 <= i < count :: events[i] == i
  {
    seq(count, i requires 0 <= i < count => i)
  }

  /** Events 0, 1, 2 and so on are produced. */
  function Production(count: nat): (steps: seq<Step<nat>>)
    ensures |steps| == count
  {
    if count == 0 then [] else Production(count - 1) + [Produce(count - 1)]
  }

  lemma {:induction false} AfterProduction(slots: nat, cutoff: nat, count: nat)
    requires slots > 0
    ensures Run(0, slots, cutoff, [], Production(count)) == Log(UpFromZero(count), 0, [], [])
  {
    if count == 0 {
      assert UpFromZero(0) == [];
    } else {
      AfterProduction(slots, cutoff, count - 1);
      assert Production(count)[..count - 1] == Production(count - 1);
      assert UpFromZero(count) == UpFromZero(count - 1) + [count - 1];
    }
  }

  lemma AfterProductionAndRead(slots: nat, cutoff: nat, count: nat)
    requires slots > 0
    ensures var events := UpFromZero(count);
            var reports := Reports(Ring(0, slots, events), From(0, cutoff, count), count);
            Run(0, slots, cutoff, [], Production(count) + [Read]) == Log(events, count, reports, [count])
  {
    var steps := Production(count) + [Read];
    AfterProduction(slots, cutoff, count);
    assert steps[..count] == Production(count);
    var events := UpFromZero(count);
    var reports := Reports(Ring(0, slots, events), From(0, cutoff, count), count);
    assert [] + reports == reports;
  }

  lemma {:induction false} FirstReport<T>(ring: seq<T>, from: nat, end: nat)
    requires ring != [] && from < end
    ensures Reports(ring, from, end)[0] == Report(from, ring[from % |ring|])
    ensures forall k | 0 <= k < end - from :: Reports(ring, from, end)[k].index == from + k
    decreases end
  {
    if end > from + 1 {
      FirstReport(ring, from, end - 1);
    }
  }

  /** With a cut-off that is too long the reader takes the newest event for the oldest. */
  lemma LongCutoffMisreads(slots: nat, cutoff: nat)
    requires 0 < slots < cutoff
    ensures !RightAfter(cutoff, slots, [], Production(slots + 1) + [Read])
  {
    var count := slots + 1;
    var events := UpFromZero(count);
    AfterProductionAndRead(slots, cutoff, count);
    RingHolds(0, slots, events, slots);
    ModuloOneRoundOn(0, slots);
    ModuloBelow(0, slots);
    FirstReport(Ring(0, slots, events), 0, count);
    var log := Run(0, slots, cutoff, [], Production(count) + [Read]);
    assert log.reported[0] == Report(0, slots) && log.events[0] == 0;
    assert !InOrder(log, 0);
  }

  /** With one that is too short it passes over an event that is still in the ring. */
  lemma ShortCutoffSkips(slots: nat, cutoff: nat)
    requires cutoff < slots
    ensures !RightAfter(cutoff, slots, [], Production(slots) + [Read])
  {
    var events := UpFromZero(slots);
    var from := From(0, cutoff, slots);
    AfterProductionAndRead(slots, cutoff, slots);
    if from < slots {
      FirstReport(Ring(0, slots, events), from, slots);
    }
    var log := Run(0, slots, cutoff, [], Production(slots) + [Read]);
    assert !IsReported(log.reported, 0);
    assert log.totals[..0] == [];
    assert FirstSeen(log.totals, 0) == Some(slots) && !Overwritten(0, slots, slots);
    assert !LossIsExact(log, slots, 0);
  }

  /** `write_new_tx_timeline` cuts the completions off at the length of the submissions. Over
      all histories and interleavings that reports the right events with their own contents
      if and only if both rings have the same length. */
  lemma SharedCutoffNeedsEqualRings(cutoff: nat, slots: nat)
    requires slots > 0
    ensures ReadsRight(cutoff, slots) <==> cutoff == slots
  {
    if cutoff == slots {
      forall before: seq<nat>, steps: seq<Step<nat>>
        ensures RightAfter(cutoff, slots, before, steps)
      {
        TimelineIsExact(0, slots, before, steps);
      }
    } else if cutoff > slots {
      LongCutoffMisreads(slots, cutoff);
    } else {
      ShortCutoffSkips(slots, cutoff);
    }
  }
}
