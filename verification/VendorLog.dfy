/** The vendor log of wifi_init_smoke: a ring buffer that keeps the newest bytes, and
    the drain that reads it back in chunks, one critical section each. */
module VendorLog {
  import opened Machine
  import opened Modulo

  /** What a buffer of the given capacity can still show of a history. */
  function Retained(history: seq<u8>, capacity: nat): (tail: seq<u8>)
    ensures |tail| == Min(|history|, capacity)
  {
    history[Max(|history| - capacity, 0)..]
  }

  /** How many bytes of the history are gone, as a saturating counter shows it. */
  function Lost(history: seq<u8>, capacity: nat): usize {
    Min(|history| - |Retained(history, capacity)|, USIZE_MAX)
  }

  /** What a reader of the buffer can see. */
  datatype View = View(content: seq<u8>, dropped: usize)

  /** What one more chunk does to a view, without knowing the history behind it. */
  function Pushed(view: View, input: seq<u8>, capacity: nat): View {
    var content := Retained(view.content + input, capacity);
    View(content, SatAdd(view.dropped, |view.content| + |input| - |content|, USIZE_MAX))
  }

  function PushedAll(view: View, chunks: seq<seq<u8>>, capacity: nat): View
    decreases chunks
  {
    if chunks == [] then view else PushedAll(Pushed(view, chunks[0], capacity), chunks[1..], capacity)
  }

  function Observed(history: seq<u8>, capacity: nat): View {
    View(Retained(history, capacity), Lost(history, capacity))
  }

  lemma ObservedAfterPush(history: seq<u8>, input: seq<u8>, capacity: nat)
    ensures Pushed(Observed(history, capacity), input, capacity) == Observed(history + input, capacity)
  {
    assert Retained(Retained(history, capacity) + input, capacity) == Retained(history + input, capacity);
  }

  /** However a stream is cut into chunks, what the buffer shows depends on the stream
      alone: its last bytes, and how many came before them. */
  lemma {:induction false} ChunkingIsInvisible(history: seq<u8>, chunks: seq<seq<u8>>, capacity: nat)
    ensures PushedAll(Observed(history, capacity), chunks, capacity)
            == Observed(history + Flatten(chunks), capacity)
    decreases chunks
  {
    if chunks == [] {
      assert history + [] == history;
    } else {
      ObservedAfterPush(history, chunks[0], capacity);
      ChunkingIsInvisible(history + chunks[0], chunks[1..], capacity);
      assert history + chunks[0] + Flatten(chunks[1..]) == history + Flatten(chunks);
    }
  }

  lemma SameStreamSameView(a: seq<seq<u8>>, b: seq<seq<u8>>, capacity: nat)
    requires Flatten(a) == Flatten(b)
    ensures PushedAll(View([], 0), a, capacity) == PushedAll(View([], 0), b, capacity)
  {
    ChunkingIsInvisible([], a, capacity);
    ChunkingIsInvisible([], b, capacity);
    assert [] + Flatten(a) == [] + Flatten(b);
  }

  // ---- Windows of a circular array ------------------------------------------

  /** An index less than one round past the end. */
  function Wrap(x: nat, n: nat): (index: nat)
    requires 0 < n && x < 2 * n
    ensures index < n
  {
    if x < n then x else x - n
  }

  lemma WrapIsModulo(x: nat, n: nat)
    requires 0 < n && x < 2 * n
    ensures x % n == Wrap(x, n)
  {
    if x < n {
      ModuloBelow(x, n);
    } else {
      ModuloOnceRound(x, n);
    }
  }

  /** The `len` elements from `start` on, going round at the end. */
  function Window(data: seq<u8>, start: nat, len: nat): (content: seq<u8>)
    requires start < |data| && len <= |data|
    ensures |content| == len
  {
    seq(len, i requires 0 <= i < len => data[Wrap(start + i, |data|)])
  }

  lemma WindowWithout(data: seq<u8>, start: nat, len: nat, k: nat)
    requires start < |data| && k <= len <= |data|
    ensures Window(data, Wrap(start + k, |data|), len - k) == Window(data, start, len)[k..]
  {
    forall i | 0 <= i < len - k
      ensures Window(data, Wrap(start + k, |data|), len - k)[i] == Window(data, start, len)[k..][i]
    {
      var n := |data|;
      assert Window(data, start, len)[k + i] == data[Wrap(start + (k + i), n)];
      assert Wrap(Wrap(start + k, n) + i, n) == Wrap(start + (k + i), n);
    }
  }

  /** How far after `end` an index lies, going round. */
  function Distance(end: nat, p: nat, n: nat): (j: nat)
    requires end < n && p < n
    ensures j < n && Wrap(end + j, n) == p
  {
    if p >= end then p - end else p + n - end
  }

  /** The array after writing `bytes` from `end` on, going round. */
  function Written(data: seq<u8>, end: nat, bytes: seq<u8>): (after: seq<u8>)
    requires end < |data| && |bytes| <= |data|
    ensures |after| == |data|
  {
    seq(|data|, p requires 0 <= p < |data| =>
      if Distance(end, p, |data|) < |bytes| then bytes[Distance(end, p, |data|)] else data[p])
  }

  lemma WindowAfterWrite(data: seq<u8>, start: nat, len: nat, bytes: seq<u8>)
    requires start < |data| && len + |bytes| <= |data|
    ensures Window(Written(data, Wrap(start + len, |data|), bytes), start, len + |bytes|)
            == Window(data, start, len) + bytes
  {
    var n, end := |data|, Wrap(start + len, |data|);
    var after := Written(data, end, bytes);
    forall i | 0 <= i < len + |bytes|
      ensures Window(after, start, len + |bytes|)[i] == (Window(data, start, len) + bytes)[i]
    {
      var p := Wrap(start + i, n);
      assert Distance(end, p, n) == if i < len then n - len + i else i - len;
      assert after[p] == if i < len then data[p] else bytes[i - len];
    }
  }

  // ---- The buffer -----------------------------------------------------------

  /** An input that does not fit replaces the content by its own end. */
  lemma OversizeReplaces(history: seq<u8>, input: seq<u8>, capacity: nat)
    requires 0 < capacity <= |input|
    ensures Retained(history + input, capacity) == input[|input| - capacity..]
    ensures Lost(history + input, capacity)
            == SatAdd(SatAdd(Lost(history, capacity), |Retained(history, capacity)|, USIZE_MAX),
                      |input| - capacity, USIZE_MAX)
  {
  }

  /** An input that fits makes the oldest bytes give way. */
  lemma FittingEvicts(history: seq<u8>, input: seq<u8>, capacity: nat)
    requires |input| < capacity
    ensures var content := Retained(history, capacity);
            var overflow := SatSub(|content| + |input|, capacity);
            && overflow <= |content|
            && Retained(history + input, capacity) == content[overflow..] + input
            && Lost(history + input, capacity) == SatAdd(Lost(history, capacity), overflow, USIZE_MAX)
  {
  }

  class VendorLogBuffer {
    const bytes: array<u8>
    var start: usize
    var len: usize
    var dropped: usize
    /// Everything ever pushed.
    ghost var history: seq<u8>

    ghost predicate InBounds()
      reads `start, `len
    {
      && 0 < bytes.Length <= ISIZE_MAX
      && start < bytes.Length && len <= bytes.Length
    }

    /** The readable bytes, oldest first. */
    ghost function Content(): (content: seq<u8>)
      requires InBounds()
      reads `start, `len, bytes
      ensures |content| == len
    {
      Window(bytes[..], start, len)
    }

    /** The buffer shows the newest bytes of its history and counts the others. */
    ghost predicate Valid()
      reads this, bytes
    {
      && InBounds()
      && Content() == Retained(history, bytes.Length)
      && dropped == Lost(history, bytes.Length)
    }

    constructor (capacity: nat)
      requires 0 < capacity <= ISIZE_MAX
      ensures Valid() && fresh(bytes)
      ensures bytes.Length == capacity && history == []
    {
      bytes := new u8[capacity](_ => 0);
      start, len, dropped := 0, 0, 0;
      history := [];
    }

    /** The part of `push` that gives up the oldest bytes. */
    method Evict(overflow: nat)
      requires InBounds() && overflow <= len
      modifies this`start, this`len, this`dropped
      ensures InBounds() && Content() == old(Content())[overflow..]
      ensures dropped == SatAdd(old(dropped), overflow, USIZE_MAX)
    {
      if overflow != 0 {
        WindowWithout(bytes[..], start, len, overflow);
        WrapIsModulo(start as int + overflow, bytes.Length);
        start := (start as int + overflow) % bytes.Length;
        len := len - overflow;
        dropped := SatAdd(dropped, overflow, USIZE_MAX);
      }
    }

    /** The two slice copies of `push`: up to the end of the array, then from its start. */
    method CopyIn(end: nat, tail: seq<u8>)
      requires end < bytes.Length && |tail| <= bytes.Length
      modifies bytes
      ensures bytes[..] == Written(old(bytes[..]), end, tail)
    {
      var first := Min(|tail|, bytes.Length - end);
      forall i | 0 <= i < first {
        bytes[end + i] := tail[i];
      }
      forall i | 0 <= i < |tail| - first {
        bytes[i] := tail[first + i];
      }
      ghost var after := Written(old(bytes[..]), end, tail);
      forall p | 0 <= p < bytes.Length
        ensures bytes[p] == after[p]
      {
        var j := Distance(end, p, bytes.Length);
        assert after[p] == if j < |tail| then tail[j] else old(bytes[p]);
      }
    }

    /** The part of `push` that writes behind the content. */
    method Append(tail: seq<u8>)
      requires InBounds() && len as int + |tail| <= bytes.Length
      modifies this`len, bytes
      ensures InBounds() && Content() == old(Content()) + tail
    {
      WindowAfterWrite(bytes[..], start, len, tail);
      WrapIsModulo(start as int + len, bytes.Length);
      CopyIn((start as int + len) % bytes.Length, tail);
      len := len as int + |tail|;
    }

    /** The first branch of `push`: everything but the end of an oversized input is given up. */
    method Trim(input: seq<u8>) returns (tail: seq<u8>)
      requires InBounds() && |input| >= bytes.Length
      modifies this`start, this`len, this`dropped
      ensures InBounds() && Content() == []
      ensures tail == input[|input| - bytes.Length..]
      ensures dropped == SatAdd(SatAdd(old(dropped), old(len), USIZE_MAX), |input| - bytes.Length, USIZE_MAX)
    {
      dropped := SatAdd(SatAdd(dropped, len, USIZE_MAX), |input| - bytes.Length, USIZE_MAX);
      start := 0;
      len := 0;
      tail := input[|input| - bytes.Length..];
    }

    /** `push` behind its first branch: room is made for the input, and it is written. */
    method MakeRoomAndAppend(tail: seq<u8>)
      requires InBounds() && |tail| <= bytes.Length
      modifies this`start, this`len, this`dropped, bytes
      ensures InBounds()
      ensures var overflow := SatSub(old(len) as int + |tail|, bytes.Length);
              && overflow <= old(len)
              && Content() == old(Content())[overflow..] + tail
              && dropped == SatAdd(old(dropped), overflow, USIZE_MAX)
    {
      var overflow := SatSub(SatAdd(len, |tail|, USIZE_MAX), bytes.Length);
      Evict(overflow);
      Append(tail);
    }

    method PushOversize(input: seq<u8>, ghost shown: seq<u8>)
      requires InBounds() && |input| >= bytes.Length
      requires Content() == Retained(shown, bytes.Length) && dropped == Lost(shown, bytes.Length)
      modifies this`start, this`len, this`dropped, bytes
      ensures InBounds()
      ensures Content() == Retained(shown + input, bytes.Length) && dropped == Lost(shown + input, bytes.Length)
    {
      OversizeReplaces(shown, input, bytes.Length);
      var tail := Trim(input);
      MakeRoomAndAppend(tail);
    }

    method PushFitting(input: seq<u8>, ghost shown: seq<u8>)
      requires InBounds() && |input| < bytes.Length
      requires Content() == Retained(shown, bytes.Length) && dropped == Lost(shown, bytes.Length)
      modifies this`start, this`len, this`dropped, bytes
      ensures InBounds()
      ensures Content() == Retained(shown + input, bytes.Length) && dropped == Lost(shown + input, bytes.Length)
    {
      FittingEvicts(shown, input, bytes.Length);
      MakeRoomAndAppend(input);
    }

    /** `push`, for chunks of any size. */
    method Push(input: seq<u8>)
      requires Valid()
      modifies this, bytes
      ensures Valid()
      ensures history == old(history) + input
      ensures old(len) <= len && old(Evicted()) <= Evicted()
    {
      if |input| >= bytes.Length {
        PushOversize(input, history);
      } else {
        PushFitting(input, history);
      }
      history := history + input;
    }

    /** How many bytes of the history are no longer readable. */
    ghost function Evicted(): (count: nat)
      requires Valid()
      reads this, bytes
    {
      |history| - len
    }

    /** `copy_from`: the content from `offset` on, as far as the output reaches. */
    method CopyFrom(offset: nat, output: array<u8>) returns (count: nat)
      requires Valid() && offset <= len && output != bytes
      modifies output
      ensures count == Min(len - offset, output.Length)
      ensures output[..count] == Content()[offset..offset + count]
      ensures output[count..] == old(output[count..])
    {
      count := Min(len - offset, output.Length);
      WrapIsModulo(start as int + offset, bytes.Length);
      var source := (start as int + offset) % bytes.Length;
      var first := Min(count, bytes.Length - source);
      forall i | 0 <= i < first {
        output[i] := bytes[source + i];
      }
      forall i | first <= i < count {
        output[i] := bytes[i - first];
      }
      forall i | 0 <= i < count
        ensures output[i] == Content()[offset + i]
      {
        assert Content()[offset + i] == bytes[Wrap(start as int + offset + i, bytes.Length)];
      }
    }
  }

  // ---- The drain ------------------------------------------------------------

  /** One chunk of the drain: what was read at which offset, and how many bytes of the
      history had been evicted by then. */
  datatype Piece = Piece(offset: nat, evicted: nat, chunk: seq<u8>) {
    /** Where in the history the chunk starts. */
    function Position(): nat {
      evicted + offset
    }
    function End(): nat {
      Position() + |chunk|
    }
  }

  /** The pieces are non-empty parts of one history in order, and between two of them
      misses exactly what was evicted in between. */
  ghost predicate InOrder(pieces: seq<Piece>, history: seq<u8>) {
    pieces == [] ||
    var n := |pieces| - 1;
    && InOrder(pieces[..n], history)
    && pieces[n].chunk != [] && pieces[n].End() <= |history|
    && pieces[n].chunk == history[pieces[n].Position()..pieces[n].End()]
    && (n > 0 ==>
          && pieces[n - 1].evicted <= pieces[n].evicted
          && pieces[n].Position() == pieces[n - 1].End() + (pieces[n].evicted - pieces[n - 1].evicted))
  }

  /** The chunks of the pieces, laid end to end. */
  function Emitted(pieces: seq<Piece>): seq<u8> {
    if pieces == [] then [] else Emitted(pieces[..|pieces| - 1]) + pieces[|pieces| - 1].chunk
  }

  /** Everything pushed after the first `sections` critical sections. */
  function PushedBetween(between: nat -> seq<u8>, sections: nat): seq<u8> {
    if sections == 0 then [] else PushedBetween(between, sections - 1) + between(sections - 1)
  }

  /** The history at the `k`th critical section. */
  function HistoryAt(before: seq<u8>, between: nat -> seq<u8>, k: nat): seq<u8> {
    before + PushedBetween(between, k)
  }

  /** The one thing a critical section can read: the bytes behind what the history has lost by
      then and what was read before, as far as the chunk and the history reach. */
  ghost predicate IsSection(piece: Piece, history: seq<u8>, capacity: nat, size: nat) {
    && piece.evicted == Max(|history| - capacity, 0)
    && piece.Position() <= |history|
    && |piece.chunk| == Min(|history| - piece.Position(), size)
    && piece.chunk == history[piece.Position()..piece.End()]
  }

  /** The `k`th piece is what the `k`th critical section found. */
  ghost predicate AreSections(pieces: seq<Piece>, before: seq<u8>, between: nat -> seq<u8>, capacity: nat, size: nat) {
    pieces == [] ||
    var n := |pieces| - 1;
    && AreSections(pieces[..n], before, between, capacity, size)
    && IsSection(pieces[n], HistoryAt(before, between, n), capacity, size)
  }

  lemma {:induction false} SectionAt(
    pieces: seq<Piece>, before: seq<u8>, between: nat -> seq<u8>, capacity: nat, size: nat, k: nat)
    requires k < |pieces| && AreSections(pieces, before, between, capacity, size)
    ensures IsSection(pieces[k], HistoryAt(before, between, k), capacity, size)
  {
    if k < |pieces| - 1 {
      SectionAt(pieces[..|pieces| - 1], before, between, capacity, size, k);
    }
  }

  lemma OneMoreSection(pieces: seq<Piece>, next: Piece, before: seq<u8>, between: nat -> seq<u8>,
                       capacity: nat, size: nat)
    requires AreSections(pieces, before, between, capacity, size)
    requires IsSection(next, HistoryAt(before, between, |pieces|), capacity, size)
    ensures AreSections(pieces + [next], before, between, capacity, size)
  {
    assert (pieces + [next])[..|pieces|] == pieces;
  }

  lemma {:induction false} LongerHistory(pieces: seq<Piece>, history: seq<u8>, pushed: seq<u8>)
    requires InOrder(pieces, history)
    ensures InOrder(pieces, history + pushed)
  {
    if pieces == [] {
    } else {
      LongerHistory(pieces[..|pieces| - 1], history, pushed);
    }
  }

  lemma JoinSlices(history: seq<u8>, from: nat, mid: nat, to: nat)
    requires from <= mid <= to <= |history|
    ensures history[from..mid] + history[mid..to] == history[from..to]
  {
  }

  lemma {:induction false} EvictedIsMonotone(pieces: seq<Piece>, history: seq<u8>)
    requires InOrder(pieces, history) && pieces != []
    ensures pieces[0].evicted <= pieces[|pieces| - 1].evicted
  {
    if |pieces| > 1 {
      EvictedIsMonotone(pieces[..|pieces| - 1], history);
    }
  }

  lemma LastPiece(pieces: seq<Piece>, history: seq<u8>)
    requires InOrder(pieces, history) && |pieces| > 1
    requires pieces[0].evicted == pieces[|pieces| - 1].evicted
    ensures var n := |pieces| - 1;
            && InOrder(pieces[..n], history) && pieces[0].evicted == pieces[n - 1].evicted
            && pieces[n].Position() == pieces[n - 1].End() <= pieces[n].End() <= |history|
            && pieces[n].chunk == history[pieces[n].Position()..pieces[n].End()]
  {
    EvictedIsMonotone(pieces[..|pieces| - 1], history);
  }

  /** While nothing is evicted nothing is missed. */
  lemma {:induction false} NothingEvictedNothingMissed(pieces: seq<Piece>, history: seq<u8>)
    requires InOrder(pieces, history) && pieces != []
    requires pieces[0].evicted == pieces[|pieces| - 1].evicted
    ensures pieces[0].Position() <= pieces[|pieces| - 1].End() <= |history|
    ensures Emitted(pieces) == history[pieces[0].Position()..pieces[|pieces| - 1].End()]
  {
    var n := |pieces| - 1;
    if n == 0 {
      assert Emitted(pieces[..0]) == [];
    } else {
      var init, last := pieces[..n], pieces[n];
      LastPiece(pieces, history);
      NothingEvictedNothingMissed(init, history);
      JoinSlices(history, pieces[0].Position(), last.Position(), last.End());
      assert Emitted(pieces) == Emitted(init) + last.chunk;
    }
  }

  /** A drain that has emitted `output`, read from a log with the given history and
      evictions, and had `first` bytes evicted before it started. */
  ghost predicate Draining(pieces: seq<Piece>, output: seq<u8>, history: seq<u8>, evicted: nat, first: nat) {
    && output == Emitted(pieces) && |pieces| <= |output| && InOrder(pieces, history)
    && (if pieces == [] then evicted == first else
          var last := pieces[|pieces| - 1];
          && pieces[0].offset == 0 && pieces[0].evicted == first
          && last.offset + |last.chunk| == |output| && last.evicted <= evicted)
  }

  lemma InOrderOneMore(pieces: seq<Piece>, next: Piece, history: seq<u8>)
    requires InOrder(pieces, history)
    requires next.chunk != [] && next.End() <= |history| && next.chunk == history[next.Position()..next.End()]
    requires pieces != [] ==>
               var last := pieces[|pieces| - 1];
               last.evicted <= next.evicted && next.Position() == last.End() + (next.evicted - last.evicted)
    ensures InOrder(pieces + [next], history)
  {
    assert (pieces + [next])[..|pieces|] == pieces;
  }

  lemma EmittedOneMore(pieces: seq<Piece>, next: Piece)
    ensures Emitted(pieces + [next]) == Emitted(pieces) + next.chunk
  {
    assert (pieces + [next])[..|pieces|] == pieces;
  }

  lemma DrainStep(pieces: seq<Piece>, output: seq<u8>, history: seq<u8>, evicted: nat, first: nat,
                  next: Piece, pushed: seq<u8>, later: nat)
    requires Draining(pieces, output, history, evicted, first) && evicted <= later
    requires next.offset == |output| && next.evicted == evicted
    requires next.chunk != [] && next.End() <= |history|
    requires next.chunk == history[next.Position()..next.End()]
    ensures Draining(pieces + [next], output + next.chunk, history + pushed, later, first)
  {
    InOrderOneMore(pieces, next, history);
    LongerHistory(pieces + [next], history, pushed);
    EmittedOneMore(pieces, next);
  }

  lemma DrainWithoutEviction(pieces: seq<Piece>, output: seq<u8>, history: seq<u8>, evicted: nat)
    requires Draining(pieces, output, history, evicted, evicted) && evicted + |output| == |history|
    ensures output == history[evicted..]
  {
    if pieces != [] {
      EvictedIsMonotone(pieces, history);
      NothingEvictedNothingMissed(pieces, history);
    }
  }

  lemma ContentIsSuffix(log: VendorLogBuffer)
    requires log.Valid()
    ensures log.Evicted() == Max(|log.history| - log.bytes.Length, 0)
    ensures log.Content() == log.history[log.Evicted()..]
  {
  }

  /** A slice of the content is the one thing a critical section can read. */
  lemma SliceIsSection(history: seq<u8>, capacity: nat, offset: nat, taken: seq<u8>, size: nat)
    requires offset <= |Retained(history, capacity)|
    requires |taken| == Min(|Retained(history, capacity)| - offset, size)
    requires taken == Retained(history, capacity)[offset..offset + |taken|]
    ensures IsSection(Piece(offset, Max(|history| - capacity, 0), taken), history, capacity, size)
  {
    var gone := Max(|history| - capacity, 0);
    SliceOfSlice(history, gone, |history|, offset, offset + |taken|);
    assert history[gone..|history|] == history[gone..];
  }

  /** The critical section of the drain: one chunk of the history and the dropped count. */
  method ReadSection(log: VendorLogBuffer, chunk: array<u8>, offset: nat) returns (taken: seq<u8>, dropped: usize)
    requires log.Valid() && offset <= log.len && chunk != log.bytes
    modifies chunk
    ensures log.Valid() && dropped == log.dropped
    ensures |taken| == Min(log.len - offset, chunk.Length)
    ensures IsSection(Piece(offset, log.Evicted(), taken), log.history, log.bytes.Length, chunk.Length)
  {
    var count := log.CopyFrom(offset, chunk);
    taken := chunk[..count];
    dropped := log.dropped;
    SliceIsSection(log.history, log.bytes.Length, offset, taken, chunk.Length);
    ContentIsSuffix(log);
  }

  lemma PushedOnce(before: seq<u8>, between: nat -> seq<u8>, sections: nat, history: seq<u8>)
    requires history == HistoryAt(before, between, sections)
    ensures history + between(sections) == HistoryAt(before, between, sections + 1)
  {
  }

  /** The drain between two turns: what is read so far and what was pushed meanwhile. */
  ghost predicate Drained(log: VendorLogBuffer, before: seq<u8>, first: nat, between: nat -> seq<u8>,
                          pieces: seq<Piece>, output: seq<u8>, size: nat)
    reads log, log.bytes
  {
    && log.Valid() && |output| <= log.len
    && log.history == HistoryAt(before, between, |pieces|)
    && AreSections(pieces, before, between, log.bytes.Length, size)
    && Draining(pieces, output, log.history, log.Evicted(), first)
  }

  /** What producers push after a critical section that read `taken`. */
  method PushAfter(log: VendorLogBuffer, pushed: seq<u8>, ghost next: Piece,
                   ghost output: seq<u8>, ghost pieces: seq<Piece>, ghost first: nat)
    requires log.Valid() && next.chunk != [] && |output| + |next.chunk| <= log.len
    requires Draining(pieces, output, log.history, log.Evicted(), first)
    requires next.offset == |output| && next.evicted == log.Evicted()
    requires next.chunk == log.history[next.Position()..next.End()]
    modifies log, log.bytes
    ensures log.Valid() && |output| + |next.chunk| <= log.len && log.history == old(log.history) + pushed
    ensures Draining(pieces + [next], output + next.chunk, log.history, log.Evicted(), first)
  {
    ghost var history, evicted := log.history, log.Evicted();
    log.Push(pushed);
    DrainStep(pieces, output, history, evicted, first, next, pushed, log.Evicted());
  }

  /** A section that read something is followed by the pushes of other producers. */
  method GoOn(log: VendorLogBuffer, between: nat -> seq<u8>, sections: nat, ghost next: Piece,
              ghost output: seq<u8>, ghost pieces: seq<Piece>, ghost before: seq<u8>, ghost first: nat, ghost size: nat)
    requires Drained(log, before, first, between, pieces, output, size) && sections == |pieces|
    requires next.chunk != [] && |output| + |next.chunk| <= log.len
    requires next.offset == |output| && next.evicted == log.Evicted()
    requires IsSection(next, log.history, log.bytes.Length, size)
    modifies log, log.bytes
    ensures Drained(log, before, first, between, pieces + [next], output + next.chunk, size)
  {
    OneMoreSection(pieces, next, before, between, log.bytes.Length, size);
    PushedOnce(before, between, sections, log.history);
    PushAfter(log, between(sections), next, output, pieces, first);
  }

  /** One turn of the drain: its critical section and, when that read anything, what
      producers push before the next one. */
  method DrainTurn(log: VendorLogBuffer, chunk: array<u8>, between: nat -> seq<u8>, sections: nat,
                   output: seq<u8>, ghost pieces: seq<Piece>, ghost before: seq<u8>, ghost first: nat)
    returns (more: seq<u8>, dropped: usize, ghost longer: seq<Piece>)
    requires chunk.Length > 0 && chunk != log.bytes && sections == |pieces|
    requires Drained(log, before, first, between, pieces, output, chunk.Length)
    modifies log, log.bytes, chunk
    ensures Drained(log, before, first, between, longer, more, chunk.Length)
    ensures |more| == |output| + Min(old(log.len) - |output|, chunk.Length)
    ensures |more| == |output| ==> more == output && |more| == log.len && dropped == log.dropped && longer == pieces
    ensures |more| > |output| ==> |longer| == sections + 1
  {
    var taken;
    taken, dropped := ReadSection(log, chunk, |output|);
    if taken == [] {
      return output, dropped, pieces;
    }
    ghost var next := Piece(|output|, log.Evicted(), taken);
    longer, more := pieces + [next], output + taken;
    GoOn(log, between, sections, next, output, pieces, before, first, chunk.Length);
  }

  /** The loop of `flush_vendor_log`. It ends whatever is pushed between its turns. */
  method DrainAll(log: VendorLogBuffer, chunk: array<u8>, between: nat -> seq<u8>, ghost first: nat)
    returns (output: seq<u8>, dropped: usize, ghost pieces: seq<Piece>)
    requires log.Valid() && chunk.Length > 0 && chunk != log.bytes && first == log.Evicted()
    modifies log, log.bytes, chunk
    ensures Drained(log, old(log.history), first, between, pieces, output, chunk.Length)
    ensures dropped == log.dropped && |output| == log.len
  {
    output := [];
    pieces := [];
    var sections := 0;
    while true
      invariant sections == |pieces|
      invariant Drained(log, old(log.history), first, between, pieces, output, chunk.Length)
      decreases log.bytes.Length - |output|
    {
      var more;
      more, dropped, pieces := DrainTurn(log, chunk, between, sections, output, pieces, old(log.history), first);
      if |more| == |output| {
        return;
      }
      output := more;
      sections := sections + 1;
    }
  }

  /** `flush_vendor_log`, where `between(k)` is what producers push after the k-th
      critical section. The output is the pieces laid end to end; each piece is exactly what
      its critical section found in the history as it then was; and between two pieces as
      many bytes are missing as were evicted between these two sections. */
  method FlushVendorLog(log: VendorLogBuffer, chunk: array<u8>, between: nat -> seq<u8>)
    returns (output: seq<u8>, reportedDropped: u32, ghost pieces: seq<Piece>)
    requires log.Valid() && chunk.Length > 0 && chunk != log.bytes
    modifies log, log.bytes, chunk
    ensures log.Valid()
    ensures log.history == HistoryAt(old(log.history), between, |pieces|)
    ensures AreSections(pieces, old(log.history), between, log.bytes.Length, chunk.Length)
    ensures Draining(pieces, output, log.history, log.Evicted(), old(log.Evicted()))
    ensures |output| == log.len && |pieces| <= log.bytes.Length
    ensures reportedDropped == log.dropped
    ensures log.Evicted() == old(log.Evicted()) ==> output == log.Content()
    ensures log.history == old(log.history) ==> output == old(log.Content())
  {
    ghost var first := log.Evicted();
    ContentIsSuffix(log);
    var dropped;
    output, dropped, pieces := DrainAll(log, chunk, between, first);
    reportedDropped := Min(dropped, U32_MAX);
    ContentIsSuffix(log);
    if log.Evicted() == first {
      DrainWithoutEviction(pieces, output, log.history, first);
    }
  }
}
