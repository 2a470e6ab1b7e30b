/** Frames in the MAC's word registers: packing on transmit, unpacking on receive. */
module MacWords {
  import opened Machine

  const BUFFER_MAX: nat := 2048
  const WINDOW_WORDS: nat := BUFFER_MAX / 4

  /** A byte shifted to position `b` of a word. */
  function Shifted(byte: u8, b: nat): nat {
    if b == 0 then byte else 256 * Shifted(byte, b - 1)
  }

  /** The byte at position `b` of a word, by shift and truncation. */
  function ByteAt(word: nat, b: nat): u8 {
    if b == 0 then word % 256 else ByteAt(word / 256, b - 1)
  }

  /** The little-endian value of some bytes. */
  function Pack(bytes: seq<u8>): nat {
    if bytes == [] then 0 else bytes[0] + 256 * Pack(bytes[1..])
  }

  /** The bytes of the `k`th word; the last one may have fewer than four. */
  function Chunk(frame: seq<u8>, k: nat): (chunk: seq<u8>)
    requires 4 * k < |frame|
    ensures 0 < |chunk| <= 4
  {
    frame[4 * k..Min(4 * k + 4, |frame|)]
  }

  function WordCount(bytes: nat): nat {
    (bytes + 3) / 4
  }

  /** Shifted bytes take different positions of the word, so joining their bits adds them. */
  lemma {:induction false} PackSnoc(bytes: seq<u8>, byte: u8)
    ensures Pack(bytes + [byte]) == Pack(bytes) + Shifted(byte, |bytes|)
    ensures forall j: nat | j >= |bytes| :: ByteAt(Pack(bytes), j) == 0
  {
    if bytes == [] {
      assert [byte][1..] == [];
      forall j: nat
        ensures ByteAt(0, j) == 0
      {
        ZeroWord(j);
      }
    } else {
      PackSnoc(bytes[1..], byte);
      assert (bytes + [byte])[1..] == bytes[1..] + [byte];
    }
  }

  lemma {:induction false} ZeroWord(b: nat)
    ensures ByteAt(0, b) == 0
  {
    if b == 0 {
    } else {
      ZeroWord(b - 1);
    }
  }

  /** Each position of a packed word holds its byte, and the unused ones zero. */
  lemma {:induction false} ByteOfPack(bytes: seq<u8>, b: nat)
    ensures ByteAt(Pack(bytes), b) == if b < |bytes| then bytes[b] else 0
  {
    if bytes == [] {
      ZeroWord(b);
    } else if b > 0 {
      ByteOfPack(bytes[1..], b - 1);
    }
  }

  /** A full word has its first byte lowest. */
  lemma PackIsLittleEndian(a: u8, b: u8, c: u8, d: u8)
    ensures Pack([a, b, c, d]) == a as int + 0x100 * b as int + 0x1_0000 * c as int + 0x100_0000 * d as int
  {
    var one, two, three, four := [d], [c, d], [b, c, d], [a, b, c, d];
    assert one[1..] == [] && two[1..] == one && three[1..] == two && four[1..] == three;
    assert Pack(one) == d;
    assert Pack(two) == c as int + 256 * d as int;
    assert Pack(three) == b as int + 256 * Pack(two);
  }

  lemma PackFits(bytes: seq<u8>)
    requires |bytes| <= 4
    ensures Pack(bytes) <= U32_MAX
  {
    PackBelow(bytes, |bytes|);
    assert Pow256(4) == 0x1_0000_0000 && Pow256(3) == 0x100_0000;
    assert Pow256(2) == 0x1_0000 && Pow256(1) == 0x100 && Pow256(0) == 1;
    assert |bytes| == 0 || |bytes| == 1 || |bytes| == 2 || |bytes| == 3 || |bytes| == 4;
  }

  function Pow256(n: nat): nat {
    if n == 0 then 1 else 256 * Pow256(n - 1)
  }

  lemma {:induction false} PackBelow(bytes: seq<u8>, n: nat)
    requires |bytes| == n
    ensures Pack(bytes) < Pow256(n)
  {
    if n == 0 {
    } else {
      PackBelow(bytes[1..], n - 1);
    }
  }

  // ---- Transmit -------------------------------------------------------------

  lemma ChunkIs(frame: seq<u8>, i: nat, n: nat, b: nat)
    requires i < n <= |frame| && i % 4 == 0 && b == Min(4, n - i)
    ensures Chunk(frame[..n], i / 4) == frame[i..i + b]
  {
    assert 4 * (i / 4) == i;
    var front := frame[..n];
    assert front[i..i + b] == frame[i..i + b];
  }

  lemma SliceOneMore(frame: seq<u8>, i: nat, j: nat)
    requires i <= j < |frame|
    ensures frame[i..j] + [frame[j]] == frame[i..j + 1]
  {
  }

  /** The inner loop of `mac_tx`. */
  method PackWord(frame: seq<u8>, i: nat, n: nat) returns (word: u32)
    requires i < n <= |frame| && i % 4 == 0
    ensures word == Pack(Chunk(frame[..n], i / 4))
  {
    var w := 0;
    var b := 0;
    while b < 4 && i + b < n
      invariant b <= 4 && i + b <= n
      invariant w == Pack(frame[i..i + b])
    {
      PackSnoc(frame[i..i + b], frame[i + b]);
      SliceOneMore(frame, i, i + b);
      w := w + Shifted(frame[i + b], b);
      b := b + 1;
    }
    ChunkIs(frame, i, n, b);
    PackFits(frame[i..i + b]);
    word := w;
  }

  /** `mac_tx` on the transmit window: the words of the first 2048 bytes, nothing else. */
  method MacTx(frame: seq<u8>, window: array<u32>) returns (txLen: u32)
    requires window.Length == WINDOW_WORDS
    modifies window
    ensures txLen == Min(|frame|, BUFFER_MAX)
    ensures forall k | 0 <= k < WordCount(txLen) :: window[k] == Pack(Chunk(frame[..txLen], k))
    ensures forall k | WordCount(txLen) <= k < WINDOW_WORDS :: window[k] == old(window[k])
  {
    var n := Min(|frame|, BUFFER_MAX);
    var i := 0;
    while i < n
      invariant i % 4 == 0 && i / 4 <= WordCount(n) && i < n + 4
      invariant forall k | 0 <= k < i / 4 :: window[k] == Pack(Chunk(frame[..n], k))
      invariant forall k | i / 4 <= k < WINDOW_WORDS :: window[k] == old(window[k])
    {
      var word := PackWord(frame, i, n);
      window[i / 4] := word;
      i := i + 4;
    }
    txLen := n;
  }

  // ---- Receive --------------------------------------------------------------

  /** The first bytes of a window of words. */
  function Unpacked(words: seq<u32>, length: nat): seq<u8>
    requires length <= 4 * |words|
  {
    seq(length, j requires 0 <= j < length => ByteAt(words[j / 4], j % 4))
  }

  /** The inner loop of `drain_rx`. */
  method UnpackWord(buffer: array<u8>, word: u32, i: nat, len: nat)
    requires i < len <= buffer.Length && i % 4 == 0
    modifies buffer
    ensures forall j | 0 <= j < buffer.Length ::
              buffer[j] == if i <= j < Min(i + 4, len) then ByteAt(word, j - i) else old(buffer[j])
  {
    var b := 0;
    while b < 4 && i + b < len
      invariant b <= 4 && i + b <= len
      invariant forall j | 0 <= j < buffer.Length ::
                  buffer[j] == if i <= j < i + b then ByteAt(word, j - i) else old(buffer[j])
    {
      buffer[i + b] := ByteAt(word, b);
      b := b + 1;
    }
  }

  lemma SameWord(i: nat, j: nat)
    requires i % 4 == 0 && i <= j < i + 4
    ensures j / 4 == i / 4 && j % 4 == j - i
  {
  }

  /** `drain_rx`, when a frame is ready. */
  method DrainRx(window: array<u32>, rxLen: u32) returns (frame: seq<u8>)
    requires window.Length == WINDOW_WORDS
    ensures frame == Unpacked(window[..], Min(rxLen, BUFFER_MAX))
  {
    var len := Min(rxLen, BUFFER_MAX);
    var buffer := new u8[BUFFER_MAX](_ => 0);
    var i := 0;
    while i < len
      invariant i % 4 == 0 && i < len + 4
      invariant forall j | 0 <= j < Min(i, len) :: buffer[j] == ByteAt(window[j / 4], j % 4)
    {
      UnpackWord(buffer, window[i / 4], i, len);
      forall j | i <= j < Min(i + 4, len)
        ensures buffer[j] == ByteAt(window[j / 4], j % 4)
      {
        SameWord(i, j);
      }
      i := i + 4;
    }
    frame := buffer[..len];
  }

  /** Unpacking a window that was packed from a frame gives back the frame's first 2048 bytes. */
  lemma UnpackInvertsPack(frame: seq<u8>, words: seq<u32>)
    requires |words| == WINDOW_WORDS
    requires var n := Min(|frame|, BUFFER_MAX);
             forall k | 0 <= k < WordCount(n) :: words[k] == Pack(Chunk(frame[..n], k))
    ensures Unpacked(words, Min(|frame|, BUFFER_MAX)) == frame[..Min(|frame|, BUFFER_MAX)]
  {
    var n := Min(|frame|, BUFFER_MAX);
    forall j | 0 <= j < n
      ensures Unpacked(words, n)[j] == frame[j]
    {
      var k, b := j / 4, j % 4;
      assert k < WordCount(n);
      ByteOfPack(Chunk(frame[..n], k), b);
    }
  }

  /** A frame that is written by `mac_tx` and read back by `drain_rx` from the same window
      comes back as its first 2048 bytes, whatever the window held. */
  method Loopback(frame: seq<u8>) returns (received: seq<u8>)
    ensures received == frame[..Min(|frame|, BUFFER_MAX)]
  {
    var window := new u32[WINDOW_WORDS];
    var txLen := MacTx(frame, window);
    received := DrainRx(window, txLen);
    UnpackInvertsPack(frame, window[..]);
  }
}
