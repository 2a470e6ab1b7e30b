/** The Internet checksum of wifi_init_smoke and the laws of RFC 1071 it obeys. */
module Rfc1071 {
  import opened Machine

  const U32_RANGE := 0x1_0000_0000
  /// The most 16-bit words a 32-bit accumulator can add without wrapping.
  const MAX_WORDS := 65537

  /** The big-endian 16-bit words of a region; an odd last byte is a high byte. */
  function Words(bytes: seq<u8>): seq<u16> {
    if bytes == [] then []
    else if |bytes| == 1 then [Word(bytes[0], 0)]
    else [Word(bytes[0], bytes[1])] + Words(bytes[2..])
  }

  lemma {:induction false} WordCount(bytes: seq<u8>)
    ensures 2 * |Words(bytes)| == |bytes| + |bytes| % 2
  {
    if |bytes| >= 2 {
      WordCount(bytes[2..]);
    }
  }

  function Sum(words: seq<u16>): nat {
    if words == [] then 0 else words[0] + Sum(words[1..])
  }

  /** The 16-bit ones' complement value of a sum, where end-around carries cast out
      65535s: only the sum 0 is written 0x0000. */
  function EndAround(sum: nat): (value: u16)
    ensures value == 0 <==> sum == 0
  {
    if sum <= 0xFFFF then sum else EndAround(sum - 0xFFFF)
  }

  /** The complement of the ones' complement sum of some words. */
  function WordsChecksum(words: seq<u16>): u16 {
    0xFFFF - EndAround(Sum(words))
  }

  /** The checksum RFC 1071 asks for, on a region of any length. */
  function Checksum(bytes: seq<u8>): u16 {
    WordsChecksum(Words(bytes))
  }

  /** A region verifies when the checksum over all of it, the stored field included, is 0. */
  predicate Verifies(bytes: seq<u8>) {
    Checksum(bytes) == 0
  }

  /** The region with its aligned word `k` replaced. */
  function StoreWord(bytes: seq<u8>, k: nat, value: u16): (stored: seq<u8>)
    requires 2 * k + 1 < |bytes|
    ensures |stored| == |bytes|
  {
    bytes[2 * k := BigEndian(value)[0]][2 * k + 1 := BigEndian(value)[1]]
  }

  // ---- The loops of the code ------------------------------------------------

  /** One turn of the fold loop: the low half plus the high half. */
  function FoldOnce(sum: nat): nat {
    sum % 0x1_0000 + sum / 0x1_0000
  }

  lemma {:induction false} CastOut(value: nat, q: nat)
    requires value > 0
    ensures EndAround(value + 0xFFFF * q) == EndAround(value)
  {
    if q == 0 {
    } else {
      CastOut(value, q - 1);
    }
  }

  lemma {:induction false} Quotient(sum: nat) returns (q: nat)
    ensures sum == EndAround(sum) + 0xFFFF * q
  {
    if sum <= 0xFFFF {
      q := 0;
    } else {
      var p := Quotient(sum - 0xFFFF);
      q := p + 1;
    }
  }

  /** The value is the residue modulo 65535. */
  lemma EndAroundIsResidue(sum: nat)
    ensures EndAround(sum) % 0xFFFF == sum % 0xFFFF
  {
    var q := Quotient(sum);
  }

  /** Folding keeps the value, and makes the sum smaller. */
  lemma FoldKeepsValue(sum: nat)
    requires sum > 0xFFFF
    ensures 0 < FoldOnce(sum) < sum
    ensures EndAround(FoldOnce(sum)) == EndAround(sum)
  {
    CastOut(FoldOnce(sum), sum / 0x1_0000);
  }

  /** The fold loop runs at most twice on any value a u32 can hold. */
  lemma FoldNeedsAtMostTwoTurns(sum: u32)
    ensures FoldOnce(FoldOnce(sum)) <= 0xFFFF
  {
    assert sum / 0x1_0000 <= 0xFFFF;
    assert FoldOnce(sum) <= 0x1_FFFE;
  }

  lemma {:induction false} SumIsBounded(words: seq<u16>)
    ensures Sum(words) <= 0xFFFF * |words|
  {
    if words == [] {
    } else {
      SumIsBounded(words[1..]);
    }
  }

  /** Up to 65537 words the accumulator holds the exact sum. */
  lemma AccumulatorFits(bytes: seq<u8>)
    requires |bytes| <= 2 * MAX_WORDS
    ensures Sum(Words(bytes)) <= U32_MAX
  {
    var words := Words(bytes);
    WordCount(bytes);
    SumIsBounded(words);
    assert |words| <= MAX_WORDS;
  }

  /** `u32` addition in the release profile. */
  function WrappingAdd(a: u32, b: u32): u32 {
    var sum := a as int + b as int;
    if sum <= U32_MAX then sum else sum - U32_RANGE
  }

  lemma WrappedValue(sum: u32, wraps: nat, total: nat)
    requires sum as int + U32_RANGE * wraps == total
    ensures sum == total % U32_RANGE
  {
  }

  /** The words of a region are its first word and the words of what follows. */
  lemma SumFrom(bytes: seq<u8>, i: nat)
    requires i < |bytes|
    ensures Sum(Words(bytes[i..])) ==
              if i + 1 < |bytes| then Word(bytes[i], bytes[i + 1]) + Sum(Words(bytes[i + 2..]))
              else Word(bytes[i], 0)
  {
    if i + 1 < |bytes| {
      assert bytes[i..][2..] == bytes[i + 2..];
    }
  }

  /** The second loop of `internet_checksum`, which takes at most two turns. */
  method FoldCarries(total: u32) returns (sum: u32, ghost turns: nat)
    ensures sum == EndAround(total)
    ensures turns <= 2
  {
    FoldNeedsAtMostTwoTurns(total);
    sum := total;
    turns := 0;
    while sum > 0xFFFF
      invariant EndAround(sum) == EndAround(total)
      invariant turns <= 2
      invariant sum == if turns == 0 then total else if turns == 1 then FoldOnce(total) else FoldOnce(FoldOnce(total))
    {
      FoldKeepsValue(sum);
      sum := FoldOnce(sum);
      turns := turns + 1;
    }
  }

  /** What the code returns: the checksum of the sum as far as a u32 holds it. */
  function Computed(bytes: seq<u8>): u16 {
    0xFFFF - EndAround(Sum(Words(bytes)) % U32_RANGE)
  }

  lemma AddStep(sum: u32, word: u16, wraps: nat) returns (more: nat)
    ensures WrappingAdd(sum, word) as int + U32_RANGE * more == sum as int + U32_RANGE * wraps + word as int
  {
    more := if sum as int + word as int <= U32_MAX then wraps else wraps + 1;
  }

  /** The first part of `internet_checksum`: every word and the odd byte added up in a u32,
      which wraps in the release profile. */
  method AddUp(bytes: seq<u8>) returns (sum: u32)
    ensures sum == Sum(Words(bytes)) % U32_RANGE
  {
    ghost var total := Sum(Words(bytes));
    ghost var wraps: nat := 0;
    sum := 0;
    var i := 0;
    assert bytes[0..] == bytes;
    while i + 1 < |bytes|
      invariant 0 <= i <= |bytes|
      invariant sum as int + U32_RANGE * wraps + Sum(Words(bytes[i..])) == total
    {
      SumFrom(bytes, i);
      var word := Word(bytes[i], bytes[i + 1]);
      wraps := AddStep(sum, word, wraps);
      sum := WrappingAdd(sum, word);
      i := i + 2;
    }
    if i < |bytes| {
      SumFrom(bytes, i);
      var word := Word(bytes[i], 0);
      wraps := AddStep(sum, word, wraps);
      sum := WrappingAdd(sum, word);
    }
    WrappedValue(sum, wraps, total);
  }

  /** `internet_checksum`. */
  method InternetChecksum(bytes: seq<u8>) returns (checksum: u16)
    ensures checksum == Computed(bytes)
    ensures |bytes| <= 2 * MAX_WORDS ==> checksum == Checksum(bytes)
  {
    var sum := AddUp(bytes);
    var folded;
    ghost var turns;
    folded, turns := FoldCarries(sum);
    checksum := 0xFFFF - folded;
    if |bytes| <= 2 * MAX_WORDS {
      AccumulatorFits(bytes);
    }
  }
}
