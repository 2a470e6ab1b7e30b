/** Sections 1 and 2 of RFC 1071, proved of the checksum the code computes. */
module Rfc1071Laws {
  import opened Machine
  import opened Rfc1071

  // ---- The sum after one word changes ---------------------------------------

  lemma {:induction false} SumAfterUpdate(words: seq<u16>, k: nat, value: u16)
    requires k < |words|
    ensures Sum(words[k := value]) == Sum(words) - words[k] + value
  {
    if k == 0 {
      assert words[0 := value][1..] == words[1..];
    } else {
      SumAfterUpdate(words[1..], k - 1, value);
      assert words[k := value][1..] == words[1..][k - 1 := value];
    }
  }

  lemma {:induction false} WordsAfterStore(bytes: seq<u8>, k: nat, value: u16)
    requires 2 * k + 1 < |bytes|
    ensures k < |Words(bytes)|
    ensures Words(StoreWord(bytes, k, value)) == Words(bytes)[k := value]
  {
    var stored := StoreWord(bytes, k, value);
    if k == 0 {
      assert stored[2..] == bytes[2..];
    } else {
      WordsAfterStore(bytes[2..], k - 1, value);
      assert stored[2..] == StoreWord(bytes[2..], k - 1, value);
    }
  }

  // ---- Section 1: a stored checksum verifies --------------------------------

  lemma ComplementSumsToZero(sum: nat)
    ensures EndAround(sum + (0xFFFF - EndAround(sum))) == 0xFFFF
  {
    var q := Quotient(sum);
    CastOut(0xFFFF, q);
  }

  lemma StoredWordVerifies(words: seq<u16>, k: nat)
    requires k < |words|
    ensures WordsChecksum(words[k := WordsChecksum(words[k := 0])]) == 0
  {
    var field := WordsChecksum(words[k := 0]);
    SumAfterUpdate(words, k, 0);
    SumAfterUpdate(words, k, field);
    ComplementSumsToZero(Sum(words[k := 0]));
  }

  /** Storing the checksum of a region with a zeroed field into that field makes the
      whole region verify, whatever the region held. */
  lemma StoredChecksumVerifies(bytes: seq<u8>, k: nat)
    requires 2 * k + 1 < |bytes|
    ensures Verifies(StoreWord(bytes, k, Checksum(StoreWord(bytes, k, 0))))
  {
    var words := Words(bytes);
    WordsAfterStore(bytes, k, 0);
    var field := WordsChecksum(words[k := 0]);
    WordsAfterStore(bytes, k, field);
    StoredWordVerifies(words, k);
  }

  lemma SumOfFirstWord(high: u8, low: u8, bytes: seq<u8>, rest: seq<u8>)
    requires bytes == [high, low] + rest
    ensures Sum(Words(bytes)) == Word(high, low) + Sum(Words(rest))
  {
    assert bytes[2..] == rest;
  }

  /** The example of RFC 1071, section 3: the sum of these words is 0x2DDF0, folded 0xDDF2. */
  lemma ExampleOfSection3()
    ensures Checksum([0x00, 0x01, 0xF2, 0x03, 0xF4, 0xF5, 0xF6, 0xF7]) == 0xFFFF - 0xDDF2
  {
    var d := [0xF6, 0xF7];
    var c := [0xF4, 0xF5] + d;
    var b := [0xF2, 0x03] + c;
    var bytes := [0x00, 0x01, 0xF2, 0x03, 0xF4, 0xF5, 0xF6, 0xF7];
    assert bytes == [0x00, 0x01] + b && d == d + [];
    SumOfFirstWord(0xF6, 0xF7, d, []);
    SumOfFirstWord(0xF4, 0xF5, c, d);
    SumOfFirstWord(0xF2, 0x03, b, c);
    SumOfFirstWord(0x00, 0x01, bytes, b);
    var sum := Sum(Words(bytes));
    assert sum == 0x2_DDF0;
    CastOut(0xDDF2, 2);
  }

  // ---- Section 2: detection of a changed word -------------------------------

  /** The two ways ones' complement arithmetic writes zero. */
  predicate BothZero(a: u16, b: u16) {
    (a == 0 && b == 0xFFFF) || (a == 0xFFFF && b == 0)
  }

  lemma EndAroundDetects(rest: nat, a: u16, b: u16)
    ensures EndAround(rest + a) == EndAround(rest + b) <==> a == b || (BothZero(a, b) && rest > 0)
  {
    var p := Quotient(rest + a);
    var q := Quotient(rest + b);
    if BothZero(a, b) && rest > 0 {
      CastOut(rest, 1);
    }
  }

  /** Some word other than the `k`th is not zero. */
  predicate OthersNotZero(words: seq<u16>, k: nat)
    requires k < |words|
  {
    exists j | 0 <= j < |words| :: j != k && words[j] != 0
  }

  lemma {:induction false} SumIsZero(words: seq<u16>)
    ensures Sum(words) == 0 <==> forall j | 0 <= j < |words| :: words[j] == 0
  {
    if words == [] {
    } else {
      SumIsZero(words[1..]);
      assert forall j | 0 < j < |words| :: words[j] == words[1..][j - 1];
    }
  }

  lemma ChangedWordDetected(words: seq<u16>, k: nat, a: u16, b: u16)
    requires k < |words|
    ensures WordsChecksum(words[k := a]) == WordsChecksum(words[k := b])
            <==> a == b || (BothZero(a, b) && OthersNotZero(words, k))
  {
    var rest := words[k := 0];
    SumAfterUpdate(rest, k, a);
    SumAfterUpdate(rest, k, b);
    assert rest[k := a] == words[k := a] && rest[k := b] == words[k := b];
    EndAroundDetects(Sum(rest), a, b);
    SumIsZero(rest);
    if Sum(rest) != 0 {
      var j :| 0 <= j < |rest| && rest[j] != 0;
      assert j != k && words[j] != 0;
    }
    if OthersNotZero(words, k) {
      var j :| 0 <= j < |words| && j != k && words[j] != 0;
      assert rest[j] != 0;
    }
  }

  /** A change of one aligned word goes unnoticed exactly when it is between 0x0000
      and 0xFFFF and some other word is not zero. */
  lemma ChangedWordIsDetected(bytes: seq<u8>, k: nat, a: u16, b: u16)
    requires 2 * k + 1 < |bytes|
    ensures k < |Words(bytes)|
    ensures Checksum(StoreWord(bytes, k, a)) == Checksum(StoreWord(bytes, k, b))
            <==> a == b || (BothZero(a, b) && OthersNotZero(Words(bytes), k))
  {
    var words := Words(bytes);
    WordsAfterStore(bytes, k, a);
    WordsAfterStore(bytes, k, b);
    ChangedWordDetected(words, k, a, b);
  }

  /** The receiver's test: a region verifies exactly when its field holds the checksum
      of the rest, up to the two encodings of zero when the rest is not all zeros. */
  lemma VerifiesIffStored(bytes: seq<u8>, k: nat, field: u16, expected: u16)
    requires 2 * k + 1 < |bytes|
    requires expected == Checksum(StoreWord(bytes, k, 0))
    ensures k < |Words(bytes)|
    ensures Verifies(StoreWord(bytes, k, field))
            <==> field == expected || (BothZero(field, expected) && OthersNotZero(Words(bytes), k))
  {
    StoredChecksumVerifies(bytes, k);
    ChangedWordIsDetected(bytes, k, field, expected);
  }

  // ---- Section 2: order independence ----------------------------------------

  lemma {:induction false} SumWithout(words: seq<u16>, j: nat)
    requires j < |words|
    ensures Sum(words) == words[j] + Sum(words[..j] + words[j + 1..])
  {
    if j == 0 {
      assert words[..0] + words[1..] == words[1..];
    } else {
      SumWithout(words[1..], j - 1);
      assert (words[..j] + words[j + 1..])[1..] == words[1..][..j - 1] + words[1..][j..];
    }
  }

  lemma RestOfPermutation(a: seq<u16>, b: seq<u16>, j: nat)
    requires multiset(a) == multiset(b)
    requires a != [] && j < |b| && b[j] == a[0]
    ensures multiset(a[1..]) == multiset(b[..j] + b[j + 1..])
  {
    assert a == [a[0]] + a[1..];
    assert b == b[..j] + [a[0]] + b[j + 1..];
    assert multiset(b) == multiset(b[..j] + b[j + 1..]) + multiset{a[0]};
    assert multiset(a[1..]) == multiset(a) - multiset{a[0]};
  }

  lemma {:induction false} SumOfPermutation(a: seq<u16>, b: seq<u16>)
    requires multiset(a) == multiset(b)
    ensures Sum(a) == Sum(b)
  {
    if a == [] {
      assert |b| == |multiset(b)| == 0;
    } else {
      assert a[0] in multiset(b);
      var j :| 0 <= j < |b| && b[j] == a[0];
      RestOfPermutation(a, b, j);
      SumOfPermutation(a[1..], b[..j] + b[j + 1..]);
      SumWithout(b, j);
    }
  }

  /** Reordering the aligned words leaves the checksum unchanged. */
  lemma WordOrderIsIrrelevant(a: seq<u8>, b: seq<u8>)
    requires multiset(Words(a)) == multiset(Words(b))
    ensures Checksum(a) == Checksum(b)
  {
    SumOfPermutation(Words(a), Words(b));
  }

  // ---- Section 2: byte order independence -----------------------------------

  function SwapWord(word: u16): u16 {
    word % 256 * 256 + word / 256
  }

  /** The region with the two bytes of every word exchanged, an odd tail padded first. */
  function SwapBytes(bytes: seq<u8>): seq<u8> {
    if bytes == [] then []
    else if |bytes| == 1 then [0, bytes[0]]
    else [bytes[1], bytes[0]] + SwapBytes(bytes[2..])
  }

  lemma {:induction false} SumOfSwapped(bytes: seq<u8>) returns (q: nat)
    ensures 256 * Sum(Words(bytes)) == Sum(Words(SwapBytes(bytes))) + 0xFFFF * q
    ensures Sum(Words(bytes)) == 0 <==> Sum(Words(SwapBytes(bytes))) == 0
  {
    if bytes == [] {
      q := 0;
    } else if |bytes| == 1 {
      q := bytes[0];
      assert SwapBytes(bytes)[2..] == [];
    } else {
      var p := SumOfSwapped(bytes[2..]);
      q := p + bytes[0] as int;
      assert SwapBytes(bytes)[2..] == SwapBytes(bytes[2..]);
    }
  }

  lemma SwapIsMultiplication(word: u16)
    requires word > 0
    ensures EndAround(256 * word as int) == SwapWord(word)
  {
    assert 256 * word as int == SwapWord(word) + 0xFFFF * (word / 256);
    CastOut(SwapWord(word), word / 256);
  }

  lemma EndAroundOfProduct(sum: nat)
    requires sum > 0
    ensures EndAround(256 * sum) == SwapWord(EndAround(sum))
  {
    var q := Quotient(sum);
    CastOut(256 * EndAround(sum) as int, 256 * q);
    SwapIsMultiplication(EndAround(sum));
  }

  lemma SwapOfComplement(word: u16)
    ensures SwapWord(0xFFFF - word) == 0xFFFF - SwapWord(word)
  {
    var high, low := word / 256, word % 256;
    assert 0xFFFF - word == 256 * (255 - high) + (255 - low);
  }

  lemma SwappedSums(sum: nat, swapped: nat, q: nat)
    requires 256 * sum == swapped + 0xFFFF * q
    requires sum == 0 <==> swapped == 0
    ensures 0xFFFF - EndAround(swapped) == SwapWord(0xFFFF - EndAround(sum))
  {
    SwapOfComplement(EndAround(sum));
    if sum > 0 {
      CastOut(swapped, q);
      EndAroundOfProduct(sum);
    }
  }

  /** Exchanging the bytes of every word exchanges the bytes of the checksum. */
  lemma SwappedBytesSwapChecksum(bytes: seq<u8>)
    ensures Checksum(SwapBytes(bytes)) == SwapWord(Checksum(bytes))
  {
    var q := SumOfSwapped(bytes);
    SwappedSums(Sum(Words(bytes)), Sum(Words(SwapBytes(bytes))), q);
  }

  // ---- The length bound is tight --------------------------------------------

  function AllOnes(words: nat): seq<u8> {
    if words == 0 then [] else [0xFF, 0xFF] + AllOnes(words - 1)
  }

  function Zeros(count: nat): (bytes: seq<u8>)
    ensures |bytes| == count
  {
    if count == 0 then [] else [0] + Zeros(count - 1)
  }

  lemma {:induction false} SumOfZeros(count: nat)
    ensures Sum(Words(Zeros(count))) == 0
  {
    if count == 0 {
    } else if count == 1 {
      assert Zeros(1) == [0];
    } else {
      var rest := Zeros(count - 2);
      SumOfZeros(count - 2);
      assert Zeros(count - 1) == [0] + rest;
      SumOfFirstWord(0, 0, Zeros(count), rest);
    }
  }

  lemma {:induction false} SumOfJoined(words: nat, rest: seq<u8>)
    ensures |AllOnes(words)| == 2 * words
    ensures Sum(Words(AllOnes(words) + rest)) == 0xFFFF * words + Sum(Words(rest))
  {
    if words == 0 {
      assert AllOnes(0) + rest == rest;
    } else {
      var shorter := AllOnes(words - 1) + rest;
      SumOfJoined(words - 1, rest);
      assert AllOnes(words) + rest == [0xFF, 0xFF] + shorter;
      SumOfFirstWord(0xFF, 0xFF, AllOnes(words) + rest, shorter);
    }
  }

  /** 65537 words of ones fill the accumulator; what comes on top of them wraps it, and is
      one short afterwards. */
  lemma WrapsByOne(sum: nat, top: u16, words: nat)
    requires top > 0 && words == MAX_WORDS && sum == 0xFFFF * words + top
    ensures EndAround(sum) == top && EndAround(sum % U32_RANGE) == top - 1
  {
    CastOut(top, words);
    assert sum - U32_RANGE == top - 1;
    assert sum % U32_RANGE == top - 1;
  }

  lemma OddByteWraps(bytes: seq<u8>, words: nat, top: u16)
    requires words == MAX_WORDS && bytes == AllOnes(words) + [0xFF] && top == 0xFF00
    ensures |bytes| == 2 * MAX_WORDS + 1 && Computed(bytes) != Checksum(bytes)
  {
    SumOfJoined(words, [0xFF]);
    WrapsByOne(Sum(Words(bytes)), top, words);
  }

  lemma AnotherWordWraps(bytes: seq<u8>, words: nat, padding: nat, top: u16)
    requires words == MAX_WORDS && bytes == AllOnes(words + 1) + Zeros(padding) && top == 0xFFFF
    ensures |bytes| == 2 * MAX_WORDS + 2 + padding && Computed(bytes) != Checksum(bytes)
  {
    SumOfJoined(words + 1, Zeros(padding));
    SumOfZeros(padding);
    WrapsByOne(Sum(Words(bytes)), top, words);
  }

  /** Every region of some length gets its checksum from the code. */
  ghost predicate RightAtLength(length: nat) {
    forall bytes: seq<u8> | |bytes| == length :: Computed(bytes) == Checksum(bytes)
  }

  lemma WrongAtLength(length: nat, bytes: seq<u8>)
    requires |bytes| == length && Computed(bytes) != Checksum(bytes)
    ensures !RightAtLength(length)
  {
  }

  lemma WrongBeyond(length: nat, words: nat)
    requires words == MAX_WORDS && length > 2 * words
    ensures !RightAtLength(length)
  {
    if length == 2 * words + 1 {
      var bytes := AllOnes(words) + [0xFF];
      OddByteWraps(bytes, words, 0xFF00);
      WrongAtLength(length, bytes);
    } else {
      var padding: nat := length - (2 * words + 2);
      var bytes := AllOnes(words + 1) + Zeros(padding);
      AnotherWordWraps(bytes, words, padding, 0xFFFF);
      WrongAtLength(length, bytes);
    }
  }

  /** The code returns the checksum of every region of a length if and only if that length
      is at most 65537 words: at every other length the wrapped accumulator of the release
      build gives some region a wrong result. */
  lemma AccumulatorBoundIsTight(length: nat)
    ensures RightAtLength(length) <==> length <= 2 * MAX_WORDS
  {
    if length <= 2 * MAX_WORDS {
      forall bytes: seq<u8> | |bytes| == length
        ensures Computed(bytes) == Checksum(bytes)
      {
        AccumulatorFits(bytes);
      }
    } else {
      WrongBeyond(length, MAX_WORDS);
    }
  }
}
