/** Machine integers of the riscv32 target and the saturating and wrapping
    operations the firmware applies to them. */
module Machine {
  const U8_MAX := 0xFF
  const U16_MAX := 0xFFFF
  const U32_MAX := 0xFFFF_FFFF
  const U64_MAX := 0xFFFF_FFFF_FFFF_FFFF
  const USIZE_MAX := U32_MAX
  /// The largest object Rust can allocate on this target.
  const ISIZE_MAX := 0x7FFF_FFFF

  type u8 = x: int | 0 <= x <= U8_MAX
  type u16 = x: int | 0 <= x <= U16_MAX
  type u32 = x: int | 0 <= x <= U32_MAX
  type u64 = x: int | 0 <= x <= U64_MAX
  type usize = x: int | 0 <= x <= USIZE_MAX

  datatype Option<+T> = None | Some(value: T)

  function Min(a: int, b: int): int {
    if a < b then a else b
  }

  function Max(a: int, b: int): int {
    if a < b then b else a
  }

  /** `saturating_add` on an unsigned type whose largest value is `max`. */
  function SatAdd(a: nat, b: nat, max: nat): nat {
    Min(a + b, max)
  }

  /** `saturating_sub` on any unsigned type. */
  function SatSub(a: nat, b: nat): nat {
    Max(a - b, 0)
  }

  /** `u64::wrapping_sub`. */
  function WrappingSub(a: u64, b: u64): u64 {
    if a >= b then a - b else a - b + U64_MAX + 1
  }

  /** `u16::from_be_bytes`. */
  function Word(high: u8, low: u8): u16 {
    high as int * 256 + low as int
  }

  /** `u16::to_be_bytes`. */
  function BigEndian(value: u16): seq<u8> {
    [value / 256, value % 256]
  }

  /** The clock is less than `limit` past a time: it has not gone on that far, or has gone
      round the u64 range and not that far. */
  lemma WithinLimit(startedAt: u64, now: u64, limit: u64)
    ensures WrappingSub(now, startedAt) < limit
            <==> startedAt <= now < startedAt + limit || (now < startedAt && now + U64_MAX + 1 < startedAt + limit)
  {
  }

  /** Everything a sequence of chunks holds, in order. */
  function Flatten<T>(chunks: seq<seq<T>>): seq<T> {
    if chunks == [] then [] else chunks[0] + Flatten(chunks[1..])
  }

  lemma SliceOfSlice<T>(data: seq<T>, low: nat, high: nat, i: nat, j: nat)
    requires low <= high <= |data| && i <= j <= high - low
    ensures data[low..high][i..j] == data[low + i..low + j]
  {
    var part := data[low..high];
    forall k | 0 <= k < j - i
      ensures part[i..j][k] == data[low + i..low + j][k]
    {
      assert part[i + k] == data[low + (i + k)];
    }
    assert part[i..j] == data[low + i..low + j];
  }

  /** Copies a slice into an array, from an index on. */
  method CopySlice(target: array<u8>, at: nat, source: seq<u8>)
    requires at + |source| <= target.Length
    modifies target
    ensures forall i | 0 <= i < target.Length ::
              target[i] == if at <= i < at + |source| then source[i - at] else old(target[i])
  {
    forall i | 0 <= i < |source| {
      target[at + i] := source[i];
    }
  }
}
