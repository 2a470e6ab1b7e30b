/** The bits of an unsigned mask, counted from the least significant one. */
module Bits {
  /** Whether bit `k` is set. */
  predicate HasBit(mask: nat, k: nat) {
    if k == 0 then mask % 2 == 1 else HasBit(mask / 2, k - 1)
  }

  /** The mask with bit `k` set. */
  function WithBit(mask: nat, k: nat): nat {
    if k == 0 then mask / 2 * 2 + 1 else WithBit(mask / 2, k - 1) * 2 + mask % 2
  }

  function Pow2(n: nat): (power: nat)
    ensures power > 0
  {
    if n == 0 then 1 else 2 * Pow2(n - 1)
  }

  /** The positions below `n` whose bit is set. */
  function Positions(mask: nat, n: nat): set<nat> {
    if n == 0 then {}
    else if HasBit(mask, n - 1) then Positions(mask, n - 1) + {n - 1}
    else Positions(mask, n - 1)
  }

  lemma {:induction false} WithBitSets(mask: nat, k: nat, j: nat)
    ensures HasBit(WithBit(mask, k), j) <==> j == k || HasBit(mask, j)
  {
    if k > 0 && j > 0 {
      WithBitSets(mask / 2, k - 1, j - 1);
    }
  }

  lemma HalfFits(mask: nat, power: nat)
    requires mask < 2 * power
    ensures mask / 2 < power
  {
  }

  lemma DoubleFits(half: nat, bit: nat, power: nat)
    requires half < power && bit <= 1
    ensures half * 2 + bit < 2 * power
  {
  }

  lemma {:induction false} WithBitFits(mask: nat, k: nat, n: nat)
    requires mask < Pow2(n) && k < n
    ensures WithBit(mask, k) < Pow2(n)
  {
    var half, power := mask / 2, Pow2(n - 1);
    HalfFits(mask, power);
    if k == 0 {
      DoubleFits(half, 1, power);
    } else {
      WithBitFits(half, k - 1, n - 1);
      DoubleFits(WithBit(half, k - 1), mask % 2, power);
    }
  }

  lemma {:induction false} InPositions(mask: nat, n: nat, j: nat)
    ensures j in Positions(mask, n) <==> j < n && HasBit(mask, j)
  {
    if n == 0 {
    } else {
      InPositions(mask, n - 1, j);
    }
  }

  lemma {:induction false} PositionsWithBit(mask: nat, k: nat, n: nat)
    ensures Positions(WithBit(mask, k), n) == Positions(mask, n) + if k < n then {k} else {}
  {
    if n == 0 {
    } else {
      PositionsWithBit(mask, k, n - 1);
      WithBitSets(mask, k, n - 1);
    }
  }

  lemma {:induction false} NoPositions(n: nat)
    ensures Positions(0, n) == {}
  {
    if n == 0 {
    } else {
      NoPositions(n - 1);
      NoBit(n - 1);
    }
  }

  lemma {:induction false} NoBit(k: nat)
    ensures !HasBit(0, k)
  {
    if k == 0 {
    } else {
      NoBit(k - 1);
    }
  }

  function UpTo(n: nat): set<nat> {
    if n == 0 then {} else UpTo(n - 1) + {n - 1}
  }

  lemma {:induction false} UpToIsRange(n: nat)
    ensures |UpTo(n)| == n
    ensures forall k: nat :: k in UpTo(n) <==> k < n
  {
    if n == 0 {
    } else {
      UpToIsRange(n - 1);
    }
  }

  lemma {:induction false} CardinalityBelow(s: set<nat>, bound: nat)
    requires forall k | k in s :: k < bound
    ensures |s| <= bound
  {
    if bound == 0 {
      assert s == {};
    } else {
      CardinalityBelow(s - {bound - 1}, bound - 1);
    }
  }
}
