/** Products and division with remainder by a variable, in steps the verifier can follow. */
module Modulo {
  lemma MultipleAtLeast(n: nat, q: int, k: nat)
    requires q >= k
    ensures n * q >= n * k
  {
  }

  lemma OneMoreMultiple(n: nat, k: nat)
    ensures n * (k + 1) == n * k + n
  {
  }

  lemma MultipleIsFar(n: int, d: int)
    requires n >= 0
    ensures d == 0 || n * d >= n || n * d <= -n
  {
    if d >= 1 {
      MultipleAtLeast(n, d, 1);
    } else if d <= -1 {
      MultipleAtLeast(n, -d, 1);
    }
  }

  lemma NoSmallMultiple(n: int, d: int)
    requires -n < n * d < n
    ensures d == 0
  {
    MultipleIsFar(n, d);
  }

  lemma Distribute(n: int, a: int, b: int)
    ensures n * (a - b) == n * a - n * b
  {
  }

  /** Quotient and remainder are the only pair of their kind. */
  lemma DivisionIsUnique(x: nat, n: nat, q: int, r: nat)
    requires r < n && x == n * q + r
    ensures x / n == q && x % n == r
  {
    var p, s := x / n, x % n;
    assert x == n * p + s;
    Distribute(n, q, p);
    NoSmallMultiple(n, q - p);
  }

  lemma ModuloBelow(x: nat, n: nat)
    requires x < n
    ensures x % n == x
  {
    DivisionIsUnique(x, n, 0, x);
  }

  lemma ModuloOnceRound(x: nat, n: nat)
    requires n <= x < 2 * n
    ensures x % n == x - n
  {
    DivisionIsUnique(x, n, 1, x - n);
  }

  lemma ModuloOneRoundOn(x: nat, n: nat)
    requires n > 0
    ensures (x + n) % n == x % n
  {
    var p, s := x / n, x % n;
    Distribute(n, p, -1);
    DivisionIsUnique(x + n, n, p + 1, s);
  }

  lemma ModuloDiffers(x: nat, y: nat, n: nat)
    requires x < y < x + n
    ensures x % n != y % n
  {
    var p, q := x / n, y / n;
    assert x == n * p + x % n && y == n * q + y % n;
    if x % n == y % n {
      Distribute(n, q, p);
      NoSmallMultiple(n, q - p);
    }
  }
}
