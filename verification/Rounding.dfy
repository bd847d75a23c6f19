/** `MY_ALIGN` and the fallback `rint` of my_global.h. */
module Rounding {
  import opened Bytes
  import TrailingSpace

  // ----- MY_ALIGN ------------------------------------------------------------------------------

  /** `((A) + (L) - 1) & ~((L) - 1)` in unsigned arithmetic of `width` bits, for L = 2^k. */
  function MyAlign(a: nat, k: nat, width: nat): nat
    requires k <= width
  {
    Pow2Monotone(k, width);
    And((a + Pow2(k) - 1) % Pow2(width), Pow2(width) - Pow2(k))
  }

  lemma {:induction false} Pow2Divides(k: nat, n: nat)
    requires k <= n
    ensures Pow2(n) % Pow2(k) == 0 && Pow2(n) == Pow2(n - k) * Pow2(k)
    decreases n
  {
    if k < n {
      Pow2Divides(k, n - 1);
      assert Pow2(n) == (2 * Pow2(n - 1 - k)) * Pow2(k);
    }
    DivMod(Pow2(n), Pow2(k), Pow2(n - k), 0);
  }

  /** Rounding down to a multiple of m. */
  lemma RoundDown(x: int, m: nat)
    requires m > 0
    ensures x - x % m == x / m * m && (x - x % m) % m == 0
  {
    DivMod(x / m * m, m, x / m, 0);
  }

  /** No multiple of m lies strictly between a - 1 and the rounded-up value. */
  lemma LeastMultiple(a: int, m: nat, c: int)
    requires m > 0 && c % m == 0 && c >= a
    ensures c >= (a + m - 1) / m * m >= a
  {
    var q := (a + m - 1) / m;
    var d := c / m;
    assert a + m - 1 == q * m + (a + m - 1) % m && c == d * m;
    assert (q - d) * m == q * m - d * m;
    if d < q {
      MultipleOutside(q - d, m);
    }
  }

  lemma MyAlignMasks(a: nat, k: nat, width: nat)
    requires k <= width
    ensures MyAlign(a, k, width) == (a + Pow2(k) - 1) % Pow2(width) / Pow2(k) * Pow2(k)
  {
    var x := (a + Pow2(k) - 1) % Pow2(width);
    AndHighMask(x, k, width);
    RoundDown(x, Pow2(k));
  }

  lemma MyAlignValue(a: nat, k: nat, width: nat)
    requires k <= width && a < Pow2(width)
    ensures MyAlign(a, k, width) ==
            if a + Pow2(k) <= Pow2(width) || a == 0 then (a + Pow2(k) - 1) / Pow2(k) * Pow2(k) else 0
  {
    var m, n := Pow2(k), Pow2(width);
    Pow2Monotone(k, width);
    MyAlignMasks(a, k, width);
    var x := (a + m - 1) % n;
    if a + m <= n || a == 0 {
      SmallMod(a + m - 1, n);
    } else {
      OneWrap(a, m, n);
      DivMod(x, m, 0, x);
    }
  }

  lemma OneWrap(a: nat, m: nat, n: nat)
    requires m >= 1 && a < n < a + m && m <= n
    ensures (a + m - 1) % n == a + m - 1 - n < m
  {
    DivMod(a + m - 1, n, 1, a + m - 1 - n);
  }

  /** Within range the result is the least multiple of 2^k not below `a`; past it the sum wraps and the result
      is 0, so the promise is kept exactly up to the last multiple below 2^width. */
  lemma MyAlignIsLeastMultiple(a: nat, k: nat, width: nat)
    requires k <= width && a < Pow2(width)
    ensures MyAlign(a, k, width) % Pow2(k) == 0
    ensures MyAlign(a, k, width) >= a <==> a + Pow2(k) <= Pow2(width) || a == 0
    ensures MyAlign(a, k, width) >= a ==> forall c: nat | c % Pow2(k) == 0 && c >= a :: MyAlign(a, k, width) <= c
  {
    var m, r := Pow2(k), MyAlign(a, k, width);
    MyAlignValue(a, k, width);
    RoundDown(a + m - 1, m);
    if r >= a {
      forall c: nat | c % m == 0 && c >= a ensures r <= c {
        LeastMultiple(a, m, c);
      }
    }
  }

  lemma MultiplesAreApart(r: nat, m: nat, n: nat)
    requires m > 0 && r % m == 0 && n % m == 0 && r < n
    ensures r + m <= n && (r + m - 1) / m * m == r
  {
    LeastMultiple(r + 1, m, n);
    DivMod(r + m, m, r / m + 1, 0);
    DivMod(r + m - 1, m, r / m, m - 1);
  }

  lemma AlignedInRange(a: nat, k: nat, width: nat)
    requires k <= width && a < Pow2(width)
    ensures MyAlign(a, k, width) < Pow2(width)
  {
    var x := (a + Pow2(k) - 1) % Pow2(width);
    Pow2Monotone(k, width);
    MyAlignMasks(a, k, width);
    RoundDown(x, Pow2(k));
  }

  lemma AlignAgain(a: nat, k: nat, width: nat)
    requires k <= width && a < Pow2(width)
    ensures MyAlign(a, k, width) < Pow2(width)
    ensures MyAlign(MyAlign(a, k, width), k, width) == MyAlign(a, k, width)
  {
    var once := MyAlign(a, k, width);
    MyAlignIsLeastMultiple(a, k, width);
    AlignedInRange(a, k, width);
    Pow2Divides(k, width);
    MyAlignValue(once, k, width);
    hide MyAlign, Pow2;
    MultiplesAreApart(once, Pow2(k), Pow2(width));
  }

  /** Aligning twice is aligning once for every address, in range or not. Alignment keeps the order of two addresses
      exactly until the second one passes the last multiple while the first has not. */
  lemma MyAlignIsIdempotentAndMonotone(a: nat, b: nat, k: nat, width: nat)
    requires k <= width && a <= b < Pow2(width)
    ensures MyAlign(MyAlign(a, k, width), k, width) == MyAlign(a, k, width) < Pow2(width)
    ensures MyAlign(a, k, width) <= MyAlign(b, k, width) <==>
            b + Pow2(k) <= Pow2(width) || a == 0 || a + Pow2(k) > Pow2(width)
  {
    AlignAgain(a, k, width);
    MyAlignIsLeastMultiple(a, k, width);
    MyAlignIsLeastMultiple(b, k, width);
    MyAlignValue(a, k, width);
    MyAlignValue(b, k, width);
    hide MyAlign, Pow2;
    ZeroIsAligned(Pow2(k));
  }

  lemma ZeroIsAligned(m: nat)
    requires m > 0
    ensures (0 + m - 1) / m * m == 0
  {
    DivMod(m - 1, m, 0, m - 1);
  }

  /** The mask form agrees with the division form that computes `start_words` in skip_trailing_space. */
  lemma MyAlignIsStartWords(addr: nat, w: nat)
    requires TrailingSpace.IntSize(w) && addr + w <= Pow2(64)
    ensures MyAlign(addr, if w == 4 then 2 else 3, 64) == TrailingSpace.AlignDown(addr + w - 1, w)
  {
    FourAndEight();
    hide Pow2, MyAlign;
    MyAlignValue(addr, if w == 4 then 2 else 3, 64);
  }

  lemma FourAndEight()
    ensures Pow2(2) == 4 && Pow2(3) == 8
  {
  }

  // ----- rint ----------------------------------------------------------------------------------

  /** `MAX_EXACT_INTEGER`, 2^53 - 1. */
  const MAX_EXACT_INTEGER: int := 0x1F_FFFF_FFFF_FFFF

  /** The integer part `modf` stores: truncation toward zero. */
  function Trunc(x: real): int {
    if x >= 0.0 then x.Floor else -((-x).Floor)
  }

  function Rint(x: real): int {
    var i := Trunc(x);
    var f := x - i as real;
    if x > 0.0 then
      i + (if f > 0.5 || (f == 0.5 && i <= MAX_EXACT_INTEGER && i % 2 != 0) then 1 else 0)
    else
      i - (if f < -0.5 || (f == -0.5 && i >= -MAX_EXACT_INTEGER && i % 2 != 0) then 1 else 0)
  }

  /** roundTiesToEven, section 4.3.1 of IEEE 754-2008. */
  predicate NearestEven(x: real, n: int) {
    var d := x - n as real;
    -0.5 <= d <= 0.5 && (d == 0.5 || d == -0.5 ==> n % 2 == 0)
  }

  /** A tie whose integer part is odd and too large for the guard; no double is one. */
  predicate UnguardedTie(x: real) {
    var i := Trunc(x);
    var f := x - i as real;
    (f == 0.5 || f == -0.5) && i % 2 != 0 && !(-MAX_EXACT_INTEGER <= i <= MAX_EXACT_INTEGER)
  }

  /** A double of integer part beyond 2^53 - 1 has no fraction. */
  predicate LikeADouble(x: real) {
    -MAX_EXACT_INTEGER <= Trunc(x) <= MAX_EXACT_INTEGER || x == Trunc(x) as real
  }

  /** The result is always within one half, and is the nearest integer, ties to even, but for the unguarded ties. */
  lemma RintRoundsToNearestEven(x: real)
    ensures -0.5 <= x - Rint(x) as real <= 0.5
    ensures NearestEven(x, Rint(x)) <==> !UnguardedTie(x)
    ensures LikeADouble(x) ==> !UnguardedTie(x)
  {
  }

  lemma NearestEvenIsMonotone(x: real, y: real, m: int, n: int)
    requires x <= y && NearestEven(x, m) && NearestEven(y, n)
    ensures m <= n
  {
  }

  /** On doubles the result is unique, fixes the integers, is odd and is monotone. */
  lemma RintOnDoubles(x: real, y: real)
    requires LikeADouble(x) && LikeADouble(y)
    ensures forall n: int | NearestEven(x, n) :: n == Rint(x)
    ensures x == x.Floor as real ==> Rint(x) as real == x
    ensures Rint(-x) == -Rint(x)
    ensures x <= y ==> Rint(x) <= Rint(y)
  {
    RintIsOdd(x);
    RintRoundsToNearestEven(x);
    RintRoundsToNearestEven(y);
    hide Rint, Trunc, UnguardedTie, LikeADouble;
    forall n: int | NearestEven(x, n) ensures n == Rint(x) {
      NearestEvenIsUnique(x, n, Rint(x));
    }
    if x == x.Floor as real {
      assert NearestEven(x, x.Floor);
    }
    if x <= y {
      NearestEvenIsMonotone(x, y, Rint(x), Rint(y));
    }
  }

  lemma NearestEvenIsUnique(x: real, m: int, n: int)
    requires NearestEven(x, m) && NearestEven(x, n)
    ensures m == n
  {
    NearestEvenIsMonotone(x, x, m, n);
    NearestEvenIsMonotone(x, x, n, m);
  }

  lemma RintIsOdd(x: real)
    ensures Rint(-x) == -Rint(x)
  {
    assert Trunc(-x) == -Trunc(x);
  }
}
