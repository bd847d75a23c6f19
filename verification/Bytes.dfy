/** Bytes, little-endian numbers of any length, and bitwise operators on unsigned integers. */
module Bytes {
  type byte = x: int | 0 <= x < 256

  const U16: nat := 0x1_0000
  const U32: nat := 0x1_0000_0000
  const U64: nat := 0x1_0000_0000_0000_0000

  function Pow256(n: nat): (p: nat)
    ensures p >= 1
  {
    if n == 0 then 1 else 256 * Pow256(n - 1)
  }

  lemma Powers()
    ensures Pow256(1) == 0x100 && Pow256(2) == 0x1_0000 && Pow256(3) == 0x100_0000 && Pow256(4) == 0x1_0000_0000
    ensures Pow256(5) == 0x100_0000_0000 && Pow256(6) == 0x1_0000_0000_0000
    ensures Pow256(7) == 0x100_0000_0000_0000 && Pow256(8) == 0x1_0000_0000_0000_0000
  {
    assert Pow256(2) == 256 * Pow256(1);
    assert Pow256(3) == 256 * Pow256(2);
    assert Pow256(4) == 256 * Pow256(3);
    assert Pow256(5) == 256 * Pow256(4);
    assert Pow256(6) == 256 * Pow256(5);
    assert Pow256(7) == 256 * Pow256(6);
  }

  /** The number whose bytes, least significant first, are `s`. */
  function Le(s: seq<byte>): (v: nat)
  {
    if s == [] then 0 else s[0] + 256 * Le(s[1..])
  }

  /** The `n` low bytes of `v`, least significant first; two's complement when `v` is negative. */
  function LeBytes(v: int, n: nat): (s: seq<byte>)
    ensures |s| == n
    decreases n
  {
    if n == 0 then [] else [v % 256] + LeBytes(v / 256, n - 1)
  }

  lemma {:induction false} LeBound(s: seq<byte>)
    ensures Le(s) < Pow256(|s|)
  {
    if s != [] {
      LeBound(s[1..]);
    }
  }

  lemma MultipleOutside(d: int, m: int)
    requires m > 0 && d != 0
    ensures d * m >= m || d * m <= -m
  {
    if d > 0 {
      assert (d - 1) * m >= 0;
    } else {
      assert (-1 - d) * m >= 0;
    }
  }

  lemma DivMod(v: int, m: int, q: int, r: int)
    requires m > 0 && 0 <= r < m && v == q * m + r
    ensures v / m == q && v % m == r
  {
    var d := q - v / m;
    assert d * m == v % m - r;
    if d != 0 {
      MultipleOutside(d, m);
    }
  }

  /** Dividing out one byte at a time is dividing once. */
  lemma DivDiv(v: int, m: int)
    requires m > 0
    ensures v / 256 / m == v / (256 * m)
    ensures v % (256 * m) == v % 256 + 256 * (v / 256 % m)
  {
    var q, r := v / 256 / m, v / 256 % m;
    assert v / 256 == q * m + r;
    assert v == q * (256 * m) + (256 * r + v % 256) by {
      assert 256 * (q * m) == q * (256 * m);
    }
    DivMod(v, 256 * m, q, 256 * r + v % 256);
  }

  /** Storing then loading keeps the value modulo 256^n. */
  lemma {:induction false} LoadStore(v: int, n: nat)
    ensures Le(LeBytes(v, n)) == v % Pow256(n)
    decreases n
  {
    if n > 0 {
      LoadStore(v / 256, n - 1);
      DivDiv(v, Pow256(n - 1));
      assert LeBytes(v, n)[1..] == LeBytes(v / 256, n - 1);
    }
  }

  /** Loading then storing gives back the bytes. */
  lemma {:induction false} StoreLoad(s: seq<byte>)
    ensures LeBytes(Le(s), |s|) == s
  {
    if s != [] {
      StoreLoad(s[1..]);
      DivMod(Le(s), 256, Le(s[1..]), s[0]);
      hide Le;
      assert s == [s[0]] + s[1..];
    }
  }

  lemma LeInjective(a: seq<byte>, b: seq<byte>)
    requires |a| == |b| && Le(a) == Le(b)
    ensures a == b
  {
    StoreLoad(a);
    StoreLoad(b);
  }

  lemma {:induction false} LeConcat(a: seq<byte>, b: seq<byte>)
    ensures Le(a + b) == Le(a) + Pow256(|a|) * Le(b)
  {
    if a == [] {
      assert a + b == b;
    } else {
      LeConcat(a[1..], b);
      assert (a + b)[1..] == a[1..] + b;
      assert 256 * (Pow256(|a| - 1) * Le(b)) == Pow256(|a|) * Le(b);
    }
  }

  lemma {:induction false} LeBytesConcat(v: int, m: nat, n: nat)
    ensures LeBytes(v, m + n) == LeBytes(v, m) + LeBytes(v / Pow256(m), n)
    decreases m
  {
    if m > 0 {
      LeBytesConcat(v / 256, m - 1, n);
      DivDiv(v, Pow256(m - 1));
    }
  }

  /** Reducing the value to `m` bytes first does not change its `n` low bytes. */
  lemma {:induction false} LeBytesOfMod(v: int, m: nat, n: nat)
    requires n <= m
    ensures LeBytes(v % Pow256(m), n) == LeBytes(v, n)
    decreases n
  {
    if n > 0 {
      var p := Pow256(m - 1);
      DivDiv(v, p);
      assert v % Pow256(m) == (v / 256 % p) * 256 + v % 256;
      DivMod(v % Pow256(m), 256, v / 256 % p, v % 256);
      LeBytesOfMod(v / 256, m - 1, n - 1);
    }
  }

  /** The two's complement reading of an n-byte unsigned value. */
  function Signed(v: nat, n: nat): int
    requires n > 0
  {
    if v < 128 * Pow256(n - 1) then v else v - Pow256(n)
  }

  lemma SignedLoadStore(v: int, n: nat)
    requires n > 0 && -128 * Pow256(n - 1) <= v < 128 * Pow256(n - 1)
    ensures Signed(Le(LeBytes(v, n)), n) == v
  {
    LoadStore(v, n);
    if v < 0 {
      DivMod(v, Pow256(n), -1, v + Pow256(n));
    } else {
      DivMod(v, Pow256(n), 0, v);
    }
  }

  function Reverse(s: seq<byte>): (r: seq<byte>)
    ensures |r| == |s| && forall i | 0 <= i < |s| :: r[i] == s[|s| - 1 - i]
  {
    seq(|s|, i requires 0 <= i < |s| => s[|s| - 1 - i])
  }

  /** `bytes` written over `s` at `off`. */
  function Splice(s: seq<byte>, off: nat, bytes: seq<byte>): (r: seq<byte>)
    requires off + |bytes| <= |s|
    ensures |r| == |s| && r[off..off + |bytes|] == bytes
    ensures forall i | 0 <= i < |s| && !(off <= i < off + |bytes|) :: r[i] == s[i]
  {
    s[..off] + bytes + s[off + |bytes|..]
  }

  // ----- Bitwise operators ---------------------------------------------------------------------

  function And(x: nat, y: nat): nat {
    if x == 0 then 0 else (x % 2) * (y % 2) + 2 * And(x / 2, y / 2)
  }

  function Or(x: nat, y: nat): nat
    decreases x + y
  {
    if x == 0 then y else if y == 0 then x
    else (if x % 2 + y % 2 == 0 then 0 else 1) + 2 * Or(x / 2, y / 2)
  }

  function Pow2(k: nat): (p: nat)
    ensures p >= 1
  {
    if k == 0 then 1 else 2 * Pow2(k - 1)
  }

  /** Halving a number and its modulus together. */
  lemma HalfMod(x: nat, m: nat)
    requires m >= 1
    ensures x / 2 / m == x / (2 * m)
    ensures x % (2 * m) == x % 2 + 2 * (x / 2 % m)
  {
    var q, r := x / 2 / m, x / 2 % m;
    assert x / 2 == q * m + r;
    assert x == q * (2 * m) + (2 * r + x % 2) by {
      assert 2 * (q * m) == q * (2 * m);
    }
    DivMod(x, 2 * m, q, 2 * r + x % 2);
  }

  /** Masking with 2^k - 1 keeps the remainder. */
  lemma {:induction false} AndLowMask(x: nat, k: nat)
    ensures And(x, Pow2(k) - 1) == x % Pow2(k)
    decreases k
  {
    if k == 0 {
      AndZero(x);
    } else {
      var m := Pow2(k - 1);
      HalfMod(x, m);
      AndLowMask(x / 2, k - 1);
      assert (2 * m - 1) / 2 == m - 1 && (2 * m - 1) % 2 == 1;
    }
  }

  lemma AndZero(x: nat)
    ensures And(x, 0) == 0
  {
  }

  lemma {:induction false} AndOneBit(x: nat, k: nat)
    ensures And(x, Pow2(k)) == x / Pow2(k) % 2 * Pow2(k)
    decreases k
  {
    if k == 0 {
      AndLowMask(x, 1);
    } else {
      var m := Pow2(k - 1);
      AndOneBit(x / 2, k - 1);
      HalfMod(x, m);
      var b := x / (2 * m) % 2;
      assert b == 0 || b == 1;
    }
  }

  /** Masking with ~(2^k - 1) at any width clears the remainder. */
  lemma {:induction false} AndHighMask(x: nat, k: nat, w: nat)
    requires k <= w && x < Pow2(w)
    ensures Pow2(k) <= Pow2(w)
    ensures And(x, Pow2(w) - Pow2(k)) == x - x % Pow2(k)
    decreases k, w
  {
    if k > 0 {
      var m, n := Pow2(k - 1), Pow2(w - 1);
      HalfMod(x, m);
      AndHighMask(x / 2, k - 1, w - 1);
      assert (2 * n - 2 * m) / 2 == n - m && (2 * n - 2 * m) % 2 == 0;
    } else if w > 0 {
      AndLowMask(x, w);
      Pow2Monotone(0, w);
      SmallMod(x, Pow2(w));
    }
  }

  lemma SmallMod(x: nat, m: nat)
    requires x < m
    ensures x % m == x
  {
  }

  lemma {:induction false} Pow2Monotone(a: nat, b: nat)
    requires a <= b
    ensures Pow2(a) <= Pow2(b)
    decreases b
  {
    if a < b {
      Pow2Monotone(a, b - 1);
    }
  }

  /** OR of numbers with no bit in common is their sum. */
  lemma {:induction false} OrIsSum(x: nat, y: nat, k: nat)
    requires x % Pow2(k) == 0 && y < Pow2(k)
    ensures Or(x, y) == x + y
    decreases k
  {
    if x != 0 && y != 0 {
      var m := Pow2(k - 1);
      HalfMod(x, m);
      OrIsSum(x / 2, y / 2, k - 1);
    }
  }
}
