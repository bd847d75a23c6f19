/** Reversed and word-swapped byte orders: big_endian.h, little_endian.h, my_byteorder.h and the MB2 pair of
    m_ctype.h. */
module NetworkOrder {
  import opened Bytes
  import opened ByteOrder

  /** The number whose bytes, most significant first, are `s`: a native load on a big-endian machine. */
  function Be(s: seq<byte>): nat {
    Le(Reverse(s))
  }

  function BeBytes(v: int, n: nat): (s: seq<byte>)
    ensures |s| == n
  {
    Reverse(LeBytes(v, n))
  }

  lemma ReverseTwice(s: seq<byte>)
    ensures Reverse(Reverse(s)) == s
  {
  }

  lemma BeLoadStore(v: int, n: nat)
    ensures Be(BeBytes(v, n)) == v % Pow256(n)
  {
    ReverseTwice(LeBytes(v, n));
    LoadStore(v, n);
  }

  lemma BeDigits(m: seq<byte>)
    ensures |m| >= 2 ==> Be(m[..2]) == Digits(m[1], m[0], 0, 0)
    ensures |m| >= 4 ==> Be(m[..4]) == Digits(m[3], m[2], m[1], m[0])
  {
    if |m| >= 2 {
      var r := Reverse(m[..2]);
      LeUpTo3(r, 0);
      assert r[0..2] == r;
    }
    if |m| >= 4 {
      var r := Reverse(m[..4]);
      Le4(r, 0);
      assert r[0..4] == r;
    }
  }

  // ----- big_endian.h --------------------------------------------------------------------------

  function UShortGet(m: seq<byte>): (v: nat)
    requires |m| >= 2
    ensures v == Be(m[..2])
  {
    BeDigits(m);
    hide Be, Digits, AddTwo;
    AddTwo(m[1], m[0])
  }

  function ShortGet(m: seq<byte>): (v: int)
    requires |m| >= 2
    ensures v == Signed(Be(m[..2]), 2)
  {
    BeDigits(m);
    hide Be, Digits, Signed, AddTwo;
    Signed(AddTwo(m[1], m[0]), 2)
  }

  /** Four bytes copied into a native variable, then read. */
  function ULongGet(m: seq<byte>): nat
    requires |m| >= 4
  {
    Be([m[0], m[1], m[2], m[3]])
  }

  method ShortStore(t: array<byte>, off: nat, a: int)
    requires off + 2 <= t.Length
    modifies t
    ensures t[..] == Splice(old(t[..]), off, BeBytes(a, 2))
  {
    var temp := a % U32;
    t[off + 1] := temp % 256;
    t[off] := temp / 0x100 % 256;
    Powers();
    LeBytesOfMod(a, 4, 2);
    LeBytesAt(temp, 2, 0);
    LeBytesAt(temp, 2, 1);
    SpliceIs(old(t[..]), t[..], off, BeBytes(a, 2));
  }

  method LongStore(t: array<byte>, off: nat, a: int)
    requires off + 4 <= t.Length
    modifies t
    ensures t[..] == Splice(old(t[..]), off, BeBytes(a, 4))
  {
    t[off + 3] := a % 256;
    t[off + 2] := a / 0x100 % 256;
    t[off + 1] := a / 0x1_0000 % 256;
    t[off] := a / 0x100_0000 % 256;
    Powers();
    LeBytesAt(a, 4, 0);
    LeBytesAt(a, 4, 1);
    LeBytesAt(a, 4, 2);
    LeBytesAt(a, 4, 3);
    SpliceIs(old(t[..]), t[..], off, BeBytes(a, 4));
  }

  /** `native` is the in-memory representation of a float on a big-endian machine. */
  method Float4Store(t: array<byte>, off: nat, native: seq<byte>)
    requires |native| == 4 && off + 4 <= t.Length
    modifies t
    ensures t[..] == Splice(old(t[..]), off, Reverse(native)) && Float4Get(t[off..]) == native
  {
    t[off] := native[3];
    t[off + 1] := native[2];
    t[off + 2] := native[1];
    t[off + 3] := native[0];
    SpliceIs(old(t[..]), t[..], off, Reverse(native));
    FloatRoundTrip(old(t[..]), off, native);
    assert t[..][off..] == t[off..];
  }

  function Float4Get(m: seq<byte>): (native: seq<byte>)
    requires |m| >= 4
  {
    [m[3], m[2], m[1], m[0]]
  }

  method Float8Store(t: array<byte>, off: nat, native: seq<byte>)
    requires |native| == 8 && off + 8 <= t.Length
    modifies t
    ensures t[..] == Splice(old(t[..]), off, Reverse(native)) && Float8Get(t[off..]) == native
  {
    t[off], t[off + 1], t[off + 2], t[off + 3] := native[7], native[6], native[5], native[4];
    t[off + 4], t[off + 5], t[off + 6], t[off + 7] := native[3], native[2], native[1], native[0];
    SpliceIs(old(t[..]), t[..], off, Reverse(native));
    FloatRoundTrip(old(t[..]), off, native);
    assert t[..][off..] == t[off..];
  }

  function Float8Get(m: seq<byte>): (native: seq<byte>)
    requires |m| >= 8
  {
    [m[7], m[6], m[5], m[4], m[3], m[2], m[1], m[0]]
  }

  // ----- little_endian.h: doubles whose two words are stored the other way round ----------------

  function SwapWords(s: seq<byte>): seq<byte>
    requires |s| == 8
  {
    s[4..] + s[..4]
  }

  method DoubleStoreSwapped(t: array<byte>, off: nat, native: seq<byte>)
    requires |native| == 8 && off + 8 <= t.Length
    modifies t
    ensures t[..] == Splice(old(t[..]), off, SwapWords(native)) && DoubleGetSwapped(t[off..]) == native
  {
    t[off], t[off + 1], t[off + 2], t[off + 3] := native[4], native[5], native[6], native[7];
    t[off + 4], t[off + 5], t[off + 6], t[off + 7] := native[0], native[1], native[2], native[3];
    SpliceIs(old(t[..]), t[..], off, SwapWords(native));
    FloatRoundTrip(old(t[..]), off, native);
    assert t[..][off..] == t[off..];
  }

  function DoubleGetSwapped(m: seq<byte>): (native: seq<byte>)
    requires |m| >= 8
  {
    [m[4], m[5], m[6], m[7], m[0], m[1], m[2], m[3]]
  }

  // ----- int4net -------------------------------------------------------------------------------

  lemma {:induction false} OrCommutes(x: nat, y: nat)
    ensures Or(x, y) == Or(y, x)
    decreases x + y
  {
    if x != 0 && y != 0 {
      OrCommutes(x / 2, y / 2);
    }
  }

  /** The same bytes OR-ed from the low end. */
  function OrFromLow(a: nat, b: nat, c: nat, d: nat): nat {
    Or(Or(Or(a, b * 0x100), c * 0x1_0000), d * 0x100_0000)
  }

  lemma OrFromLowIsSum(a: nat, b: nat, c: nat, d: nat)
    requires a < 256 && b < 256 && c < 256 && d < 256
    ensures OrFromLow(a, b, c, d) == Digits(a, b, c, d)
  {
    hide Or;
    OrCommutes(a, b * 0x100);
    OrInPlace(b, 8, 0x100, a);
    OrCommutes(a + b * 0x100, c * 0x1_0000);
    OrInPlace(c, 16, 0x1_0000, a + b * 0x100);
    OrCommutes(a + b * 0x100 + c * 0x1_0000, d * 0x100_0000);
    OrInPlace(d, 24, 0x100_0000, a + b * 0x100 + c * 0x1_0000);
  }

  function Int4Net(a: seq<byte>): (r: int)
    requires |a| >= 4
    ensures r == Signed(Be(a[..4]), 4)
  {
    BeDigits(a);
    OrFromLowIsSum(a[3], a[2], a[1], a[0]);
    Signed(OrFromLow(a[3], a[2], a[1], a[0]), 4)
  }

  // ----- Inverses ------------------------------------------------------------------------------

  /** What the big-endian stores write, the loads read back; `int4net` reads the same long on any machine. */
  lemma BigEndianRoundTrip(s: seq<byte>, off: nat, v: int)
    ensures off + 2 <= |s| ==> UShortGet(Splice(s, off, BeBytes(v, 2))[off..]) == v % U16
    ensures off + 2 <= |s| && -0x8000 <= v < 0x8000 ==> ShortGet(Splice(s, off, BeBytes(v, 2))[off..]) == v
    ensures off + 4 <= |s| ==> ULongGet(Splice(s, off, BeBytes(v, 4))[off..]) == v % U32
    ensures off + 4 <= |s| && -0x8000_0000 <= v < 0x8000_0000 ==> Int4Net(Splice(s, off, BeBytes(v, 4))[off..]) == v
  {
    Powers();
    BeLoadStore(v, 2);
    BeLoadStore(v, 4);
    if off + 2 <= |s| {
      var m := Splice(s, off, BeBytes(v, 2))[off..];
      assert m[..2] == BeBytes(v, 2);
      if -0x8000 <= v < 0x8000 {
        LoadStore(v, 2);
        SignedLoadStore(v, 2);
      }
    }
    if off + 4 <= |s| {
      var m := Splice(s, off, BeBytes(v, 4))[off..];
      assert m[..4] == BeBytes(v, 4) == [m[0], m[1], m[2], m[3]];
      if -0x8000_0000 <= v < 0x8000_0000 {
        LoadStore(v, 4);
        SignedLoadStore(v, 4);
      }
    }
  }

  /** `int4net` is `uint4korr` of the reversed bytes, modulo 2^32. */
  lemma Int4NetReversesUint4Korr(arch: Arch, a: seq<byte>)
    requires |a| >= 4
    ensures Int4Net(a) % U32 == Uint4Korr(arch, Reverse(a[..4]))
  {
    var r := Reverse(a[..4]);
    Powers();
    LeBound(r);
    assert r[..4] == r;
    var v := Le(r);
    DivMod(Int4Net(a), U32, if v < 0x8000_0000 then 0 else -1, v);
  }

  /** The floating-point stores lose nothing. */
  lemma FloatRoundTrip(s: seq<byte>, off: nat, native: seq<byte>)
    ensures |native| == 4 && off + 4 <= |s| ==> Float4Get(Splice(s, off, Reverse(native))[off..]) == native
    ensures |native| == 8 && off + 8 <= |s| ==> Float8Get(Splice(s, off, Reverse(native))[off..]) == native
    ensures |native| == 8 && off + 8 <= |s| ==> DoubleGetSwapped(Splice(s, off, SwapWords(native))[off..]) == native
  {
    if |native| == 4 && off + 4 <= |s| {
      var m := Splice(s, off, Reverse(native))[off..];
      assert m[..4] == Reverse(native);
      assert forall i | 0 <= i < 4 :: m[i] == m[..4][i];
    }
    if |native| == 8 && off + 8 <= |s| {
      var m := Splice(s, off, Reverse(native))[off..];
      assert m[..8] == Reverse(native);
      assert forall i | 0 <= i < 8 :: m[i] == m[..8][i];
      var w := Splice(s, off, SwapWords(native))[off..];
      assert w[..8] == SwapWords(native);
      assert forall i | 0 <= i < 8 :: w[i] == w[..8][i];
    }
  }

  // ----- MB2 and MY_PUT_MB2 --------------------------------------------------------------------

  function Mb2(i386: bool, x: nat): nat {
    if i386 then x / 0x100 + And(x, 0xFF) * 0x100 else x
  }

  /** The two bytes MY_PUT_MB2 writes. */
  function PutMb2Bytes(i386: bool, code: nat): seq<byte> {
    if i386 then LeBytes(code % U16, 2) else [code / 0x100 % 256, And(code, 0xFF) % 256]
  }

  method PutMb2(i386: bool, s: array<byte>, off: nat, code: nat)
    requires off + 2 <= s.Length
    modifies s
    ensures s[..] == Splice(old(s[..]), off, PutMb2Bytes(i386, code))
  {
    if i386 {
      StoreWord(s, off, code % U16, 2);
    } else {
      s[off] := code / 0x100 % 256;
      s[off + 1] := And(code, 0xFF) % 256;
      SpliceIs(old(s[..]), s[..], off, PutMb2Bytes(i386, code));
    }
  }

  /** Both platforms lay down the high byte then the low byte, exactly for codes without bits 16 to 23. */
  lemma Mb2PlatformsAgree(x: nat)
    ensures PutMb2Bytes(false, Mb2(false, x)) == [x / 0x100 % 256, x % 256]
    ensures PutMb2Bytes(true, Mb2(true, x)) == PutMb2Bytes(false, Mb2(false, x)) <==> x / 0x1_0000 % 256 == 0
  {
    var code := Mb2(true, x);
    Mb2Value(x);
    LowTwoBytes(code);
    hide And, LeBytes, Pow2, Pow256;
    SwappedDigits(x / 0x100, x % 256, code);
    DivDiv(x, 0x100);
  }

  lemma SwappedDigits(hi: nat, lo: nat, code: nat)
    requires lo < 256 && code == hi + lo * 0x100
    ensures code % 256 == hi % 256 && code / 256 == hi / 256 + lo
    ensures code / 256 % 256 == lo <==> hi / 256 % 256 == 0
  {
    DivMod(code, 256, hi / 256 + lo, hi % 256);
    var r := hi / 256 % 256;
    DivMod(hi / 256 + lo, 256, hi / 256 / 256 + (r + lo) / 256, (r + lo) % 256);
  }

  /** Writing a code through the pair lays down high byte then low byte, and nothing else, exactly when the other
      platform's form is used or bits 16 to 23 are zero. */
  method StoreMb2(i386: bool, s: array<byte>, off: nat, x: nat)
    requires off + 2 <= s.Length
    modifies s
    ensures s[..] == Splice(old(s[..]), off, [x / 0x100 % 256, x % 256]) <==> !i386 || x / 0x1_0000 % 256 == 0
    ensures s[..off] == old(s[..off]) && s[off + 2..] == old(s[off + 2..])
  {
    PutMb2(i386, s, off, Mb2(i386, x));
    Mb2PlatformsAgree(x);
    ghost var was := old(s[..]);
    assert s[..][off..off + 2] == PutMb2Bytes(i386, Mb2(i386, x));
    assert Splice(was, off, [x / 0x100 % 256, x % 256])[off..off + 2] == [x / 0x100 % 256, x % 256];
    assert s[..off] == s[..][..off] && s[off + 2..] == s[..][off + 2..];
  }

  lemma Mb2Value(x: nat)
    ensures And(x, 0xFF) == x % 256
  {
    PowersOfTwo();
    AndLowMask(x, 8);
  }

  lemma LowTwoBytes(code: nat)
    ensures LeBytes(code % U16, 2) == [code % 256, code / 256 % 256]
  {
    Powers();
    LeBytesOfMod(code, 2, 2);
    LeBytesAt(code, 2, 0);
    LeBytesAt(code, 2, 1);
  }
}
