/** The integer load and store macros of byte_order_generic.h, byte_order_generic_x86.h and
    byte_order_generic_x86_64.h. */
module ByteOrder {
  import opened Bytes

  /** Which of the three headers my_byteorder.h includes. */
  datatype Arch = Generic | X86 | X64

  // ----- Unfolding the n-byte theory at the widths the macros use ------------------------------

  /** Four base-256 digits. */
  function Digits(b0: int, b1: int, b2: int, b3: int): int {
    b0 + 0x100 * b1 + 0x1_0000 * b2 + 0x100_0000 * b3
  }

  lemma LeStep(a: seq<byte>, i: nat, j: nat)
    requires i < j <= |a|
    ensures Le(a[i..j]) == a[i] + 256 * Le(a[i + 1..j])
  {
    assert a[i..j][1..] == a[i + 1..j];
  }

  lemma LeUpTo3(a: seq<byte>, i: nat)
    ensures i + 1 <= |a| ==> Le(a[i..i + 1]) == a[i]
    ensures i + 2 <= |a| ==> Le(a[i..i + 2]) == Digits(a[i], a[i + 1], 0, 0)
    ensures i + 3 <= |a| ==> Le(a[i..i + 3]) == Digits(a[i], a[i + 1], a[i + 2], 0)
  {
    hide Le;
    if i + 1 <= |a| {
      LeOne(a, i);
    }
    if i + 2 <= |a| {
      LeStep(a, i, i + 2);
      LeOne(a, i + 1);
    }
    if i + 3 <= |a| {
      LeStep(a, i, i + 3);
      LeStep(a, i + 1, i + 3);
      LeOne(a, i + 2);
    }
  }

  lemma LeOne(a: seq<byte>, i: nat)
    requires i < |a|
    ensures Le(a[i..i + 1]) == a[i]
  {
    LeStep(a, i, i + 1);
    assert a[i + 1..i + 1] == [];
  }

  lemma Le4(a: seq<byte>, i: nat)
    requires i + 4 <= |a|
    ensures Le(a[i..i + 4]) == Digits(a[i], a[i + 1], a[i + 2], a[i + 3])
  {
    hide Le;
    LeStep(a, i, i + 4);
    LeUpTo3(a, i + 1);
  }

  /** A number of more than four bytes from its low four and the rest. */
  lemma LeHighPart(a: seq<byte>, n: nat)
    requires 4 <= n <= |a|
    ensures Le(a[..n]) == Le(a[..4]) + U32 * Le(a[4..n])
  {
    LeConcat(a[..4], a[4..n]);
    assert a[..n] == a[..4] + a[4..n];
    Powers();
    hide Le, Pow256;
  }

  lemma PowersOfTwo()
    ensures Pow2(7) == 0x80 && Pow2(8) == 0x100 && Pow2(16) == 0x1_0000 && Pow2(24) == 0x100_0000
  {
    assert Pow2(4) == 0x10 && Pow2(7) == 0x80 && Pow2(12) == 0x1000;
    assert Pow2(16) == 0x1_0000 && Pow2(20) == 0x10_0000;
  }

  lemma {:induction false} LeBytesAt(v: int, n: nat, i: nat)
    requires i < n
    ensures LeBytes(v, n)[i] == v / Pow256(i) % 256
    decreases n
  {
    if i > 0 {
      LeBytesAt(v / 256, n - 1, i - 1);
      DivDiv(v, Pow256(i - 1));
    }
  }

  // ----- Loads ---------------------------------------------------------------------------------

  /** An aligned or unaligned n-byte load on a little-endian machine. */
  function LoadWord(a: seq<byte>, n: nat): nat
    requires n <= |a|
  {
    Le(a[..n])
  }

  predicate AreBytes(b0: int, b1: int, b2: int, b3: int) {
    0 <= b0 < 256 && 0 <= b1 < 256 && 0 <= b2 < 256 && 0 <= b3 < 256
  }

  /** Two bytes added up in 16-bit unsigned arithmetic. */
  function AddTwo(b0: int, b1: int): (r: nat)
    requires AreBytes(b0, b1, 0, 0)
    ensures r == Digits(b0, b1, 0, 0) < U16
  {
    (b0 + b1 * 0x100 % U16) % U16
  }

  /** Three bytes in 32-bit unsigned arithmetic. */
  function AddThree(b0: int, b1: int, b2: int): (r: nat)
    requires AreBytes(b0, b1, b2, 0)
    ensures r == Digits(b0, b1, b2, 0) < 0x100_0000
  {
    (b0 + b1 * 0x100 % U32 + b2 * 0x1_0000 % U32) % U32
  }

  /** Four bytes in 32-bit unsigned arithmetic. */
  function AddFour(b0: int, b1: int, b2: int, b3: int): (r: nat)
    requires AreBytes(b0, b1, b2, b3)
    ensures r == Digits(b0, b1, b2, b3) < U32
  {
    (b0 + b1 * 0x100 % U32 + b2 * 0x1_0000 % U32 + b3 * 0x100_0000 % U32) % U32
  }

  /** The low half and two more bytes in 64-bit unsigned arithmetic. */
  function AddHigh(low: nat, b4: int, b5: int): (r: nat)
    requires low < U32 && AreBytes(b4, b5, 0, 0)
    ensures r == low + U32 * Digits(b4, b5, 0, 0)
  {
    SmallMod(b4 * U32, U64);
    SmallMod(b5 * 0x100_0000_0000, U64);
    SmallMod(low + b4 * U32 + b5 * 0x100_0000_0000, U64);
    (low + b4 * U32 % U64 + b5 * 0x100_0000_0000 % U64) % U64
  }

  /** Both halves in 64-bit unsigned arithmetic. */
  function AddHalves(low: nat, high: nat): (r: nat)
    requires low < U32 && high < U32
    ensures r == low + U32 * high
  {
    (low + high * U32 % U64) % U64
  }

  /** `(uint32) a[i] + ... ` over four bytes. */
  function Sum4(a: seq<byte>, i: nat): (r: nat)
    requires i + 4 <= |a|
    ensures r == Le(a[i..i + 4]) < U32
  {
    Le4(a, i);
    hide Le, Digits, AddFour;
    AddFour(a[i], a[i + 1], a[i + 2], a[i + 3])
  }

  function Uint2Korr(arch: Arch, a: seq<byte>): (r: nat)
    requires |a| >= 2
    ensures r == Le(a[..2])
  {
    LeUpTo3(a, 0);
    hide Le, Digits, AddTwo;
    if arch.Generic? then AddTwo(a[0], a[1]) else LoadWord(a, 2)
  }

  /** The byte-by-byte form of `uint3korr`. */
  function Uint3KorrSum(a: seq<byte>): (r: nat)
    requires |a| >= 3
    ensures r == Le(a[..3])
  {
    LeUpTo3(a, 0);
    hide Le, Digits, AddThree;
    AddThree(a[0], a[1], a[2])
  }

  /** The x86 form reads four bytes and masks one away. */
  function Uint3KorrMask(a: seq<byte>): (r: nat)
    requires |a| >= 4
    ensures r == Le(a[..3])
  {
    MaskedWord(a);
    And(LoadWord(a, 4), 0xFF_FFFF)
  }

  function Uint3Korr(arch: Arch, a: seq<byte>): (r: nat)
    requires |a| >= Extent(arch, 3)
    ensures r == Le(a[..3])
  {
    if arch.Generic? then Uint3KorrSum(a) else Uint3KorrMask(a)
  }

  /** Whatever the fourth byte holds, the mask leaves the three-byte sum. */
  lemma MaskedWord(a: seq<byte>)
    requires |a| >= 4
    ensures And(Le(a[..4]), 0xFF_FFFF) == Le(a[..3])
  {
    hide *;
    PowersOfTwo();
    AndLowMask(Le(a[..4]), 24);
    FourthDigit(a);
  }

  lemma FourthDigit(a: seq<byte>)
    requires |a| >= 4
    ensures Le(a[..4]) % 0x100_0000 == Le(a[..3])
  {
    Le4(a, 0);
    LeUpTo3(a, 0);
    hide Le;
    DivMod(Le(a[..4]), 0x100_0000, a[3], Le(a[..3]));
  }

  function Uint4Korr(arch: Arch, a: seq<byte>): (r: nat)
    requires |a| >= 4
    ensures r == Le(a[..4])
  {
    if arch.Generic? then Sum4(a, 0) else LoadWord(a, 4)
  }

  function Uint5Korr(arch: Arch, a: seq<byte>): (r: nat)
    requires |a| >= 5
    ensures r == Le(a[..5])
  {
    LeHighPart(a, 5);
    LeUpTo3(a, 4);
    hide Le, Sum4, AddHigh;
    AddHigh(Sum4(a, 0), a[4], 0)
  }

  lemma HighTwo(a: seq<byte>)
    requires |a| >= 6
    ensures Le(a[..6]) == Le(a[..4]) + U32 * Digits(a[4], a[5], 0, 0) < U64
  {
    LeHighPart(a, 6);
    LeUpTo3(a, 4);
    Le4(a, 0);
    hide Le;
  }

  function Uint6Korr(arch: Arch, a: seq<byte>): (r: nat)
    requires |a| >= 6
    ensures r == Le(a[..6])
  {
    HighTwo(a);
    hide Le, Digits, Sum4, AddHigh;
    AddHigh(Sum4(a, 0), a[4], a[5])
  }

  function Uint8Korr(arch: Arch, a: seq<byte>): (r: nat)
    requires |a| >= 8
    ensures r == Le(a[..8])
  {
    LeHighPart(a, 8);
    hide Le, Sum4, AddHalves;
    if arch.Generic? then AddHalves(Sum4(a, 0), Sum4(a, 4)) else LoadWord(a, 8)
  }

  function Sint2Korr(arch: Arch, a: seq<byte>): (r: int)
    requires |a| >= 2
    ensures r == Signed(Le(a[..2]), 2)
  {
    LeUpTo3(a, 0);
    hide Le, Digits, Signed, AddTwo;
    if arch.Generic? then Signed(AddTwo(a[0], a[1]), 2) else Signed(LoadWord(a, 2), 2)
  }

  /** All three headers use the same text: sign extension by OR-ing in a byte of ones. */
  function Sint3Korr(a: seq<byte>): (r: int)
    requires |a| >= 3
    ensures r == Signed(Le(a[..3]), 3)
  {
    SignExtension(a);
    if And(a[2], 128) != 0
    then Signed(OrFour(255, a[2], a[1], a[0]), 4)
    else Signed(OrThree(a[2], a[1], a[0]), 4)
  }

  lemma SignedThreeAndFour(v: nat)
    requires v < 0x100_0000
    ensures Signed(v, 4) == v && Signed(v, 3) == if v < 0x80_0000 then v else v - 0x100_0000
    ensures v >= 0x80_0000 ==> Signed(0xFF00_0000 + v, 4) == v - 0x100_0000
  {
    Powers();
  }

  lemma ThreeDigits(a: seq<byte>)
    requires |a| >= 3
    ensures Le(a[..3]) == Digits(a[0], a[1], a[2], 0) < 0x100_0000
    ensures Digits(a[0], a[1], a[2], 255) == 0xFF00_0000 + Le(a[..3])
    ensures Le(a[..3]) >= 0x80_0000 <==> a[2] >= 128
  {
    LeUpTo3(a, 0);
  }

  lemma HighBit(b: byte)
    ensures And(b, 128) != 0 <==> b >= 128
  {
    PowersOfTwo();
    AndOneBit(b, 7);
  }

  lemma SignExtension(a: seq<byte>)
    requires |a| >= 3
    ensures And(a[2], 128) != 0 <==> a[2] >= 128
    ensures a[2] >= 128 ==>
              Signed(OrFour(255, a[2], a[1], a[0]), 4) == Signed(Le(a[..3]), 3)
    ensures a[2] < 128 ==>
              Signed(OrThree(a[2], a[1], a[0]), 4) == Signed(Le(a[..3]), 3)
  {
    hide *;
    HighBit(a[2]);
    OrBytes(255, a[2], a[1], a[0]);
    ThreeDigits(a);
    SignedThreeAndFour(Le(a[..3]));
  }

  function OrFour(d: nat, c: nat, b: nat, a: nat): nat {
    Or(Or(Or(d * 0x100_0000, c * 0x1_0000), b * 0x100), a)
  }

  function OrThree(c: nat, b: nat, a: nat): nat {
    Or(Or(c * 0x1_0000, b * 0x100), a)
  }

  /** Bytes OR-ed together at their own places are added. */
  lemma OrBytes(d: nat, c: nat, b: nat, a: nat)
    requires d < 256 && c < 256 && b < 256 && a < 256
    ensures OrFour(d, c, b, a) == Digits(a, b, c, d)
    ensures OrThree(c, b, a) == Digits(a, b, c, 0)
  {
    hide Or;
    OrInPlace(d, 24, 0x100_0000, c * 0x1_0000);
    OrInPlace(d * 0x100 + c, 16, 0x1_0000, b * 0x100);
    OrInPlace(d * 0x1_0000 + c * 0x100 + b, 8, 0x100, a);
    OrInPlace(c, 16, 0x1_0000, b * 0x100);
    OrInPlace(c * 0x100 + b, 8, 0x100, a);
  }

  lemma OrInPlace(high: nat, k: nat, m: nat, low: nat)
    requires k in {8, 16, 24} && m == (if k == 8 then 0x100 else if k == 16 then 0x1_0000 else 0x100_0000)
    requires low < m
    ensures Or(high * m, low) == high * m + low
  {
    PowersOfTwo();
    DivMod(high * m, m, high, 0);
    OrIsSum(high * m, low, k);
  }

  function Sint4Korr(arch: Arch, a: seq<byte>): (r: int)
    requires |a| >= 4
    ensures r == Signed(Le(a[..4]), 4)
  {
    Signed(Uint4Korr(arch, a), 4)
  }

  function Sint8Korr(arch: Arch, a: seq<byte>): (r: int)
    requires |a| >= 8
    ensures r == Signed(Le(a[..8]), 8)
  {
    Signed(Uint8Korr(arch, a), 8)
  }

  // ----- Stores --------------------------------------------------------------------------------

  lemma SpliceIs(before: seq<byte>, after: seq<byte>, off: nat, bytes: seq<byte>)
    requires off + |bytes| <= |before| == |after|
    requires forall i | 0 <= i < |bytes| :: after[off + i] == bytes[i]
    requires forall i | 0 <= i < |before| && !(off <= i < off + |bytes|) :: after[i] == before[i]
    ensures after == Splice(before, off, bytes)
  {
    var s := Splice(before, off, bytes);
    forall i | 0 <= i < |after| ensures after[i] == s[i] {
      if off <= i < off + |bytes| {
        assert s[off..off + |bytes|][i - off] == s[i];
        assert after[off + (i - off)] == bytes[i - off];
      }
    }
  }

  /** An n-byte machine store on a little-endian machine. */
  method StoreWord(t: array<byte>, off: nat, v: nat, n: nat)
    requires off + n <= t.Length
    modifies t
    ensures t[..] == Splice(old(t[..]), off, LeBytes(v, n))
  {
    var bytes := LeBytes(v, n);
    forall i | 0 <= i < n {
      t[off + i] := bytes[i];
    }
    SpliceIs(old(t[..]), t[..], off, bytes);
  }

  method Int2Store(arch: Arch, t: array<byte>, off: nat, v: int)
    requires off + 2 <= t.Length
    modifies t
    ensures t[..] == Splice(old(t[..]), off, LeBytes(v, 2))
  {
    Powers();
    if arch.Generic? {
      var temp := v % U32;
      t[off] := temp % 256;
      t[off + 1] := temp / 256 % 256;
      LeBytesOfMod(v, 4, 2);
      LeBytesAt(temp, 2, 0);
      LeBytesAt(temp, 2, 1);
      SpliceIs(old(t[..]), t[..], off, LeBytes(v, 2));
    } else {
      LeBytesOfMod(v, 2, 2);
      StoreWord(t, off, v % U16, 2);
    }
  }

  method Int3Store(arch: Arch, t: array<byte>, off: nat, v: int)
    requires off + 3 <= t.Length
    modifies t
    ensures t[..] == Splice(old(t[..]), off, LeBytes(v, 3))
  {
    Powers();
    t[off] := v % 256;
    t[off + 1] := if arch.Generic? then v / 0x100 % 256 else v % U32 / 0x100 % 256;
    t[off + 2] := v / 0x1_0000 % 256;
    LeBytesOfMod(v, 4, 3);
    LeBytesAt(v % U32, 3, 1);
    LeBytesAt(v, 3, 0);
    LeBytesAt(v, 3, 1);
    LeBytesAt(v, 3, 2);
    SpliceIs(old(t[..]), t[..], off, LeBytes(v, 3));
  }

  method Int4Store(arch: Arch, t: array<byte>, off: nat, v: int)
    requires off + 4 <= t.Length
    modifies t
    ensures t[..] == Splice(old(t[..]), off, LeBytes(v, 4))
  {
    Powers();
    if arch.Generic? {
      t[off] := v % 256;
      t[off + 1] := v / 0x100 % 256;
      t[off + 2] := v / 0x1_0000 % 256;
      t[off + 3] := v / 0x100_0000 % 256;
      LeBytesAt(v, 4, 0);
      LeBytesAt(v, 4, 1);
      LeBytesAt(v, 4, 2);
      LeBytesAt(v, 4, 3);
      SpliceIs(old(t[..]), t[..], off, LeBytes(v, 4));
    } else {
      LeBytesOfMod(v, 4, 4);
      StoreWord(t, off, v % U32, 4);
    }
  }

  method Int5Store(t: array<byte>, off: nat, v: int)
    requires off + 5 <= t.Length
    modifies t
    ensures t[..] == Splice(old(t[..]), off, LeBytes(v, 5))
  {
    Powers();
    t[off] := v % 256;
    t[off + 1] := v / 0x100 % 256;
    t[off + 2] := v / 0x1_0000 % 256;
    t[off + 3] := v / 0x100_0000 % 256;
    t[off + 4] := v / 0x1_0000_0000 % 256;
    forall i | 0 <= i < 5 ensures LeBytes(v, 5)[i] == v / Pow256(i) % 256 {
      LeBytesAt(v, 5, i);
    }
    SpliceIs(old(t[..]), t[..], off, LeBytes(v, 5));
  }

  method Int6Store(t: array<byte>, off: nat, v: int)
    requires off + 6 <= t.Length
    modifies t
    ensures t[..] == Splice(old(t[..]), off, LeBytes(v, 6))
  {
    Powers();
    t[off] := v % 256;
    t[off + 1] := v / 0x100 % 256;
    t[off + 2] := v / 0x1_0000 % 256;
    t[off + 3] := v / 0x100_0000 % 256;
    t[off + 4] := v / 0x1_0000_0000 % 256;
    t[off + 5] := v / 0x100_0000_0000 % 256;
    forall i | 0 <= i < 6 ensures LeBytes(v, 6)[i] == v / Pow256(i) % 256 {
      LeBytesAt(v, 6, i);
    }
    SpliceIs(old(t[..]), t[..], off, LeBytes(v, 6));
  }

  /** The generic form stores two 32-bit halves, the x86 forms one 64-bit word. */
  method Int8Store(arch: Arch, t: array<byte>, off: nat, v: int)
    requires off + 8 <= t.Length
    modifies t
    ensures t[..] == Splice(old(t[..]), off, LeBytes(v, 8))
  {
    Powers();
    ghost var before := t[..];
    if arch.Generic? {
      Int4Store(arch, t, off, v % U32);
      Int4Store(arch, t, off + 4, v / U32 % U32);
      LeBytesOfMod(v, 4, 4);
      LeBytesOfMod(v / U32, 4, 4);
      LeBytesConcat(v, 4, 4);
      SpliceSplice(before, off, LeBytes(v, 4), LeBytes(v / U32, 4));
    } else {
      LeBytesOfMod(v, 8, 8);
      StoreWord(t, off, v % U64, 8);
    }
  }

  lemma SpliceSplice(s: seq<byte>, off: nat, a: seq<byte>, b: seq<byte>)
    requires off + |a| + |b| <= |s|
    ensures Splice(Splice(s, off, a), off + |a|, b) == Splice(s, off, a + b)
  {
  }

  // ----- Round trips over fields of mixed widths -----------------------------------------------

  predicate Width(n: nat) {
    n in {2, 3, 4, 5, 6, 8}
  }

  /** How many bytes a load of an n-byte field touches. */
  function Extent(arch: Arch, n: nat): nat {
    if n == 3 && !arch.Generic? then 4 else n
  }

  function UintKorr(arch: Arch, n: nat, a: seq<byte>): (r: nat)
    requires Width(n) && |a| >= Extent(arch, n)
    ensures r == Le(a[..n])
  {
    match n
    case 2 => Uint2Korr(arch, a)
    case 3 => Uint3Korr(arch, a)
    case 4 => Uint4Korr(arch, a)
    case 5 => Uint5Korr(arch, a)
    case 6 => Uint6Korr(arch, a)
    case _ => Uint8Korr(arch, a)
  }

  method IntStore(arch: Arch, n: nat, t: array<byte>, off: nat, v: int)
    requires Width(n) && off + n <= t.Length
    modifies t
    ensures t[..] == Splice(old(t[..]), off, LeBytes(v, n))
  {
    match n
    case 2 => Int2Store(arch, t, off, v);
    case 3 => Int3Store(arch, t, off, v);
    case 4 => Int4Store(arch, t, off, v);
    case 5 => Int5Store(t, off, v);
    case 6 => Int6Store(t, off, v);
    case _ => Int8Store(arch, t, off, v);
  }

  datatype Field = Field(width: nat, value: int)

  predicate Fields(fs: seq<Field>) {
    forall f | f in fs :: Width(f.width)
  }

  function Size(fs: seq<Field>): nat {
    if fs == [] then 0 else fs[0].width + Size(fs[1..])
  }

  /** The buffer after `intNstore` of each field at consecutive offsets. */
  function StoreAll(s: seq<byte>, off: nat, fs: seq<Field>): (r: seq<byte>)
    requires off + Size(fs) <= |s|
    ensures |r| == |s|
    decreases |fs|
  {
    if fs == [] then s
    else StoreAll(Splice(s, off, LeBytes(fs[0].value, fs[0].width)), off + fs[0].width, fs[1..])
  }

  /** `uintNkorr` at the same offsets, on any of the three platforms. */
  function LoadAll(arch: Arch, s: seq<byte>, off: nat, fs: seq<Field>): seq<nat>
    requires Fields(fs) && off + Size(fs) + (if arch.Generic? then 0 else 1) <= |s|
    decreases |fs|
  {
    if fs == [] then []
    else
      assert Fields(fs[1..]) && fs[0] in fs;
      [UintKorr(arch, fs[0].width, s[off..])] + LoadAll(arch, s, off + fs[0].width, fs[1..])
  }

  function Values(fs: seq<Field>): seq<nat> {
    if fs == [] then [] else [fs[0].value % Pow256(fs[0].width)] + Values(fs[1..])
  }

  lemma {:induction false} StoreAllFrame(s: seq<byte>, off: nat, fs: seq<Field>)
    requires off + Size(fs) <= |s|
    ensures forall i | 0 <= i < |s| && !(off <= i < off + Size(fs)) :: StoreAll(s, off, fs)[i] == s[i]
    decreases |fs|
  {
    if fs != [] {
      StoreAllFrame(Splice(s, off, LeBytes(fs[0].value, fs[0].width)), off + fs[0].width, fs[1..]);
    }
  }

  /** Fields written by any platform's stores are read back, modulo 256^width, by any platform's loads. */
  lemma {:induction false} FieldsRoundTrip(arch: Arch, s: seq<byte>, off: nat, fs: seq<Field>)
    requires Fields(fs) && off + Size(fs) + (if arch.Generic? then 0 else 1) <= |s|
    ensures LoadAll(arch, StoreAll(s, off, fs), off, fs) == Values(fs)
    decreases |fs|
  {
    if fs != [] {
      var f := fs[0];
      assert Fields(fs[1..]) && f in fs;
      var bytes := LeBytes(f.value, f.width);
      var s' := Splice(s, off, bytes);
      var final := StoreAll(s, off, fs);
      StoreAllFrame(s', off + f.width, fs[1..]);
      FieldsRoundTrip(arch, s', off + f.width, fs[1..]);
      assert final[off..][..f.width] == bytes by {
        assert s'[off..off + f.width] == bytes;
        assert forall i | off <= i < off + f.width :: final[i] == s'[i];
      }
      LoadStore(f.value, f.width);
    }
  }

  /** Signed fields of 2, 3, 4 and 8 bytes come back exactly when they fit. */
  lemma SignedRoundTrip(arch: Arch, a: seq<byte>, v: int)
    ensures |a| >= 2 && a[..2] == LeBytes(v, 2) && -0x8000 <= v < 0x8000 ==> Sint2Korr(arch, a) == v
    ensures |a| >= 3 && a[..3] == LeBytes(v, 3) && -0x80_0000 <= v < 0x80_0000 ==> Sint3Korr(a) == v
    ensures |a| >= 4 && a[..4] == LeBytes(v, 4) && -0x8000_0000 <= v < 0x8000_0000 ==> Sint4Korr(arch, a) == v
    ensures |a| >= 8 && a[..8] == LeBytes(v, 8) && -0x8000_0000_0000_0000 <= v < 0x8000_0000_0000_0000
            ==> Sint8Korr(arch, a) == v
  {
    Powers();
    if -0x8000 <= v < 0x8000 { SignedLoadStore(v, 2); }
    if -0x80_0000 <= v < 0x80_0000 { SignedLoadStore(v, 3); }
    if -0x8000_0000 <= v < 0x8000_0000 { SignedLoadStore(v, 4); }
    if -0x8000_0000_0000_0000 <= v < 0x8000_0000_0000_0000 { SignedLoadStore(v, 8); }
  }
}
