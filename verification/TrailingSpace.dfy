/** `skip_trailing_space` of m_string.h: a word-at-a-time backward scan that refines the naive one. */
module TrailingSpace {
  import opened Bytes
  import opened ByteOrder

  /** SIZEOF_INT is 4 or 8; any other value is a compile-time error. */
  predicate IntSize(w: nat) {
    w == 4 || w == 8
  }

  /** The two constants the header defines. */
  function SpaceInt(w: nat): nat {
    if w == 4 then 0x2020_2020 else 0x2020_2020_2020_2020
  }

  predicate SpacesFrom(s: seq<byte>, k: nat) {
    forall i | k <= i < |s| :: s[i] == 0x20
  }

  /** Where the string ends once its trailing spaces are dropped, as an offset. */
  function NaiveEnd(s: seq<byte>): (e: nat)
    ensures e <= |s|
    ensures SpacesFrom(s, e)
    ensures e > 0 ==> s[e - 1] != 0x20
  {
    if s == [] || s[|s| - 1] != 0x20 then |s| else NaiveEnd(s[..|s| - 1])
  }

  lemma NaiveEndIsUnique(s: seq<byte>, e: nat)
    requires e <= |s| && SpacesFrom(s, e) && (e > 0 ==> s[e - 1] != 0x20)
    ensures NaiveEnd(s) == e
  {
  }

  // ----- Memory --------------------------------------------------------------------------------

  /** The byte at an address inside the string `s` that starts at `ptr`. */
  function ByteAt(s: seq<byte>, ptr: nat, addr: nat): byte
    requires ptr <= addr < ptr + |s|
  {
    s[addr - ptr]
  }

  /** An unsigned int loaded from an aligned address inside the string. */
  function WordAt(s: seq<byte>, ptr: nat, addr: nat, w: nat, bigEndian: bool): nat
    requires IntSize(w) && addr % w == 0
    requires ptr <= addr && addr + w <= ptr + |s|
  {
    var bytes := s[addr - ptr..addr - ptr + w];
    Le(if bigEndian then Reverse(bytes) else bytes)
  }

  function Spaces(n: nat): (r: seq<byte>)
    ensures |r| == n && forall i | 0 <= i < n :: r[i] == 0x20
  {
    seq(n, i => 0x20)
  }

  lemma SpaceIntIsSpaces(w: nat)
    requires IntSize(w)
    ensures Le(Spaces(w)) == SpaceInt(w)
  {
    var s := Spaces(w);
    Le4(s, 0);
    if w == 4 {
      assert s[0..4] == s;
    } else {
      LeHighPart(s, 8);
      Le4(s, 4);
      assert s[..8] == s;
    }
  }

  /** Comparing with SPACE_INT compares every byte with a space, in either byte order. */
  lemma WordIsSpaces(bytes: seq<byte>, w: nat)
    requires IntSize(w) && |bytes| == w
    ensures Le(bytes) == SpaceInt(w) <==> forall i | 0 <= i < w :: bytes[i] == 0x20
    ensures Le(Reverse(bytes)) == SpaceInt(w) <==> forall i | 0 <= i < w :: bytes[i] == 0x20
  {
    SpaceIntIsSpaces(w);
    var r := Reverse(bytes);
    assert forall i | 0 <= i < w :: bytes[i] == r[w - 1 - i];
    if Le(bytes) == SpaceInt(w) {
      LeInjective(bytes, Spaces(w));
    } else {
      assert bytes != Spaces(w);
    }
    if Le(r) == SpaceInt(w) {
      LeInjective(r, Spaces(w));
    } else {
      assert r != Spaces(w);
    }
  }

  lemma WordExtends(s: seq<byte>, k: nat, w: nat, bigEndian: bool)
    requires IntSize(w) && k + w <= |s| && SpacesFrom(s, k + w)
    requires Le(if bigEndian then Reverse(s[k..k + w]) else s[k..k + w]) == SpaceInt(w)
    ensures SpacesFrom(s, k)
  {
    var bytes := s[k..k + w];
    WordIsSpaces(bytes, w);
    assert forall i | k <= i < k + w :: s[i] == bytes[i - k];
  }

  // ----- Alignment -----------------------------------------------------------------------------

  /** `addr / SIZEOF_INT * SIZEOF_INT` */
  function AlignDown(addr: nat, w: nat): (d: nat)
    requires IntSize(w)
    ensures d % w == 0 && d <= addr < d + w
  {
    addr / w * w
  }

  lemma AlignedStep(a: nat, b: nat, w: nat)
    requires IntSize(w) && a % w == 0 && b % w == 0 && a < b
    ensures a + w <= b && (b - w) % w == 0
  {
  }

  // ----- The scan ------------------------------------------------------------------------------

  /** `while (end > limit && end[-1] == 0x20) end--;` */
  method ScanBytes(s: seq<byte>, ptr: nat, start: nat, limit: nat) returns (end: nat)
    requires ptr <= limit <= start <= ptr + |s| && SpacesFrom(s, start - ptr)
    ensures limit <= end <= start && SpacesFrom(s, end - ptr)
    ensures end == limit || ByteAt(s, ptr, end - 1) != 0x20
  {
    end := start;
    while end > limit && ByteAt(s, ptr, end - 1) == 0x20
      invariant limit <= end <= start && SpacesFrom(s, end - ptr)
    {
      end := end - 1;
    }
  }

  /** `while (end > limit && ((unsigned *)end)[-1] == SPACE_INT) end -= SIZEOF_INT;` */
  method ScanWords(s: seq<byte>, ptr: nat, start: nat, limit: nat, w: nat, bigEndian: bool) returns (end: nat)
    requires IntSize(w) && limit % w == 0 && start % w == 0
    requires ptr <= limit <= start <= ptr + |s| && SpacesFrom(s, start - ptr)
    ensures limit <= end <= start && SpacesFrom(s, end - ptr)
  {
    end := start;
    while end > limit && WordBefore(s, ptr, end, limit, w, bigEndian)
      invariant limit <= end <= start && end % w == 0 && SpacesFrom(s, end - ptr)
    {
      AlignedStep(limit, end, w);
      WordExtends(s, end - w - ptr, w, bigEndian);
      end := end - w;
    }
  }

  /** `((unsigned *)end)[-1] == SPACE_INT` */
  predicate WordBefore(s: seq<byte>, ptr: nat, end: nat, limit: nat, w: nat, bigEndian: bool)
    requires IntSize(w) && limit % w == 0 && end % w == 0
    requires ptr <= limit < end <= ptr + |s|
  {
    AlignedStep(limit, end, w);
    WordAt(s, ptr, end - w, w, bigEndian) == SpaceInt(w)
  }

  /** The three-zone scan returns the end the naive loop returns. Every byte load stays inside the string and
      every word load is also aligned: those are the preconditions of `ByteAt` and `WordAt`. */
  method SkipTrailingSpace(s: seq<byte>, ptr: nat, w: nat, bigEndian: bool) returns (end: nat)
    requires IntSize(w) && ptr + |s| < U64
    ensures end == ptr + NaiveEnd(s)
  {
    end := ptr + |s|;
    if |s| > 20 {
      var endWords := AlignDown(end, w);
      var startWords := AlignDown((ptr + w - 1) % U64, w);
      if endWords > ptr {
        end := ScanBytes(s, ptr, end, endWords);
        if ByteAt(s, ptr, end - 1) == 0x20 && startWords < endWords {
          end := ScanWords(s, ptr, end, startWords, w, bigEndian);
        }
      }
    }
    end := ScanBytes(s, ptr, end, ptr);
    NaiveEndIsUnique(s, end - ptr);
  }
}
