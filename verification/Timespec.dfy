/** Absolute times of my_pthread.h: the POSIX seconds-and-nanoseconds form and the Windows 100 ns form. */
module Timespec {
  import opened Bytes

  const BILLION: nat := 1_000_000_000

  /** The POSIX structure. */
  datatype Time = Time(sec: int, nsec: int) {
    predicate Normal() {
      0 <= nsec < BILLION
    }

    function Nanoseconds(): int {
      sec * BILLION + nsec
    }
  }

  /** What `set_timespec_time_nsec` stores, in 64-bit unsigned arithmetic; `time` counts 100 ns units. */
  function MakeTime(time: nat, nsecs: nat): (t: Time)
    ensures t.Normal()
  {
    var nsec := nsecs % U64;
    var now := (time % U64 + nsec / 100) % U64;
    Time(now / 10_000_000, now % 10_000_000 * 100 + nsec % 100)
  }

  class AbsTime {
    var sec: int
    var nsec: int

    /** `set_timespec_time_nsec` */
    method SetTimeNsec(time: nat, nsecs: nat)
      modifies this
      ensures Time(sec, nsec) == MakeTime(time, nsecs) && Time(sec, nsec).Normal()
      ensures time < U64 && nsecs < U64 ==>
                (Time(sec, nsec).Nanoseconds() == 100 * time + nsecs <==> time + nsecs / 100 < U64)
    {
      var n := nsecs % U64;
      var now := (time % U64 + n / 100) % U64;
      sec := now / 10_000_000;
      nsec := now % 10_000_000 * 100 + n % 100;
      if time < U64 && nsecs < U64 {
        MakeTimeIsExact(time, nsecs);
      }
    }
  }

  /** The stored time is the exact sum precisely when the 64-bit count of 100 ns units does not overflow. */
  lemma MakeTimeIsExact(time: nat, nsecs: nat)
    requires time < U64 && nsecs < U64
    ensures MakeTime(time, nsecs).Nanoseconds() == 100 * time + nsecs <==> time + nsecs / 100 < U64
  {
    hide MakeTime;
    var now := (time + nsecs / 100) % U64;
    assert now == time + nsecs / 100 || now == time + nsecs / 100 - U64;
    assert nsecs == nsecs / 100 * 100 + nsecs % 100;
    MakeTimeValue(time, nsecs);
  }

  lemma MakeTimeValue(time: nat, nsecs: nat)
    requires time < U64 && nsecs < U64
    ensures MakeTime(time, nsecs).Nanoseconds() == (time + nsecs / 100) % U64 * 100 + nsecs % 100
  {
    assert nsecs % U64 == nsecs && time % U64 == time;
    TimeOfUnits((time + nsecs / 100) % U64, nsecs % 100);
  }

  lemma TimeOfUnits(now: nat, r: nat)
    ensures Time(now / 10_000_000, now % 10_000_000 * 100 + r).Nanoseconds() == now * 100 + r
  {
    assert now == now / 10_000_000 * 10_000_000 + now % 10_000_000;
  }

  /** `cmp_timespec` */
  function Cmp(a: Time, b: Time): int {
    if a.sec > b.sec || (a.sec == b.sec && a.nsec > b.nsec) then 1
    else if a.sec < b.sec || (a.sec == b.sec && a.nsec < b.nsec) then -1
    else 0
  }

  /** `diff_timespec`: the ULL factor makes the whole expression unsigned. */
  function Diff(a: Time, b: Time): nat {
    ((((a.sec - b.sec) % U64 * BILLION) % U64 + a.nsec % U64) % U64 - b.nsec % U64) % U64
  }

  function Sign(v: int): int {
    if v > 0 then 1 else if v < 0 then -1 else 0
  }

  /** The lexicographic comparison is the sign of the difference in nanoseconds. */
  lemma CmpIsSign(a: Time, b: Time)
    requires a.Normal() && b.Normal()
    ensures Cmp(a, b) == Sign(a.Nanoseconds() - b.Nanoseconds())
  {
  }

  lemma ModEqual(x: int, y: int, k: int)
    requires x == y + k * U64
    ensures x % U64 == y % U64
  {
  }

  /** The difference comes out modulo 2^64, so it is exact whenever it lies in range. */
  lemma DiffIsExact(a: Time, b: Time)
    ensures Diff(a, b) == (a.Nanoseconds() - b.Nanoseconds()) % U64
    ensures 0 <= a.Nanoseconds() - b.Nanoseconds() < U64 <==> Diff(a, b) == a.Nanoseconds() - b.Nanoseconds()
  {
    var d := a.sec - b.sec;
    var p := d % U64 * BILLION;
    var q := p % U64 + a.nsec % U64;
    assert d == d / U64 * U64 + d % U64;
    var k := d / U64 * BILLION + p / U64 + a.nsec / U64 - b.nsec / U64 + q / U64;
    assert a.Nanoseconds() - b.Nanoseconds() == q % U64 - b.nsec % U64 + k * U64;
    ModEqual(a.Nanoseconds() - b.Nanoseconds(), q % U64 - b.nsec % U64, k);
  }

  /** Comparing and subtracting constructed times is comparing and subtracting what they were built from. */
  lemma ConstructedTimes(t1: nat, n1: nat, t2: nat, n2: nat)
    requires t1 < U64 && n1 < U64 && t1 + n1 / 100 < U64
    requires t2 < U64 && n2 < U64 && t2 + n2 / 100 < U64
    ensures var a, b, d := MakeTime(t1, n1), MakeTime(t2, n2), (100 * t1 + n1) - (100 * t2 + n2);
            Cmp(a, b) == Sign(d) && Diff(a, b) == d % U64
  {
    MakeTimeIsExact(t1, n1);
    MakeTimeIsExact(t2, n2);
    CmpIsSign(MakeTime(t1, n1), MakeTime(t2, n2));
    DiffIsExact(MakeTime(t1, n1), MakeTime(t2, n2));
  }

  // ----- Windows -------------------------------------------------------------------------------

  const I64: nat := 0x8000_0000_0000_0000

  /** `tv.i64` and `max_timeout_msec`; `long` has 32 bits on Windows. */
  datatype WinTime = WinTime(i64: int, maxTimeoutMsec: int)

  /** `(long)(NSEC/1000000)` */
  function MaxTimeoutMsec(nsecs: nat): int {
    var msec := nsecs / 1_000_000 % U32;
    if msec < 0x8000_0000 then msec else msec - U32
  }

  function MakeWinTime(time: nat, nsecs: nat): WinTime {
    WinTime(time + nsecs / 100, MaxTimeoutMsec(nsecs))
  }

  function WinCmp(a: WinTime, b: WinTime): int {
    if a.i64 > b.i64 then 1 else if a.i64 < b.i64 then -1 else 0
  }

  function WinDiff(a: WinTime, b: WinTime): int {
    (a.i64 - b.i64) * 100
  }

  /** The Windows comparison orders the counts of 100 ns units, so it sees two times as equal exactly when they fall in
      the same unit; the millisecond bound is exact below 2^31 ms. */
  lemma WinCmpIsSign(t1: nat, n1: nat, t2: nat, n2: nat)
    requires n1 < I64 && t1 + n1 / 100 < I64 && n2 < I64 && t2 + n2 / 100 < I64
    ensures WinCmp(MakeWinTime(t1, n1), MakeWinTime(t2, n2)) == Sign((t1 + n1 / 100) - (t2 + n2 / 100))
    ensures WinCmp(MakeWinTime(t1, n1), MakeWinTime(t2, n2)) == 0 <==>
            MakeTime(t1, n1).Nanoseconds() / 100 == MakeTime(t2, n2).Nanoseconds() / 100
    ensures MakeWinTime(t1, n1).maxTimeoutMsec == n1 / 1_000_000 <==> n1 / 1_000_000 < 0x8000_0000
  {
    UnitsOf(t1, n1);
    UnitsOf(t2, n2);
    MaxTimeoutIsExact(n1);
  }

  lemma UnitsOf(time: nat, nsecs: nat)
    requires time < U64 && nsecs < U64 && time + nsecs / 100 < U64
    ensures MakeTime(time, nsecs).Nanoseconds() / 100 == time + nsecs / 100
  {
    MakeTimeIsExact(time, nsecs);
  }

  /** The Windows time is the POSIX time rounded down to 100 ns; where Windows sees an order POSIX sees the same,
      and the two differences are less than 100 ns apart. */
  lemma WindowsBelowPosix(t1: nat, n1: nat, t2: nat, n2: nat)
    requires n1 < I64 && t1 + n1 / 100 < I64 && n2 < I64 && t2 + n2 / 100 < I64
    ensures 0 <= MakeTime(t1, n1).Nanoseconds() - 100 * MakeWinTime(t1, n1).i64 < 100
    ensures var w, p := WinCmp(MakeWinTime(t1, n1), MakeWinTime(t2, n2)), Cmp(MakeTime(t1, n1), MakeTime(t2, n2));
            w == p || w == 0
    ensures var wd := WinDiff(MakeWinTime(t1, n1), MakeWinTime(t2, n2));
            -100 < wd - (MakeTime(t1, n1).Nanoseconds() - MakeTime(t2, n2).Nanoseconds()) < 100
  {
    MakeTimeIsExact(t1, n1);
    MakeTimeIsExact(t2, n2);
    CmpIsSign(MakeTime(t1, n1), MakeTime(t2, n2));
  }

  /** The millisecond bound is exact for timeouts of less than 2^31 ms. */
  lemma MaxTimeoutIsExact(nsecs: nat)
    ensures MaxTimeoutMsec(nsecs) == nsecs / 1_000_000 <==> nsecs / 1_000_000 < 0x8000_0000
  {
  }
}
