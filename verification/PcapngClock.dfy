/** Packet times (src/capture.go): a count of an interface's own units as milliseconds, in
    64-bit arithmetic, and the units an interface may have. */
module PcapngClock {
  import opened PcapngFormat

  const Two63 := 0x8000_0000_0000_0000
  const Two64 := 0x1_0000_0000_0000_0000

  function U64(x: int): (n: nat)
    ensures n < Two64
  {
    x % Two64
  }

  function I64(x: int): (n: int)
    ensures -Two63 <= n < Two63
  {
    var u := x % Two64;
    if u < Two63 then u else u - Two64
  }

  /** Seconds and milliseconds put together, every step wrapping as 64-bit integers do. */
  function Combine(seconds: int, millis: int): int {
    I64(I64(I64(seconds) * 1000) + I64(millis))
  }

  /** The count in two halves. */
  function Millis(ts: nat, unit: nat): int
    requires ts < Two64 && 0 < unit < Two64
  {
    Combine(ts / unit, U64(ts % unit * 1000) / unit)
  }

  // ------------------------------------------------------------- arithmetic --

  lemma Mul(a: int, b: int, unit: nat)
    requires a <= b
    ensures a * unit <= b * unit
  {
  }

  lemma Cancel(a: int, b: int, unit: nat)
    requires a * unit < b * unit
    ensures a < b
  {
    if a >= b {
      Mul(b, a, unit);
    }
  }

  lemma Divided(n: nat, unit: nat)
    requires unit > 0
    ensures n / unit * unit <= n < (n / unit + 1) * unit
    ensures n % unit == n - n / unit * unit
  {
    assert n == n / unit * unit + n % unit;
    assert (n / unit + 1) * unit == n / unit * unit + unit;
  }

  lemma DivUnique(n: nat, q: nat, unit: nat)
    requires unit > 0 && q * unit <= n < (q + 1) * unit
    ensures n / unit == q
  {
    Divided(n, unit);
    Cancel(q, n / unit + 1, unit);
    Cancel(n / unit, q + 1, unit);
  }

  lemma DivAdd(a: nat, b: nat, unit: nat)
    requires unit > 0
    ensures (a * unit + b) / unit == a + b / unit
  {
    var q := b / unit;
    Divided(b, unit);
    assert (a + q) * unit == a * unit + q * unit;
    assert (a + q + 1) * unit == a * unit + (q + 1) * unit;
    DivUnique(a * unit + b, a + q, unit);
  }

  lemma DivMonotone(a: nat, b: nat, unit: nat)
    requires unit > 0 && a <= b
    ensures a / unit <= b / unit
  {
    Divided(a, unit);
    Divided(b, unit);
    Cancel(a / unit, b / unit + 1, unit);
  }

  lemma Regroup(q: nat, r: nat, unit: nat)
    ensures (q * unit + r) * 1000 == q * 1000 * unit + r * 1000
  {
  }

  /** The two halves add up to the whole. */
  lemma Halves(ts: nat, unit: nat)
    requires unit > 0
    ensures ts / unit * 1000 + ts % unit * 1000 / unit == ts * 1000 / unit
  {
    var q, r := ts / unit, ts % unit;
    Divided(ts, unit);
    Regroup(q, r, unit);
    DivAdd(q * 1000, r * 1000, unit);
  }

  lemma ModShift(x: int, k: int)
    ensures (x + k * Two64) % Two64 == x % Two64
  {
  }

  lemma Wraps(x: int) returns (k: int)
    ensures I64(x) == x + k * Two64
  {
    k := if x % Two64 < Two63 then -(x / Two64) else -(x / Two64) - 1;
  }

  lemma WrapSum(q: int, h: int)
    ensures Combine(q, h) == I64(q * 1000 + h)
  {
    var i := Wraps(q);
    var j := Wraps(I64(q) * 1000);
    var k := Wraps(h);
    ModShift(q * 1000 + h, 1000 * i + j + k);
  }

  lemma Fits(n: nat)
    requires n < Two64
    ensures U64(n) == n
  {
  }

  /** With the second half inside 64 bits, only the final result can wrap. */
  lemma OnlyOnce(ts: nat, unit: nat)
    requires ts < Two64 && 0 < unit < Two64 && ts % unit * 1000 < Two64
    ensures Millis(ts, unit) == I64(ts * 1000 / unit)
  {
    var q, r := ts / unit, ts % unit;
    Fits(r * 1000);
    var h := r * 1000 / unit;
    assert Millis(ts, unit) == Combine(q, h);
    WrapSum(q, h);
    Halves(ts, unit);
  }

  // ------------------------------------------------------------- exactness --

  ghost predicate Exact(unit: nat)
    requires 0 < unit < Two64
  {
    forall ts: nat :: ts < Two64 ==> Millis(ts, unit) == ts * 1000 / unit
  }

  const Coarsest := 2000
  const Finest := 18446744073709552

  lemma ExactInside(ts: nat, unit: nat)
    requires ts < Two64 && Coarsest <= unit <= Finest
    ensures Millis(ts, unit) == ts * 1000 / unit
  {
    RestFits(ts, unit);
    OnlyOnce(ts, unit);
    Whole(ts * 1000, unit);
  }

  lemma Whole(n: nat, unit: nat)
    requires n < 2000 * Two63 && unit >= Coarsest
    ensures I64(n / unit) == n / unit
  {
    Small(n, unit);
    FitsSigned(n / unit);
  }

  lemma RestFits(ts: nat, unit: nat)
    requires 0 < unit <= Finest
    ensures ts % unit * 1000 < Two64
  {
  }

  lemma Small(n: nat, unit: nat)
    requires n < 2000 * Two63 && unit >= Coarsest
    ensures n / unit < Two63
  {
    Divided(n, unit);
    Mul(2000, unit, Two63);
    Cancel(n / unit, Two63, unit);
  }

  lemma FitsSigned(n: nat)
    requires n < Two63
    ensures I64(n) == n
  {
  }

  lemma TooCoarse(unit: nat)
    requires 0 < unit < Coarsest
    ensures Millis(Two64 - 1, unit) != (Two64 - 1) * 1000 / unit
  {
    Divided(Two64 - 1, unit);
    OnlyOnce(Two64 - 1, unit);
    Divided((Two64 - 1) * 1000, unit);
    Cancel(Two63, (Two64 - 1) * 1000 / unit + 1, unit);
  }

  lemma TooFine(unit: nat)
    requires Finest < unit < Two64
    ensures Millis(unit - 1, unit) != (unit - 1) * 1000 / unit
  {
    AlmostOne(unit);
    LessThanOne((unit - 1) * 1000, unit);
  }

  lemma LessThanOne(n: nat, unit: nat)
    requires Finest < unit < Two64 && n == (unit - 1) * 1000
    ensures Combine(0, U64(n) / unit) < 999
  {
    WrapsOnce(n);
    LessThan999(U64(n), unit);
  }

  lemma LessThan999(n: nat, unit: nat)
    requires unit > 0 && n < 999 * unit
    ensures Combine(0, n / unit) < 999
  {
    Less(n, 999, unit);
    OnlyMillis(n / unit);
  }

  lemma OnlyMillis(h: nat)
    requires h < 999
    ensures Combine(0, h) == h
  {
  }

  lemma AlmostOne(unit: nat)
    requires unit >= 1000
    ensures (unit - 1) / unit == 0 && (unit - 1) % unit == unit - 1 && (unit - 1) * 1000 / unit == 999
  {
    DivUnique(unit - 1, 0, unit);
    DivUnique((unit - 1) * 1000, 999, unit);
  }

  lemma WrapsOnce(n: nat)
    requires n >= Two64
    ensures U64(n) <= n - Two64
  {
  }

  lemma Less(n: nat, q: nat, unit: nat)
    requires unit > 0 && n < q * unit
    ensures n / unit < q
  {
    Divided(n, unit);
    Cancel(n / unit, q, unit);
  }

  /** The two halves are right for every count exactly when a unit is no coarser than 1/2000
      of a second and no finer than the largest that a thousand of its remainders fit in. */
  lemma ExactWhen(unit: nat)
    requires 0 < unit < Two64
    ensures Exact(unit) <==> Coarsest <= unit <= Finest
  {
    if unit < Coarsest {
      TooCoarse(unit);
    } else if unit > Finest {
      TooFine(unit);
    } else {
      forall ts: nat | ts < Two64 ensures Millis(ts, unit) == ts * 1000 / unit {
        ExactInside(ts, unit);
      }
    }
  }

  /** So a later count is never an earlier time. */
  lemma Monotone(a: nat, b: nat, unit: nat)
    requires a <= b < Two64 && Coarsest <= unit <= Finest
    ensures Millis(a, unit) <= Millis(b, unit)
  {
    ExactInside(a, unit);
    ExactInside(b, unit);
    DivMonotone(a * 1000, b * 1000, unit);
  }

  // ------------------------------------------------------------------ units --

  function Power(base: nat, n: nat): nat {
    if n == 0 then 1 else base * Power(base, n - 1)
  }

  /** Ten to the power of `n`, or of 19 if that is less. */
  method Pow10(n: byte) returns (units: nat)
    ensures units == Power(10, if n < 19 then n else 19)
    ensures 0 < units < Two64
  {
    units := 1;
    var i := 0;
    while i < n && i < 19
      invariant 0 <= i <= n && i <= 19
      invariant units == Power(10, i)
    {
      units := U64(units * 10);
      i := i + 1;
      Power10Fits(i);
    }
    Power10Fits(i);
  }

  lemma Power10Fits(n: nat)
    requires n <= 19
    ensures 0 < Power(10, n) < Two64
  {
    PowerGrows(10, n, 19);
    assert Power(10, 4) == 10000;
    assert Power(10, 8) == 100000000;
    assert Power(10, 12) == 1000000000000;
    assert Power(10, 16) == 10000000000000000;
    assert Power(10, 19) == 10000000000000000000;
  }

  lemma {:induction false} PowerGrows(base: nat, a: nat, b: nat)
    requires base >= 1 && a <= b
    ensures 0 < Power(base, a) <= Power(base, b)
    decreases b
  {
    if a < b {
      PowerGrows(base, a, b - 1);
      assert Power(base, b) >= Power(base, b - 1);
    } else if a > 0 {
      PowerGrows(base, a - 1, b - 1);
      assert Power(base, a) > 0;
    }
  }

  /** Units per second, of an if_tsresol value: its high bit picks the base, and a shift
      that leaves nothing of 64 bits leaves nothing. */
  function Unit(v: byte): nat {
    if v < 128 then Power(10, if v < 19 then v else 19)
    else if v - 128 < 64 then Power(2, v - 128)
    else 0
  }

  lemma UnitFits(v: byte)
    ensures Unit(v) < Two64
  {
    if v < 128 {
      Power10Fits(if v < 19 then v else 19);
    } else if v - 128 < 64 {
      PowerGrows(2, v - 128, 63);
      Power2();
    }
  }

  lemma Power2()
    ensures Power(2, 10) == 1024 && Power(2, 11) == 2048
    ensures Power(2, 54) == 18014398509481984 && Power(2, 55) == 36028797018963968
    ensures Power(2, 63) == Two63
  {
    assert Power(2, 10) == 1024;
    assert Power(2, 20) == 1024 * 1024;
    assert Power(2, 30) == 1024 * 1024 * 1024;
    assert Power(2, 40) == 1024 * 1024 * 1024 * 1024;
    assert Power(2, 50) == 1024 * 1024 * 1024 * 1024 * 1024;
    assert Power(2, 54) == 18014398509481984;
    assert Power(2, 58) == 288230376151711744;
  }

  /** The units for which times come out right: 10^4 to 10^16, and 2^11 to 2^54. */
  lemma UnitsExact(v: byte)
    requires Unit(v) > 0
    ensures Unit(v) < Two64
    ensures Exact(Unit(v)) <==> 4 <= v <= 16 || 128 + 11 <= v <= 128 + 54
  {
    UnitFits(v);
    ExactWhen(Unit(v));
    if v < 128 {
      var n := if v < 19 then v else 19;
      if n < 4 { PowerGrows(10, n, 3); } else { PowerGrows(10, 4, n); }
      if n > 16 { PowerGrows(10, 17, n); } else { PowerGrows(10, n, 16); }
      Power10Values();
    } else {
      var n := v - 128;
      if n < 11 { PowerGrows(2, n, 10); } else { PowerGrows(2, 11, n); }
      if n > 54 { PowerGrows(2, 55, n); } else { PowerGrows(2, n, 54); }
      Power2();
    }
  }

  lemma Power10Values()
    ensures Power(10, 3) == 1000 && Power(10, 4) == 10000
    ensures Power(10, 16) == 10000000000000000 && Power(10, 17) == 100000000000000000
  {
    assert Power(10, 8) == 100000000;
    assert Power(10, 12) == 1000000000000;
  }
}
