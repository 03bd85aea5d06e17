/** binary16 and binary32: conversion both ways at bit level, and what it does to the number. */
module Float16 {
  import opened Bits

  /** The fields of a binary16. */
  datatype Half = Half(negative: bool, exp: nat, frac: nat)

  /** The fields of a binary32. */
  datatype Single = Single(negative: bool, exp: nat, frac: nat)

  predicate IsHalf(h: Half) { h.exp < 32 && h.frac < 0x400 }

  predicate IsSingle(f: Single) { f.exp < 256 && f.frac < 0x80_0000 }

  function Half16(v: u16): (h: Half)
    ensures IsHalf(h)
  {
    Half(0x8000 <= v, v / 0x400 % 0x20, v % 0x400)
  }

  function Bits16(h: Half): u16
    requires IsHalf(h)
  {
    (if h.negative then 0x8000 else 0) + 0x400 * h.exp + h.frac
  }

  function Single32(v: u32): (f: Single)
    ensures IsSingle(f)
  {
    Single(0x8000_0000 <= v, v / 0x80_0000 % 0x100, v % 0x80_0000)
  }

  function Bits32(f: Single): u32
    requires IsSingle(f)
  {
    (if f.negative then 0x8000_0000 else 0) + 0x80_0000 * f.exp + f.frac
  }

  lemma Fields16(h: Half)
    requires IsHalf(h)
    ensures Half16(Bits16(h)) == h
  {
  }

  lemma Fields32(f: Single)
    requires IsSingle(f)
    ensures Single32(Bits32(f)) == f
  {
  }

  lemma Whole16(v: u16)
    ensures Bits16(Half16(v)) == v
  {
  }

  // ---- the numbers ------------------------------------------------------------------------

  /** A finite binary32's magnitude, in units of 2^-149, its smallest subnormal. */
  function SingleMag(f: Single): nat { if f.exp == 0 then f.frac else (0x80_0000 + f.frac) * Pow2(f.exp - 1) }

  /** A finite binary16's magnitude in the same units; its own smallest subnormal is 2^-24. */
  function HalfMag(h: Half): nat { if h.exp == 0 then h.frac * Pow2(125) else (0x400 + h.frac) * Pow2(h.exp + 124) }

  /** The position of a binary16 among all non-negative ones. */
  function Code(h: Half): nat { 0x400 * h.exp + h.frac }

  function AtCode(c: nat): Half { Half(false, c / 0x400, c % 0x400) }

  /** The distance to the next binary16. */
  function Ulp(h: Half): nat { Pow2(if h.exp == 0 then 125 else h.exp + 124) }

  lemma Times(a: nat, b: nat, p: nat)
    requires a <= b
    ensures a * p <= b * p
    ensures a < b && 0 < p ==> a * p < b * p
  {
  }

  lemma OneMore(a: nat, p: nat)
    ensures (a + 1) * p == a * p + p
  {
  }

  lemma Regroup(a: nat, b: nat, p: nat)
    ensures a * (b * p) == (a * b) * p
  {
  }

  lemma NextCode(c: nat)
    ensures HalfMag(AtCode(c + 1)) == HalfMag(AtCode(c)) + Ulp(AtCode(c))
  {
    hide Pow2;
    var h, n := AtCode(c), AtCode(c + 1);
    if h.frac < 0x3FF {
      assert n == Half(false, h.exp, h.frac + 1);
      OneMore(if h.exp == 0 then h.frac else 0x400 + h.frac, Ulp(h));
    } else {
      assert n == Half(false, h.exp + 1, 0);
      if h.exp == 0 {
        OneMore(0x3FF, Pow2(125));
      } else {
        PowNext(h.exp + 124);
        OneMore(0x7FF, Pow2(h.exp + 124));
        Regroup(0x400, 2, Pow2(h.exp + 124));
      }
    }
  }

  lemma PowNext(n: nat)
    ensures Pow2(n + 1) == 2 * Pow2(n)
  {
  }

  lemma {:induction false} Rising(a: nat, b: nat)
    requires a < b
    ensures HalfMag(AtCode(a)) + Ulp(AtCode(a)) <= HalfMag(AtCode(b))
    decreases b - a
  {
    hide HalfMag, AtCode;
    NextCode(a);
    if a + 1 < b {
      Rising(a + 1, b);
    }
  }

  lemma CodeBack(h: Half)
    requires IsHalf(h)
    ensures HalfMag(AtCode(Code(h))) == HalfMag(h) && Ulp(AtCode(Code(h))) == Ulp(h)
  {
    hide Pow2;
  }

  // ---- binary32 to binary16 -----------------------------------------------------------------

  /** A right shift. */
  function Shr(m: nat, n: nat): nat
    decreases n
  {
    if n == 0 then m else Shr(m / 2, n - 1)
  }

  lemma {:induction false} ShrFloor(m: nat, n: nat)
    ensures Shr(m, n) * Pow2(n) <= m < (Shr(m, n) + 1) * Pow2(n)
    decreases n
  {
    if n != 0 {
      ShrFloor(m / 2, n - 1);
      var q, p := Shr(m, n), Pow2(n - 1);
      PowNext(n - 1);
      Regroup(q, 2, p);
      Regroup(2, q, p);
      Regroup(q + 1, 2, p);
      Regroup(2, q + 1, p);
      Doubled(q, p, m);
    }
  }

  lemma Doubled(q: nat, p: nat, m: nat)
    requires q * p <= m / 2 < (q + 1) * p
    ensures 2 * (q * p) <= m < 2 * ((q + 1) * p)
  {
  }

  /** lcc_float16_from_float, on fields. */
  function ToHalf(f: Single): (h: Half)
    requires IsSingle(f)
    ensures h.negative == f.negative
  {
    if f.exp == 255 then Half(f.negative, 31, if f.frac != 0 then 0x200 else 0)
    else if 127 + 15 < f.exp then Half(f.negative, 31, 0)
    else if f.exp < 127 - 24 then Half(f.negative, 0, 0)
    else if f.exp < 127 - 14 then Half(f.negative, 0, Shr(0x80_0000 + f.frac, (127 - 14 - f.exp) + 13))
    else Half(f.negative, f.exp - 127 + 15, Shr(f.frac, 13))
  }

  lemma {:induction false} PowAdd(m: nat, n: nat)
    ensures Pow2(m + n) == Pow2(m) * Pow2(n)
    decreases n
  {
    if n != 0 {
      PowAdd(m, n - 1);
      Regroup(2, Pow2(m), Pow2(n - 1));
      Regroup(Pow2(m), 2, Pow2(n - 1));
    }
  }

  /** Cutting `n` bits off a number that is scaled by 2^k. */
  lemma CutOff(m: nat, n: nat, k: nat)
    ensures Shr(m, n) * Pow2(n + k) <= m * Pow2(k) < Shr(m, n) * Pow2(n + k) + Pow2(n + k)
  {
    hide Shr, Pow2;
    var q, s, p := Shr(m, n), Pow2(n), Pow2(k);
    ShrFloor(m, n);
    PowAdd(n, k);
    Regroup(q, s, p);
    Regroup(q + 1, s, p);
    Times(q * s, m, p);
    Times(m, (q + 1) * s, p);
    OneMore(q, s * p);
  }

  lemma {:induction false} ShrBound(m: nat, n: nat, k: nat)
    requires m < Pow2(n + k)
    ensures Shr(m, n) < Pow2(k)
    decreases n
  {
    if n != 0 {
      PowNext(n + k - 1);
      ShrBound(m / 2, n - 1, k);
    }
  }

  lemma Powers()
    ensures Pow2(10) == 0x400 && Pow2(13) == 0x2000 && Pow2(23) == 0x80_0000 && Pow2(24) == 0x100_0000
  {
    assert Pow2(5) == 32;
    assert Pow2(10) == 0x400;
    assert Pow2(13) == 0x2000;
    assert Pow2(18) == 0x4_0000;
    assert Pow2(23) == 0x80_0000;
  }

  lemma {:induction false} PowRises(m: nat, n: nat)
    requires m <= n
    ensures Pow2(m) <= Pow2(n)
    decreases n
  {
    if m < n {
      PowRises(m, n - 1);
    }
  }

  /** The result of a finite binary32 below 65536 is a finite binary16 no larger, and less than one step smaller. */
  lemma Truncates(f: Single)
    requires IsSingle(f) && f.exp <= 127 + 15
    ensures var h := ToHalf(f); IsHalf(h) && h.exp < 31 && HalfMag(h) <= SingleMag(f) < HalfMag(h) + Ulp(h)
  {
    hide Pow2, Shr;
    Powers();
    var m := 0x80_0000 + f.frac;
    if f.exp < 127 - 24 {
      Tiny(f);
    } else if f.exp < 127 - 14 {
      var n := (127 - 14 - f.exp) + 13;
      CutOff(m, n, f.exp - 1);
      PowRises(24, n + 10);
      ShrBound(m, n, 10);
    } else {
      CutOff(m, 13, f.exp - 1);
      ShrTop(f.frac);
      ShrBound(f.frac, 13, 10);
    }
  }

  lemma Tiny(f: Single)
    requires IsSingle(f) && f.exp < 127 - 24
    ensures SingleMag(f) < Pow2(125)
  {
    hide Pow2;
    Powers();
    if f.exp == 0 {
      PowRises(23, 125);
    } else {
      Times(0x80_0000 + f.frac, 0x100_0000, Pow2(f.exp - 1));
      PowAdd(24, f.exp - 1);
      PowRises(24 + f.exp - 1, 125);
    }
  }

  /** The implicit bit stays in place when the fraction is cut. */
  lemma ShrTop(frac: nat)
    requires frac < 0x80_0000
    ensures Shr(0x80_0000 + frac, 13) == 0x400 + Shr(frac, 13)
  {
    hide Shr, Pow2;
    Powers();
    ShrFloor(frac, 13);
    ShrFloor(0x80_0000 + frac, 13);
  }

  /** For every finite binary32 of magnitude below 65536, subnormals included, the result has its sign and the
      largest binary16 magnitude that does not exceed it. */
  lemma RoundsTowardZero(f: Single, h: Half)
    requires IsSingle(f) && f.exp <= 127 + 15 && IsHalf(h) && h.exp < 31
    ensures var r := ToHalf(f);
      && IsHalf(r) && r.exp < 31 && r.negative == f.negative
      && HalfMag(r) <= SingleMag(f) && (HalfMag(h) <= SingleMag(f) ==> HalfMag(h) <= HalfMag(r) && Code(h) <= Code(r))
  {
    hide HalfMag, SingleMag, Ulp, ToHalf, Code;
    Truncates(f);
    var r := ToHalf(f);
    CodeBack(h);
    CodeBack(r);
    if Code(r) < Code(h) {
      Rising(Code(r), Code(h));
    } else if Code(h) < Code(r) {
      Rising(Code(h), Code(r));
    }
  }

  /** Everything from 65536 on becomes infinite, and a NaN stays one. */
  lemma Overflows(f: Single)
    requires IsSingle(f) && 127 + 15 < f.exp
    ensures var r := ToHalf(f); IsHalf(r) && r.exp == 31 && (r.frac != 0 <==> f.exp == 255 && f.frac != 0)
  {
  }

  // ---- binary16 to binary32 -----------------------------------------------------------------

  /** How often a fraction is doubled until its implicit bit is in place. */
  function Doublings(frac: nat): nat
    requires 0 < frac < 0x800
    decreases 0x800 - frac
  {
    if 0x400 <= frac then 0 else 1 + Doublings(2 * frac)
  }

  lemma {:induction false} DoublingsFit(frac: nat)
    requires 0 < frac < 0x800
    ensures 0x400 <= frac * Pow2(Doublings(frac)) < 0x800
    ensures frac * Pow2(Doublings(frac)) < 0x800 && Doublings(frac) <= 10
    decreases 0x800 - frac
  {
    var n := Doublings(frac);
    if frac < 0x400 {
      DoublingsFit(2 * frac);
      Regroup(frac, 2, Pow2(n - 1));
      Regroup(2, frac, Pow2(n - 1));
      if 10 < n {
        hide Pow2;
        Powers();
        PowRises(10, n - 1);
        Times(2, 2 * frac, Pow2(n - 1));
      }
    }
  }

  /** lcc_float16_to_float, on fields. */
  function ToSingle(h: Half): (f: Single)
    requires IsHalf(h)
    ensures IsSingle(f) && f.negative == h.negative
  {
    if h.exp == 0 then
      if h.frac == 0 then Single(h.negative, 0, 0)
      else
        DoublingsFit(h.frac);
        var n := Doublings(h.frac);
        Single(h.negative, 127 - 14 - n, (h.frac * Pow2(n) - 0x400) * 0x2000)
    else if h.exp == 31 then Single(h.negative, 255, h.frac * 0x2000)
    else Single(h.negative, h.exp + 112, h.frac * 0x2000)
  }

  /** A finite binary16 becomes the binary32 of exactly the same value; infinities and NaNs stay what they are. */
  lemma ToSingleExact(h: Half)
    requires IsHalf(h)
    ensures h.exp < 31 ==> ToSingle(h).exp <= 127 + 15 && SingleMag(ToSingle(h)) == HalfMag(h)
    ensures h.exp == 31 ==> ToSingle(h).exp == 255 && (ToSingle(h).frac != 0 <==> h.frac != 0)
  {
    hide Pow2, Doublings;
    Powers();
    if h.exp == 0 && h.frac != 0 {
      DoublingsFit(h.frac);
      var n := Doublings(h.frac);
      PowAdd(13, 112 - n);
      PowAdd(n, 125 - n);
      Regroup(h.frac * Pow2(n), 0x2000, Pow2(112 - n));
      Regroup(h.frac, Pow2(n), Pow2(125 - n));
    } else if 0 < h.exp < 31 {
      PowAdd(13, h.exp + 111);
      Regroup(0x400 + h.frac, 0x2000, Pow2(h.exp + 111));
    }
  }

  /** Converting there and back gives the same bits for everything that is not a NaN. */
  lemma ThereAndBack(v: u16)
    requires !(Half16(v).exp == 31 && Half16(v).frac != 0)
    ensures IsHalf(ToHalf(ToSingle(Half16(v)))) && Bits16(ToHalf(ToSingle(Half16(v)))) == v
  {
    hide Pow2, Doublings, Half16, Bits16, HalfMag, SingleMag, Ulp;
    Whole16(v);
    var h := Half16(v);
    ToSingleExact(h);
    var f := ToSingle(h);
    hide ToSingle;
    if h.exp < 31 {
      Truncates(f);
      RoundsTowardZero(f, h);
      var r := ToHalf(f);
      CodeBack(h);
      CodeBack(r);
      hide ToHalf;
      if Code(h) < Code(r) {
        Rising(Code(h), Code(r));
        UlpPositive(h);
      }
      SameCode(h, r);
    }
  }

  lemma UlpPositive(h: Half)
    ensures 0 < Ulp(h)
  {
    hide Pow2;
  }

  lemma SameCode(h: Half, r: Half)
    requires IsHalf(h) && IsHalf(r)
    ensures Code(h) == Code(r) ==> h.exp == r.exp && h.frac == r.frac
  {
  }

  // ---- the conversions ------------------------------------------------------------------------

  method FromFloat(bits: u32) returns (v: u16)
    ensures IsHalf(ToHalf(Single32(bits))) && Half16(v) == ToHalf(Single32(bits))
  {
    hide Shr, Half16, Bits16, Single32;
    var f := Single32(bits);
    var exp: int := f.exp - 127;
    var h: Half;
    if exp == 128 {
      h := Half(f.negative, 31, if f.frac != 0 then 0x200 else 0);
    } else if exp > 15 {
      h := Half(f.negative, 31, 0);
    } else if exp < -24 {
      h := Half(f.negative, 0, 0);
    } else if exp < -14 {
      h := Half(f.negative, 0, Shr(f.frac + 0x80_0000, -exp - 14 + 13));
    } else {
      h := Half(f.negative, exp + 15, Shr(f.frac, 13));
    }
    if f.exp <= 127 + 15 {
      Truncates(f);
    }
    Fields16(h);
    v := Bits16(h);
  }

  method ToFloat(v: u16) returns (bits: u32)
    ensures Single32(bits) == ToSingle(Half16(v))
  {
    hide Half16, Single32, Bits32;
    var h := Half16(v);
    var f: Single;
    if h.exp == 0 {
      if h.frac == 0 {
        f := Single(h.negative, 0, 0);
      } else {
        var frac, e := Normalise(h.frac);
        f := Single(h.negative, e + 127, (frac - 0x400) * 0x2000);
      }
    } else if h.exp == 31 {
      f := Single(h.negative, 255, h.frac * 0x2000);
    } else {
      f := Single(h.negative, h.exp + (127 - 15), h.frac * 0x2000);
    }
    Fields32(f);
    bits := Bits32(f);
  }

  /** Shifts a subnormal's fraction up until its implicit bit is in place, the exponent down with it. */
  method Normalise(start: nat) returns (frac: nat, e: int)
    requires 0 < start < 0x400
    ensures e == -14 - Doublings(start) && e >= -24 && frac == start * Pow2(Doublings(start)) && 0x400 <= frac < 0x800
  {
    hide Pow2;
    DoublingsFit(start);
    frac, e := start, -14;
    ghost var n := 0;
    PowZero();
    while frac < 0x400
      invariant 0 < frac < 0x800 && 0 <= n && e == -14 - n
      invariant frac == start * Pow2(n) && Doublings(start) == n + Doublings(frac)
      decreases 0x800 - frac
    {
      PowNext(n);
      Regroup(start, 2, Pow2(n));
      Regroup(2, start, Pow2(n));
      frac := frac * 2;
      e := e - 1;
      n := n + 1;
    }
  }

  lemma PowZero()
    ensures Pow2(0) == 1
  {
  }
}
