/** The service-mode acknowledgment detector: an online detector against a specification over whole traces. */
module SvcAck {
  import opened Bits

  const MIN_US: nat := 2000
  const MAX_US: nat := 20000
  const WINDOW_US: nat := 200

  // ---- windows ---------------------------------------------------------------------------

  function At(s: seq<u16>, i: int): u16 { if 0 <= i < |s| then s[i] else 0 }

  /** The sum of the four samples that end at `i`; before the first sample everything is zero. */
  function WindowAt(s: seq<u16>, i: int): nat { At(s, i) + At(s, i - 1) + At(s, i - 2) + At(s, i - 3) }

  function Window(s: seq<u16>): nat { WindowAt(s, |s| - 1) }

  function Sum(s: seq<u16>): nat { if s == [] then 0 else Sum(s[..|s| - 1]) + s[|s| - 1] }

  /** The highest full window of a baseline. */
  function Peak(s: seq<u16>): nat
    decreases |s|
  {
    if |s| < 4 then 0
    else
      var before := Peak(s[..|s| - 1]);
      if before < Window(s) then Window(s) else before
  }

  lemma {:induction false} PeakIsHighest(s: seq<u16>, i: nat)
    requires 3 <= i < |s|
    ensures WindowAt(s, i) <= Peak(s)
    ensures exists k :: 3 <= k < |s| && WindowAt(s, k) == Peak(s)
    decreases |s|
  {
    var front := s[..|s| - 1];
    assert forall k :: k < |front| ==> WindowAt(front, k) == WindowAt(s, k);
    if 4 < |s| {
      PeakIsHighest(front, if i < |front| then i else 3);
      var k :| 3 <= k < |front| && WindowAt(front, k) == Peak(front);
      assert WindowAt(s, k) == Peak(front);
      assert WindowAt(s, |s| - 1) == Window(s);
    } else {
      assert WindowAt(s, 3) == Window(s);
    }
  }

  // ---- the threshold ---------------------------------------------------------------------

  function Div(a: nat, n: nat): nat
    requires 0 < n
  {
    a / n
  }

  lemma DivFacts(a: nat, n: nat)
    requires 0 < n
    ensures Div(a, n) * n <= a < Div(a, n) * n + n
  {
  }

  lemma TimesAtLeast(q: nat, p: nat, n: nat)
    requires p <= q
    ensures p * n <= q * n
  {
  }

  lemma TimesOne(q: nat, n: nat)
    requires 0 < n
    ensures q <= q * n
  {
  }

  function MeanOf(sum: u32, n: u32): u32 { if n == 0 then 0 else (DivSmall(sum, n); Div(sum, n)) }

  /** The baseline mean as computed in 32 bits. */
  function Mean(base: seq<u16>): u32 {
    MeanOf(Wrap(Sum(base)), Wrap(|base|))
  }

  lemma DivSmall(a: nat, n: nat)
    requires 0 < n
    ensures Div(a, n) <= a
  {
    hide Div;
    DivFacts(a, n);
    TimesOne(Div(a, n), n);
  }

  lemma {:induction false} SumBound(s: seq<u16>)
    ensures Sum(s) <= 65535 * |s|
  {
    if s != [] {
      SumBound(s[..|s| - 1]);
    }
  }

  lemma MeanSmall(base: seq<u16>)
    requires |base| < 0x1_0000_0000
    ensures Mean(base) <= 65535
  {
    hide Div, Sum;
    var n := |base|;
    WrapSmall(n);
    if n != 0 {
      SumBound(base);
      var sum := Wrap(Sum(base));
      assert sum < 65536 * n;
      hide Wrap;
      DivFacts(sum, n);
      if 65536 <= Div(sum, n) {
        TimesAtLeast(Div(sum, n), 65536, n);
      }
    }
  }

  /** Taking `n` or more away from a dividend lowers the quotient. */
  lemma LessToDivide(a: nat, b: nat, n: nat)
    requires 0 < n && b + n <= a
    ensures Div(b, n) != Div(a, n)
  {
    hide Div;
    DivFacts(a, n);
    DivFacts(b, n);
  }

  /** The computed mean is the true one exactly when the 32-bit sum has not overflowed; 65537 samples never
      overflow it. */
  lemma MeanExact(base: seq<u16>)
    requires 0 < |base| < 0x1_0000_0000
    ensures Mean(base) == Div(Sum(base), |base|) <==> Sum(base) < 0x1_0000_0000
    ensures |base| <= 65537 ==> Sum(base) < 0x1_0000_0000
  {
    hide Div, Sum;
    SumBound(base);
    WrapSmall(|base|);
    if Sum(base) < 0x1_0000_0000 {
      WrapSmall(Sum(base));
    } else {
      LessToDivide(Sum(base), Wrap(Sum(base)), |base|);
    }
  }

  lemma {:induction false} SumOfEqual(n: nat, x: u16)
    ensures Sum(seq(n, _ => x)) == Times(n, x)
  {
    if n != 0 {
      SumOfEqual(n - 1, x);
      assert seq(n, _ => x)[..n - 1] == seq(n - 1, _ => x);
    }
  }

  /** One sample more than that at full scale does. */
  lemma MeanOff()
    ensures var base := seq(65538, _ => 65535 as u16); Mean(base) != Div(Sum(base), |base|)
  {
    hide Div, Sum, Mean;
    SumOfEqual(65538, 65535);
    MeanExact(seq(65538, _ => 65535));
  }

  /** The window's contents when listening starts: a baseline too short to fill it is topped up with its mean. */
  function Filled(base: seq<u16>): (r: seq<u16>)
    ensures 4 <= |r| && base <= r
  {
    if |base| < 4 then base + seq(4 - |base|, _ => Mean(base) % 0x1_0000) else base
  }

  function TopWindow(base: seq<u16>): nat { if |base| < 4 then Window(Filled(base)) else Peak(base) }

  function Swing(base: seq<u16>): nat {
    if 4 * Mean(base) < TopWindow(base) then TopWindow(base) - 4 * Mean(base) else 0
  }

  function Larger(a: nat, b: nat): nat { if a < b then b else a }

  /** Baseline mean plus the larger of the floor and one and a half times the baseline's own swing, all over
      four samples. */
  function Threshold(base: seq<u16>, floor: u16): nat {
    4 * Mean(base) + Larger(Swing(base) + Swing(base) / 2, 4 * floor)
  }

  /** Over a full baseline whose sum fits 32 bits, the threshold is the least that clears the true mean by the floor and
      by one and a half times what any window of the baseline rises above it, but for half a unit; so no window of the
      baseline itself is over it. */
  lemma ThresholdIsLeast(base: seq<u16>, floor: u16)
    requires 4 <= |base| < 0x1_0000_0000 && Sum(base) < 0x1_0000_0000
    ensures var t, m := Threshold(base, floor), 4 * Div(Sum(base), |base|);
      && m + 4 * floor <= t
      && (forall i :: 3 <= i < |base| ==> 3 * (WindowAt(base, i) - m) <= 2 * (t - m) + 1 && WindowAt(base, i) <= t)
      && (t == m + 4 * floor || exists i :: 3 <= i < |base| && 2 * (t - m) <= 3 * (WindowAt(base, i) - m))
  {
    hide Sum, Div, WindowAt, Peak, Mean;
    MeanExact(base);
    PeakIsHighest(base, 3);
    forall i | 3 <= i < |base|
      ensures WindowAt(base, i) <= Peak(base)
    {
      PeakIsHighest(base, i);
    }
  }

  /** With too short a baseline the threshold is baseline plus floor, except that a floor of zero leaves what
      the mean's division cut off. */
  lemma ShortBaseline(base: seq<u16>, floor: u16)
    requires |base| < 4
    ensures Threshold(base, floor) == 4 * Mean(base) + 4 * floor <==>
            floor != 0 || base == [] || Sum(base) % |base| == 0
  {
    hide Sum, Window, Filled, Times, Mean;
    if base != [] {
      ShortSum(base);
      Divides(Sum(base), |base|, Mean(base));
      ShortWindow(base);
    } else {
      EmptyBaseline();
    }
  }

  /** A baseline of one sample at rest and one a unit higher: the threshold is not baseline plus floor. */
  lemma ShortBaselineOff()
    ensures Mean([0, 1]) == 0 && Threshold([0, 1], 0) == 1
  {
    hide Sum, Window, Filled, Times, Mean;
    Sum3(0, 1, 0);
    ShortSum([0, 1]);
    FillOne(Mean([0, 1]));
    ShortWindow([0, 1]);
  }

  lemma Divides(sum: nat, n: nat, m: nat)
    requires 0 < n < 4 && Times(n, m) <= sum < Times(n, m) + n
    ensures sum % n == 0 <==> sum == Times(n, m)
  {
    hide Times;
    FillOne(m);
    if n == 2 {
      assert sum % 2 == sum - 2 * m;
    } else if n == 3 {
      assert sum % 3 == sum - 3 * m;
    }
  }

  lemma EmptyBaseline()
    ensures Mean([]) == 0 && Window(Filled([])) == 0
  {
    hide Sum;
    WrapSmall(0);
    WindowOf(0, 0, 0, 0);
    assert Filled([]) == [0, 0, 0, 0];
  }

  function Times(n: nat, m: nat): nat { n * m }

  lemma ShortSum(base: seq<u16>)
    requires 0 < |base| < 4
    ensures Times(|base|, Mean(base)) <= Sum(base) < Times(|base|, Mean(base)) + |base|
    ensures Mean(base) <= 65535
  {
    hide Wrap, Div, Sum;
    MeanSmall(base);
    SumBound(base);
    WrapSmall(|base|);
    WrapSmall(Sum(base));
    DivFacts(Sum(base), |base|);
  }

  lemma SumNext(s: seq<u16>, x: u16)
    ensures Sum(s + [x]) == Sum(s) + x
  {
    assert (s + [x])[..|s|] == s;
  }

  lemma Sum3(a: u16, b: u16, c: u16)
    ensures Sum([]) == 0 && Sum([a]) == a && Sum([a, b]) == a + b && Sum([a, b, c]) == a + b + c
  {
    hide Sum;
    SumNone();
    SumNext([], a);
    SumNext([a], b);
    SumNext([a, b], c);
    assert [] + [a] == [a] && [a] + [b] == [a, b] && [a, b] + [c] == [a, b, c];
  }

  lemma SumNone()
    ensures Sum([]) == 0
  {
  }

  lemma WindowOf(a: u16, b: u16, c: u16, d: u16)
    ensures Window([a, b, c, d]) == a + b + c + d
  {
  }

  lemma FilledShort(base: seq<u16>, i: nat)
    requires |base| < 4 && Mean(base) <= 65535 && i < 4
    ensures |Filled(base)| == 4 && Filled(base)[i] == if i < |base| then base[i] else Mean(base)
  {
    hide Mean;
  }

  lemma FillOne(m: nat)
    ensures Times(1, m) == m && Times(2, m) == m + m && Times(3, m) == m + m + m
  {
  }

  lemma ShortWindow(base: seq<u16>)
    requires 0 < |base| < 4 && Mean(base) <= 65535
    ensures Window(Filled(base)) == Sum(base) + 4 * Mean(base) - Times(|base|, Mean(base))
  {
    hide Sum, Mean, Window, Filled, Times;
    var m, f := Mean(base), Filled(base);
    forall i: nat | i < 4
      ensures |f| == 4 && f[i] == if i < |base| then base[i] else m
    {
      FilledShort(base, i);
    }
    assert f == [f[0], f[1], f[2], f[3]];
    WindowOf(f[0], f[1], f[2], f[3]);
    FillOne(m);
    Sum3(base[0], if 1 < |base| then base[1] else 0, if 2 < |base| then base[2] else 0);
    assert |base| == 1 ==> base == [base[0]];
    assert |base| == 2 ==> base == [base[0], base[1]];
    assert |base| == 3 ==> base == [base[0], base[1], base[2]];
  }

  lemma PeakNext(s: seq<u16>, x: u16)
    ensures var w := Window(s + [x]);
      Peak(s + [x]) == if 3 <= |s| && Peak(s) < w then w else Peak(s)
  {
    assert (s + [x])[..|s|] == s;
  }

  // ---- traces ----------------------------------------------------------------------------

  datatype Heard = Heard(raw: u16, now: u32)

  function Raws(heard: seq<Heard>): (r: seq<u16>)
    ensures |r| == |heard|
  {
    seq(|heard|, i requires 0 <= i < |heard| => heard[i].raw)
  }

  /** The window that ends with sample `k` is over the limit. */
  predicate High(start: seq<u16>, heard: seq<Heard>, limit: nat, k: nat) {
    limit < WindowAt(start + Raws(heard), |start| + k)
  }

  /** Elapsed microseconds on a clock that wraps at 32 bits. */
  function Since(now: u32, from: u32): u32 { Wrap(now - from) }

  /** Samples `a` to `b - 1` are a maximal run over the limit that `b` has ended. */
  ghost predicate Run(start: seq<u16>, heard: seq<Heard>, limit: nat, a: nat, b: nat) {
    && a < b < |heard|
    && (a == 0 || !High(start, heard, limit, a - 1))
    && (forall k :: a <= k < b ==> High(start, heard, limit, k))
    && !High(start, heard, limit, b)
  }

  ghost predicate Pulse(start: seq<u16>, heard: seq<Heard>, limit: nat, a: nat, b: nat) {
    Run(start, heard, limit, a, b) && MIN_US <= Since(heard[b].now, heard[a].now) <= MAX_US
  }

  /** The trace holds a finished pulse of acceptable width. */
  ghost predicate Acked(start: seq<u16>, heard: seq<Heard>, limit: nat) {
    exists a, b :: Pulse(start, heard, limit, a, b)
  }

  /** Sample `rise` began a run over the limit that has not ended. */
  ghost predicate Open(start: seq<u16>, heard: seq<Heard>, limit: nat, rise: nat) {
    && rise < |heard|
    && (rise == 0 || !High(start, heard, limit, rise - 1))
    && (forall k :: rise <= k < |heard| ==> High(start, heard, limit, k))
  }

  lemma LastWindow(start: seq<u16>, heard: seq<Heard>, x: Heard, limit: nat)
    ensures start + Raws(heard + [x]) == start + Raws(heard) + [x.raw]
    ensures High(start, heard + [x], limit, |heard|) <==> limit < Window(start + Raws(heard + [x]))
  {
    assert Raws(heard + [x]) == Raws(heard) + [x.raw];
  }

  lemma HighStable(start: seq<u16>, heard: seq<Heard>, x: Heard, limit: nat, k: nat)
    requires k < |heard|
    ensures High(start, heard + [x], limit, k) == High(start, heard, limit, k)
  {
    var s, t := start + Raws(heard), start + Raws(heard + [x]);
    assert forall i :: i < |s| ==> At(s, i) == At(t, i);
  }

  lemma RunStable(start: seq<u16>, heard: seq<Heard>, x: Heard, limit: nat, a: nat, b: nat)
    requires b < |heard|
    ensures Run(start, heard + [x], limit, a, b) == Run(start, heard, limit, a, b)
  {
    hide High;
    forall k: nat | k < |heard|
      ensures High(start, heard + [x], limit, k) == High(start, heard, limit, k)
    {
      HighStable(start, heard, x, limit, k);
    }
  }

  /** What the samples so far say, once `x` is heard: the old pulses, and the run that `x` may end. */
  lemma OneMore(start: seq<u16>, heard: seq<Heard>, x: Heard, limit: nat)
    ensures Acked(start, heard + [x], limit) <==>
            Acked(start, heard, limit) || exists a :: Pulse(start, heard + [x], limit, a, |heard|)
  {
    hide High, Run;
    var all := heard + [x];
    forall a: nat, b: nat | b < |heard|
      ensures Pulse(start, all, limit, a, b) == Pulse(start, heard, limit, a, b)
    {
      RunStable(start, heard, x, limit, a, b);
      if Run(start, heard, limit, a, b) {
        RunBounds(start, heard, limit, a, b);
      }
    }
    if Acked(start, all, limit) {
      var a, b :| Pulse(start, all, limit, a, b);
      RunBounds(start, all, limit, a, b);
    }
    if Acked(start, heard, limit) {
      var a, b :| Pulse(start, heard, limit, a, b);
      RunBounds(start, heard, limit, a, b);
      assert Pulse(start, all, limit, a, b);
    }
  }

  /** Once acknowledged, always acknowledged. */
  lemma {:induction false} AckLasts(start: seq<u16>, heard: seq<Heard>, limit: nat, n: nat)
    requires n <= |heard| && Acked(start, heard[..n], limit)
    ensures Acked(start, heard, limit)
    decreases |heard|
  {
    hide Acked;
    if n == |heard| {
      assert heard[..n] == heard;
    } else {
      var front := heard[..|heard| - 1];
      assert front[..n] == heard[..n] && front + [heard[|heard| - 1]] == heard;
      AckLasts(start, front, limit, n);
      OneMore(start, front, heard[|heard| - 1], limit);
    }
  }

  lemma RunBounds(start: seq<u16>, heard: seq<Heard>, limit: nat, a: nat, b: nat)
    requires Run(start, heard, limit, a, b)
    ensures a < b < |heard|
  {
  }

  /** A sample not over the limit ends the open run, if there is one. */
  lemma Ends(start: seq<u16>, heard: seq<Heard>, x: Heard, limit: nat, rise: nat, a: nat)
    requires Open(start, heard, limit, rise)
    ensures Run(start, heard + [x], limit, a, |heard|) <==> a == rise && !High(start, heard + [x], limit, |heard|)
  {
    hide High;
    forall k: nat | k < |heard|
      ensures High(start, heard + [x], limit, k) == High(start, heard, limit, k)
    {
      HighStable(start, heard, x, limit, k);
    }
  }

  lemma NothingEnds(start: seq<u16>, heard: seq<Heard>, x: Heard, limit: nat, a: nat)
    requires heard == [] || !High(start, heard, limit, |heard| - 1)
    ensures !Run(start, heard + [x], limit, a, |heard|)
  {
    hide High;
    if heard != [] {
      HighStable(start, heard, x, limit, |heard| - 1);
    }
  }

  lemma StaysOpen(start: seq<u16>, heard: seq<Heard>, x: Heard, limit: nat, rise: nat)
    requires Open(start, heard, limit, rise) && High(start, heard + [x], limit, |heard|)
    ensures Open(start, heard + [x], limit, rise)
  {
    hide High;
    forall k: nat | k < |heard|
      ensures High(start, heard + [x], limit, k) == High(start, heard, limit, k)
    {
      HighStable(start, heard, x, limit, k);
    }
  }

  lemma Opens(start: seq<u16>, heard: seq<Heard>, x: Heard, limit: nat)
    requires heard == [] || !High(start, heard, limit, |heard| - 1)
    requires High(start, heard + [x], limit, |heard|)
    ensures Open(start, heard + [x], limit, |heard|)
  {
    hide High;
    if heard != [] {
      HighStable(start, heard, x, limit, |heard| - 1);
    }
  }

  /** On the wrapping clock a pulse shorter than 2^32 microseconds (71 minutes) has its real width, so it is
      taken exactly if that is acceptable, and the caller is told to go on listening for as long as an open
      pulse can still end acceptably. */
  lemma RealWidth(rise: nat, now: nat, end: nat)
    requires rise <= now <= end < rise + 0x1_0000_0000
    ensures Since(Wrap(end), Wrap(rise)) == end - rise
    ensures end - rise <= MAX_US ==> Since(Wrap(now), Wrap(rise)) <= MAX_US + WINDOW_US
  {
    SinceReal(rise, end);
    SinceReal(rise, now);
  }

  lemma SinceReal(rise: nat, end: nat)
    requires rise <= end < rise + 0x1_0000_0000
    ensures Since(Wrap(end), Wrap(rise)) == end - rise
  {
    var low: int := Wrap(rise);
    WrapAdds(end, -low);
    WrapAdds(low, end - rise - low);
    WrapSmall(end - rise);
    assert Wrap(end - low) == Wrap(Wrap(rise) + (end - rise - low)) by { WrapAdds(rise, end - rise - low); }
  }

  // ---- the detector ----------------------------------------------------------------------

  /** The ring holds the last four samples, oldest at `pos`. */
  predicate RingHolds(ring: seq<u16>, pos: nat, fed: seq<u16>) {
    && |ring| == 4 && pos < 4
    && ring[pos] == At(fed, |fed| - 4)
    && ring[(pos + 1) % 4] == At(fed, |fed| - 3)
    && ring[(pos + 2) % 4] == At(fed, |fed| - 2)
    && ring[(pos + 3) % 4] == At(fed, |fed| - 1)
  }

  lemma RingStep(ring: seq<u16>, pos: nat, fed: seq<u16>, raw: u16)
    requires RingHolds(ring, pos, fed)
    ensures RingHolds(ring[pos := raw], (pos + 1) % 4, fed + [raw])
    ensures Window(fed + [raw]) == Window(fed) - ring[pos] + raw && ring[pos] <= Window(fed) <= 4 * 65535
  {
    var next := fed + [raw];
    assert forall i :: i < |fed| ==> At(next, i) == At(fed, i);
  }

  class Detector {
    const ring: array<u16>
    var ringSum: u32
    var ringPos: nat
    var ringFill: nat
    var baseSum: u32
    var baseN: u32
    var basePeakSum: u32
    var thresholdSum: u32
    var above: bool
    var aboveSince: u32
    var acked: bool
    /** Everything that has gone through the window; the baseline; what was heard since arming. */
    ghost var fed: seq<u16>
    ghost var base: seq<u16>
    ghost var heard: seq<Heard>
    ghost var rise: nat

    /** The running sum is the true window sum. */
    ghost predicate Valid()
      reads this, ring
    {
      && RingHolds(ring[..], ringPos, fed)
      && ringSum == Window(fed)
      && ringFill == if |fed| < 4 then |fed| else 4
    }

    ghost predicate Measuring()
      reads this, ring
    {
      && Valid() && fed == base && !acked && !above
      && baseN == Wrap(|base|)
      && baseSum == Wrap(Sum(base))
      && basePeakSum == Peak(base)
    }

    /** The flags say exactly what the trace says. */
    ghost predicate Listening()
      reads this, ring
    {
      && Valid() && fed == Filled(base) + Raws(heard)
      && (acked <==> Acked(Filled(base), heard, thresholdSum))
      && (!acked ==> if above then Open(Filled(base), heard, thresholdSum, rise) && aboveSince == heard[rise].now
                     else heard == [] || !High(Filled(base), heard, thresholdSum, |heard| - 1))
    }

    constructor ()
      ensures Measuring() && base == [] && fresh(ring)
    {
      ring := new u16[4](_ => 0);
      ringSum, ringPos, ringFill := 0, 0, 0;
      baseSum, baseN, basePeakSum := 0, 0, 0;
      thresholdSum, above, aboveSince, acked := 0, false, 0, false;
      fed, base, heard, rise := [], [], [], 0;
    }

    method Smooth(raw: u16) returns (sum: u32)
      requires Valid()
      modifies this`ringSum, this`ringPos, this`ringFill, this`fed, ring
      ensures Valid() && fed == old(fed) + [raw] && sum == Window(fed)
    {
      hide Wrap, WindowAt, At;
      RingStep(ring[..], ringPos, fed, raw);
      WrapSmall(ringSum - ring[ringPos]);
      ringSum := Wrap(ringSum - ring[ringPos]);
      WrapSmall(ringSum + raw);
      ring[ringPos] := raw;
      ringSum := Wrap(ringSum + raw);
      ringPos := (ringPos + 1) % 4;
      if ringFill < 4 {
        ringFill := ringFill + 1;
      }
      fed := fed + [raw];
      return ringSum;
    }

    method Baseline(raw: u16)
      requires Measuring()
      modifies this, ring
      ensures Measuring() && base == old(base) + [raw]
    {
      hide Wrap, Window, RingHolds, Peak, Sum;
      SumNext(base, raw);
      PeakNext(base, raw);
      WrapAdds(Sum(base), raw);
      WrapAdds(|base|, 1);
      var sum := Smooth(raw);
      base := base + [raw];
      baseSum := Wrap(baseSum + raw);
      baseN := Wrap(baseN + 1);
      if ringFill == 4 && basePeakSum < sum {
        basePeakSum := sum;
      }
    }

    /** Fills up a window that the baseline was too short for. */
    method TopUp(mean: u16)
      requires Valid() && |fed| < 4
      modifies this`ringSum, this`ringPos, this`ringFill, this`fed, ring
      ensures Valid() && fed == old(fed) + seq(4 - |old(fed)|, _ => mean)
    {
      hide Wrap, Window, RingHolds;
      ghost var was := fed;
      var i := ringFill;
      while i < 4
        invariant |was| <= i <= 4 && Valid()
        invariant |fed| == i && was <= fed && forall k :: |was| <= k < i ==> fed[k] == mean
      {
        var _ := Smooth(mean);
        i := i + 1;
      }
    }

    /** Sets the threshold from the baseline. */
    method SetThreshold(floor: u16, mean32: u32)
      requires mean32 == Mean(base) && basePeakSum == TopWindow(base)
      modifies this`thresholdSum
      ensures |base| < 0x1_0000_0000 ==> thresholdSum == Threshold(base, floor)
    {
      hide Wrap, Mean, TopWindow;
      if |base| < 0x1_0000_0000 {
        MeanSmall(base);
        ThresholdFits(base, floor);
      }
      var mean: int := mean32;
      var meanSum := Wrap(mean * 4);
      var swing: int := if basePeakSum > meanSum then basePeakSum - meanSum else 0;
      var margin := Wrap(swing + swing / 2);
      var floorSum: int := floor * 4;
      thresholdSum := Wrap(meanSum + if margin > floorSum then margin else floorSum);
    }

    method Arm(floor: u16) returns (mean: u16)
      requires Measuring()
      modifies this, ring
      ensures Listening() && base == old(base) && heard == [] && !acked && !Acked(Filled(base), heard, thresholdSum)
      ensures |base| < 0x1_0000_0000 ==> mean == Mean(base) && thresholdSum == Threshold(base, floor)
    {
      hide Wrap, Window, RingHolds, Sum, Peak, MeanOf, Threshold, Acked;
      var mean32 := MeanOf(baseSum, baseN);
      mean := mean32 % 0x1_0000;
      if ringFill < 4 {
        TopUp(mean);
        basePeakSum := ringSum;
      }
      assert fed == Filled(base);
      if |base| < 0x1_0000_0000 {
        MeanSmall(base);
      }
      hide Filled;
      SetThreshold(floor, mean32);
      above := false;
      acked := false;
      heard := [];
      assert fed == Filled(base) + Raws(heard);
      NothingHeard(base, thresholdSum);
    }

    method Sample(raw: u16, now: u32) returns (r: bool)
      requires Listening()
      modifies this, ring
      ensures Listening() && base == old(base) && thresholdSum == old(thresholdSum)
      ensures heard == old(heard) + [Heard(raw, now)]
      ensures r == acked && (r <==> Acked(Filled(base), heard, thresholdSum))
    {
      hide Wrap, Window, RingHolds, Filled, Acked, High;
      ghost var start, limit, x := Filled(base), thresholdSum, Heard(raw, now);
      var sum := Smooth(raw);
      ghost var was := heard;
      heard := heard + [x];
      LastWindow(start, was, x, limit);
      OneMore(start, was, x, limit);
      if acked {
        return true;
      }
      if above {
        forall a: nat
          ensures Run(start, heard, limit, a, |was|) <==> a == rise && sum <= limit
        {
          Ends(start, was, x, limit, rise, a);
        }
      } else {
        forall a: nat
          ensures !Run(start, heard, limit, a, |was|)
        {
          NothingEnds(start, was, x, limit, a);
        }
      }
      hide Run;
      if sum > thresholdSum {
        if !above {
          Opens(start, was, x, limit);
          above := true;
          aboveSince := now;
          rise := |was|;
        } else {
          StaysOpen(start, was, x, limit, rise);
        }
        return false;
      }
      if above {
        var width := Since(now, aboveSince);
        assert heard[rise] == was[rise] && heard[|was|] == x;
        assert Pulse(start, heard, limit, rise, |was|) <==> MIN_US <= width <= MAX_US;
        above := false;
        if MIN_US <= width <= MAX_US {
          acked := true;
        }
      }
      return acked;
    }

    /** The caller goes on listening: a rise is in progress that could still end as an acknowledgment. */
    function Pending(now: u32): bool
      reads this
    {
      !acked && above && Since(now, aboveSince) <= MAX_US + WINDOW_US
    }
  }

  lemma NothingHeard(base: seq<u16>, limit: nat)
    ensures !Acked(Filled(base), [], limit)
  {
  }

  /** None of the threshold's arithmetic wraps. */
  lemma ThresholdFits(base: seq<u16>, floor: u16)
    requires Mean(base) <= 65535
    ensures Wrap(Mean(base) * 4) == Mean(base) * 4 && Wrap(Swing(base) + Swing(base) / 2) == Swing(base) + Swing(base) / 2
    ensures Wrap(Threshold(base, floor)) == Threshold(base, floor)
  {
    hide Wrap, Mean, TopWindow;
    TopBound(base);
    WrapSmall(Mean(base) * 4);
    WrapSmall(Swing(base) + Swing(base) / 2);
    WrapSmall(Threshold(base, floor));
  }

  lemma TopBound(base: seq<u16>)
    ensures TopWindow(base) <= 4 * 65535
  {
    hide At, Peak, Filled;
    PeakBound(base);
  }

  lemma {:induction false} PeakBound(s: seq<u16>)
    ensures Peak(s) <= 4 * 65535
    decreases |s|
  {
    hide At;
    if 4 <= |s| {
      PeakBound(s[..|s| - 1]);
    }
  }

  /** One instruction's listening: baseline, arm, then sample until an acknowledgment is seen. */
  method Listen(base: seq<u16>, floor: u16, heard: seq<Heard>) returns (ack: bool)
    requires |base| < 0x1_0000_0000
    ensures ack <==> Acked(Filled(base), heard, Threshold(base, floor))
  {
    hide Wrap, Threshold, Filled, Acked, Detector.Measuring, Detector.Listening;
    var d := new Detector();
    var i := 0;
    while i < |base|
      invariant i <= |base| && d.Measuring() && d.base == base[..i] && fresh(d) && fresh(d.ring)
    {
      d.Baseline(base[i]);
      i := i + 1;
    }
    assert base[..i] == base;
    var _ := d.Arm(floor);
    ack := false;
    i := 0;
    while i < |heard| && !ack
      invariant i <= |heard| && fresh(d) && fresh(d.ring)
      invariant d.Listening() && d.base == base && d.thresholdSum == Threshold(base, floor)
      invariant d.heard == heard[..i] && (ack <==> Acked(Filled(base), heard[..i], Threshold(base, floor)))
    {
      ack := d.Sample(heard[i].raw, heard[i].now);
      i := i + 1;
    }
    assert heard[..|heard|] == heard;
    if ack {
      AckLasts(Filled(base), heard, Threshold(base, floor), i);
    }
  }
}
