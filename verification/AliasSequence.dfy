/** Alias candidates: the 12-bit shift register that every node steps through. */
module AliasSequence {

  /** A 12-bit alias; zero stands for none. */
  datatype Alias = Alias(bits: bv12)

  const NONE := Alias(0)

  /** A 48-bit node ID as its four 12-bit chunks, the highest first. */
  datatype NodeId = NodeId(a: bv12, b: bv12, c: bv12, d: bv12)

  function Seed(id: NodeId): (r: Alias)
    ensures r != NONE
  {
    var s := Folded(id);
    if s != NONE then s else Alias(1)
  }

  function Folded(id: NodeId): Alias { Alias(id.a ^ id.b ^ id.c ^ id.d) }

  /** Node IDs that differ in one piece only start at different aliases, except that both may start at one. */
  lemma SeedsDiffer(x: NodeId, y: NodeId)
    requires x != y && (y == x.(a := y.a) || y == x.(b := y.b) || y == x.(c := y.c) || y == x.(d := y.d))
    ensures Seed(x) != Seed(y) || Seed(x) == Alias(1)
  {
    hide Folded;
    if y == x.(a := y.a) {
      OtherA(x, y.a);
    } else if y == x.(b := y.b) {
      OtherB(x, y.b);
    } else if y == x.(c := y.c) {
      OtherC(x, y.c);
    } else {
      OtherD(x, y.d);
    }
  }

  lemma OtherA(x: NodeId, p: bv12)
    requires p != x.a
    ensures Folded(x.(a := p)) != Folded(x)
  {
    FoldedFrom(x);
    FoldedFrom(x.(a := p));
    FirstDiffers(x.a, p, x.b ^ x.c ^ x.d);
    hide Folded;
  }

  lemma OtherB(x: NodeId, p: bv12)
    requires p != x.b
    ensures Folded(x.(b := p)) != Folded(x)
  {
    FoldedFrom(x);
    FoldedFrom(x.(b := p));
    FirstDiffers(x.b, p, x.a ^ x.c ^ x.d);
    hide Folded;
  }

  lemma OtherC(x: NodeId, p: bv12)
    requires p != x.c
    ensures Folded(x.(c := p)) != Folded(x)
  {
    FoldedFrom(x);
    FoldedFrom(x.(c := p));
    FirstDiffers(x.c, p, x.a ^ x.b ^ x.d);
    hide Folded;
  }

  lemma OtherD(x: NodeId, p: bv12)
    requires p != x.d
    ensures Folded(x.(d := p)) != Folded(x)
  {
    FoldedFrom(x);
    FoldedFrom(x.(d := p));
    FirstDiffers(x.d, p, x.a ^ x.b ^ x.c);
    hide Folded;
  }

  lemma FoldedFrom(x: NodeId)
    ensures Folded(x) == Alias(x.a ^ (x.b ^ x.c ^ x.d)) && Folded(x) == Alias(x.b ^ (x.a ^ x.c ^ x.d))
    ensures Folded(x) == Alias(x.c ^ (x.a ^ x.b ^ x.d)) && Folded(x) == Alias(x.d ^ (x.a ^ x.b ^ x.c))
  {
  }

  lemma FirstDiffers(p: bv12, q: bv12, rest: bv12)
    ensures p != q ==> p ^ rest != q ^ rest
  {
  }

  function Next(x: Alias): Alias {
    var s := Shifted(x);
    if s == NONE then Alias(1) else s
  }

  /** One step of the register: the bits move down and the parity of bits 0, 2, 3 and 11 comes in at the top. */
  function Shifted(x: Alias): Alias {
    var bit := (x.bits ^ (x.bits >> 2) ^ (x.bits >> 3) ^ (x.bits >> 11)) & 1;
    Alias((x.bits >> 1) | (bit << 11))
  }

  /** The `n`-th candidate after `x`. */
  function Candidate(x: Alias, n: nat): Alias { if n == 0 then x else Next(Candidate(x, n - 1)) }

  function Steps(x: Alias, n: nat): Alias { if n == 0 then x else Shifted(Steps(x, n - 1)) }

  function Sum(x: Alias, y: Alias): Alias { Alias(x.bits ^ y.bits) }

  // ---- the register is linear and loses nothing -------------------------------------------

  lemma ShiftLinear(x: Alias, y: Alias)
    ensures Shifted(Sum(x, y)) == Sum(Shifted(x), Shifted(y))
  {
  }

  lemma ShiftLosesNothing(x: Alias, y: Alias)
    ensures Shifted(x) == Shifted(y) ==> x == y
    ensures Shifted(x) == NONE <==> x == NONE
  {
  }

  lemma {:induction false} StepsLinear(x: Alias, y: Alias, n: nat)
    ensures Steps(Sum(x, y), n) == Sum(Steps(x, n), Steps(y, n))
    ensures Steps(x, n) == Steps(y, n) ==> x == y
    ensures Steps(x, n) == NONE <==> x == NONE
  {
    hide Shifted, Sum;
    if n != 0 {
      StepsLinear(x, y, n - 1);
      ShiftLinear(Steps(x, n - 1), Steps(y, n - 1));
      ShiftLosesNothing(Steps(x, n - 1), Steps(y, n - 1));
    }
  }

  lemma {:induction false} StepsAdd(x: Alias, m: nat, n: nat)
    ensures Steps(Steps(x, m), n) == Steps(x, m + n)
    decreases n
  {
    hide Shifted;
    if n != 0 {
      StepsAdd(x, m, n - 1);
    }
  }

  /** Never at zero, the register never needs its reset. */
  lemma {:induction false} CandidateIsSteps(x: Alias, n: nat)
    requires x != NONE
    ensures Candidate(x, n) == Steps(x, n) != NONE
  {
    hide Shifted;
    StepsLinear(x, x, n);
    if n != 0 {
      CandidateIsSteps(x, n - 1);
    }
  }

  // ---- its period is 91 -------------------------------------------------------------------

  function Seven(x: Alias): Alias { Shifted(Shifted(Shifted(Shifted(Shifted(Shifted(Shifted(x))))))) }

  function Thirteen(x: Alias): Alias { Shifted(Shifted(Shifted(Shifted(Shifted(Shifted(Seven(x))))))) }

  lemma ThreeSteps(x: Alias, n: nat)
    ensures Steps(x, n + 3) == Shifted(Shifted(Shifted(Steps(x, n))))
  {
    hide Shifted;
    assert Steps(x, n + 2) == Shifted(Steps(x, n + 1));
  }

  lemma Blocks(x: Alias)
    ensures Steps(x, 7) == Seven(x) && Steps(x, 13) == Thirteen(x)
  {
    hide Shifted;
    ThreeSteps(x, 0);
    ThreeSteps(x, 3);
    ThreeSteps(x, 7);
    ThreeSteps(x, 10);
    assert Steps(x, 7) == Shifted(Steps(x, 6));
  }

  lemma NoShortPeriod(x: Alias)
    requires x != NONE
    ensures Steps(x, 7) != x && Steps(x, 13) != x
  {
    Blocks(x);
    NotSeven(x);
    NotThirteen(x);
  }

  lemma NotSeven(x: Alias)
    requires x != NONE
    ensures Seven(x) != x
  {
  }

  lemma NotThirteen(x: Alias)
    requires x != NONE
    ensures Thirteen(x) != x
  {
  }

  predicate Fixed(x: Alias) { Steps(x, 91) == x }

  lemma NinetyOne(x: Alias)
    ensures Steps(x, 91) == Thirteen(Thirteen(Thirteen(Thirteen(Thirteen(Thirteen(Thirteen(x)))))))
  {
    hide Thirteen, Seven, Shifted;
    var a := Steps(x, 13);
    var b := Steps(x, 26);
    var c := Steps(x, 39);
    var d := Steps(x, 52);
    var e := Steps(x, 65);
    var f := Steps(x, 78);
    Blocks(x);
    Blocks(a);
    StepsAdd(x, 13, 13);
    Blocks(b);
    StepsAdd(x, 26, 13);
    Blocks(c);
    StepsAdd(x, 39, 13);
    Blocks(d);
    StepsAdd(x, 52, 13);
    Blocks(e);
    StepsAdd(x, 65, 13);
    Blocks(f);
    StepsAdd(x, 78, 13);
  }

  lemma FixedSum(x: Alias, y: Alias)
    requires Fixed(x) && Fixed(y)
    ensures Fixed(Sum(x, y))
  {
    hide Sum, Shifted;
    StepsLinear(x, y, 91);
  }

  lemma FixedBits0(x: Alias)
    requires x in {NONE, Alias(1), Alias(2), Alias(4), Alias(8), Alias(16), Alias(32), Alias(64)}
    ensures Fixed(x)
  {
    NinetyOne(x);
  }

  lemma FixedBits1(x: Alias)
    requires x in {NONE, Alias(128), Alias(256), Alias(512), Alias(1024), Alias(2048)}
    ensures Fixed(x)
  {
    NinetyOne(x);
  }

  /** The bits of `x` in the places of `mask`. */
  function Part(x: Alias, mask: bv12): Alias { Alias(x.bits & mask) }

  lemma Parts(x: Alias)
    ensures Part(x, 3) == Sum(Part(x, 1), Part(x, 2)) && Part(x, 15) == Sum(Part(x, 3), Sum(Part(x, 4), Part(x, 8)))
    ensures Part(x, 63) == Sum(Part(x, 15), Sum(Part(x, 16), Part(x, 32)))
    ensures Part(x, 255) == Sum(Part(x, 63), Sum(Part(x, 64), Part(x, 128)))
  {
  }

  lemma TopParts(x: Alias)
    ensures x == Sum(Part(x, 255), Sum(Sum(Part(x, 256), Part(x, 512)), Sum(Part(x, 1024), Part(x, 2048))))
  {
  }

  lemma PartsFixed(x: Alias)
    ensures Fixed(Part(x, 1)) && Fixed(Part(x, 2)) && Fixed(Part(x, 4)) && Fixed(Part(x, 8))
    ensures Fixed(Part(x, 16)) && Fixed(Part(x, 32)) && Fixed(Part(x, 64)) && Fixed(Part(x, 128))
    ensures Fixed(Part(x, 256)) && Fixed(Part(x, 512)) && Fixed(Part(x, 1024)) && Fixed(Part(x, 2048))
  {
    hide Fixed;
    FixedBits0(Part(x, 1));
    FixedBits0(Part(x, 2));
    FixedBits0(Part(x, 4));
    FixedBits0(Part(x, 8));
    FixedBits0(Part(x, 16));
    FixedBits0(Part(x, 32));
    FixedBits0(Part(x, 64));
    FixedBits1(Part(x, 128));
    FixedBits1(Part(x, 256));
    FixedBits1(Part(x, 512));
    FixedBits1(Part(x, 1024));
    FixedBits1(Part(x, 2048));
  }

  lemma AllFixed(x: Alias)
    ensures Fixed(x)
  {
    hide Fixed, Part, Sum;
    PartsFixed(x);
    Parts(x);
    TopParts(x);
    FixedSum(Part(x, 1), Part(x, 2));
    FixedSum(Part(x, 4), Part(x, 8));
    FixedSum(Part(x, 3), Sum(Part(x, 4), Part(x, 8)));
    FixedSum(Part(x, 16), Part(x, 32));
    FixedSum(Part(x, 15), Sum(Part(x, 16), Part(x, 32)));
    FixedSum(Part(x, 64), Part(x, 128));
    FixedSum(Part(x, 63), Sum(Part(x, 64), Part(x, 128)));
    FixedSum(Part(x, 256), Part(x, 512));
    FixedSum(Part(x, 1024), Part(x, 2048));
    FixedSum(Sum(Part(x, 256), Part(x, 512)), Sum(Part(x, 1024), Part(x, 2048)));
    FixedSum(Part(x, 255), Sum(Sum(Part(x, 256), Part(x, 512)), Sum(Part(x, 1024), Part(x, 2048))));
  }

  /** Two periods' difference is a period. */
  lemma PeriodDiff(x: Alias, m: nat, n: nat)
    requires n <= m && Steps(x, m) == x && Steps(x, n) == x
    ensures Steps(x, m - n) == x
  {
    hide Shifted;
    StepsAdd(x, m - n, n);
    StepsLinear(Steps(x, m - n), x, n);
  }

  lemma {:induction false} PeriodTimes(x: Alias, n: nat, k: nat)
    requires Steps(x, n) == x
    ensures Steps(x, n * k) == x
    decreases k
  {
    hide Shifted;
    if k != 0 {
      PeriodTimes(x, n, k - 1);
      StepsAdd(x, n * (k - 1), n);
      assert n * k == n * (k - 1) + n;
    }
  }

  /** A period shorter than 91 would make 7 or 13 a period: Euclid's algorithm on it and 91. */
  lemma {:induction false} Euclid(x: Alias, m: nat, n: nat) returns (g: nat)
    requires 0 < m && 0 < n && Steps(x, m) == x && Steps(x, n) == x
    ensures 0 < g && Steps(x, g) == x && m % g == 0 && n % g == 0
    decreases m + n
  {
    hide Shifted;
    if m == n {
      g := m;
    } else if m < n {
      PeriodDiff(x, n, m);
      g := Euclid(x, m, n - m);
      Multiple(n - m, m, g);
    } else {
      PeriodDiff(x, m, n);
      g := Euclid(x, m - n, n);
      Multiple(m - n, n, g);
    }
  }

  lemma Multiple(a: nat, b: nat, g: nat)
    requires 0 < g && a % g == 0 && b % g == 0
    ensures (a + b) % g == 0
  {
    assert a + b == g * (a / g + b / g);
    Whole(a / g + b / g, g);
  }

  lemma Whole(k: nat, g: nat)
    requires 0 < g
    ensures (g * k) % g == 0
  {
    var q, r := (g * k) / g, (g * k) % g;
    Spread(g, k, q);
    Spread(g, q, k);
    if q < k {
      AtLeast(g, k - q);
    } else if k < q {
      AtLeast(g, q - k);
    }
  }

  lemma Spread(g: int, a: int, b: int)
    ensures g * (a - b) == g * a - g * b
  {
  }

  lemma AtLeast(g: nat, k: nat)
    requires 0 < k
    ensures g <= g * k
  {
  }

  lemma Divisors(g: nat)
    requires 0 < g < 91 && 91 % g == 0
    ensures 7 % g == 0 || 13 % g == 0
  {
    assert g == 1 || g == 7 || g == 13;
  }

  lemma NoPeriod(x: Alias, n: nat)
    requires x != NONE && 0 < n < 91
    ensures Steps(x, n) != x
  {
    hide Steps, Shifted;
    if Steps(x, n) == x {
      AllFixed(x);
      var g := Euclid(x, n, 91);
      assert g <= n;
      Divisors(g);
      PeriodTimes(x, g, 7 / g);
      PeriodTimes(x, g, 13 / g);
      NoShortPeriod(x);
    }
  }

  /** The candidates of any node are all different and never zero for 91 steps; then they start over. */
  lemma CandidatesDiffer(id: NodeId, i: nat, j: nat)
    requires i < j < i + 91
    ensures Candidate(Seed(id), i) != NONE
    ensures Candidate(Seed(id), i) != Candidate(Seed(id), j)
    ensures Candidate(Seed(id), i + 91) == Candidate(Seed(id), i)
  {
    hide Seed, Steps, Shifted;
    var s := Seed(id);
    CandidateIsSteps(s, i);
    CandidateIsSteps(s, j);
    CandidateIsSteps(s, i + 91);
    StepsAdd(s, i, j - i);
    StepsAdd(s, i, 91);
    NoPeriod(Steps(s, i), j - i);
    AllFixed(Steps(s, i));
  }
}
