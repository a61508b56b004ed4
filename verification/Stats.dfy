/** Summary statistics of a cycle's round-trip times, with the program's floating-point
    ratios and interpolation taken over the reals. */
module Stats {
  // config.MaxSampleRTT, in nanoseconds, and config.MaxPingsPerCycle.
  const MAX_SAMPLE := 4_294_967_295 * 1000
  const MAX_PINGS: nat := 65443
  const MAX_INT64 := 0x7fff_ffff_ffff_ffff

  /** bands are the 18 percentiles of PercentileSet, 5% to 95% without the median. */
  datatype Summary = Summary(min: int, max: int, mean: int, median: int, bands: seq<int>)

  const BANDS: nat := 18

  const EMPTY := Summary(0, 0, 0, 0, seq(BANDS, _ => 0))

  function Ratio(k: nat): real { (if k < 9 then 5 * (k + 1) else 5 * (k + 2)) as real / 100.0 }

  ghost predicate Ascending(s: seq<int>) {
    forall i, j :: 0 <= i < j < |s| ==> s[i] <= s[j]
  }

  // ---------------------------------------------------------------- percentiles

  /** The rank a ratio points at, fraction included. */
  function Position(n: nat, p: real): real { p * (n - 1) as real }

  lemma PositionIsInside(p: real, n: nat)
    requires n >= 2 && 0.0 < p < 1.0
    ensures 0.0 < Position(n, p) < (n - 1) as real
  {
    var last := (n - 1) as real;
    assert (1.0 - p) * last > 0.0;
  }

  lemma PositionGrows(n: nat, p: real, q: real)
    requires n >= 1 && p <= q
    ensures Position(n, p) <= Position(n, q)
  {
    Scales(p, q, (n - 1) as real);
  }

  /** A fraction f of the way from rank i to the next. */
  function Between(s: seq<int>, i: nat, f: real): int
    requires i + 1 < |s|
  {
    s[i] + (f * (s[i + 1] - s[i]) as real).Floor
  }

  /** Linear interpolation between the closest ranks. */
  function Interpolated(s: seq<int>, pos: real): int
    requires 0.0 < pos < (|s| - 1) as real
  {
    var lo := pos.Floor;
    var hi := if lo as real == pos then lo else lo + 1;
    if lo == hi then s[lo] else Between(s, lo, pos - lo as real)
  }

  function Percentile(s: seq<int>, p: real): int
    requires s != []
  {
    if |s| == 1 || p <= 0.0 then s[0]
    else if p >= 1.0 then s[|s| - 1]
    else
      PositionIsInside(p, |s|);
      Interpolated(s, Position(|s|, p))
  }

  lemma Scales(f: real, g: real, d: real)
    requires f <= g && d >= 0.0
    ensures f * d <= g * d
  {
    NotNegative(g - f, d);
    assert g * d - f * d == (g - f) * d;
  }

  lemma NotNegative(f: real, d: real)
    requires f >= 0.0 && d >= 0.0
    ensures f * d >= 0.0
  {
  }

  /** The interpolated step stays within its gap and grows with the fraction. */
  lemma FractionOf(f: real, g: real, gap: int)
    requires 0.0 <= f <= g <= 1.0 && gap >= 0
    ensures 0 <= (f * gap as real).Floor <= (g * gap as real).Floor <= gap
  {
    var a, b, d := f * gap as real, g * gap as real, gap as real;
    assert 0.0 <= a by {
      NotNegative(f, d);
    }
    assert a <= b by {
      Scales(f, g, d);
    }
    assert b <= d by {
      NotNegative(1.0 - g, d);
      assert d - b == (1.0 - g) * d;
    }
    FloorGrows(0.0, a);
    FloorGrows(a, b);
    FloorGrows(b, d);
  }

  lemma FloorGrows(x: real, y: real)
    requires x <= y
    ensures x.Floor <= y.Floor
  {
  }

  lemma BetweenIsWithin(s: seq<int>, i: nat, f: real)
    requires Ascending(s) && i + 1 < |s| && 0.0 <= f <= 1.0
    ensures s[i] <= Between(s, i, f) <= s[i + 1]
  {
    FractionOf(f, 1.0, s[i + 1] - s[i]);
  }

  lemma BetweenGrows(s: seq<int>, i: nat, f: real, g: real)
    requires Ascending(s) && i + 1 < |s| && 0.0 <= f <= g <= 1.0
    ensures Between(s, i, f) <= Between(s, i, g)
  {
    FractionOf(f, g, s[i + 1] - s[i]);
  }

  lemma BetweenStarts(s: seq<int>, i: nat)
    requires i + 1 < |s|
    ensures Between(s, i, 0.0) == s[i]
  {
  }

  /** An interpolated value is a fraction of one step. */
  lemma InterpolatedAt(s: seq<int>, pos: real) returns (i: nat, f: real)
    requires 0.0 < pos < (|s| - 1) as real
    ensures i + 1 < |s| && 0.0 <= f < 1.0 && i as real + f == pos
    ensures Interpolated(s, pos) == Between(s, i, f)
  {
    i, f := pos.Floor, pos - pos.Floor as real;
    BetweenStarts(s, i);
  }

  /** A percentile lies between the extremes. */
  lemma PercentileIsWithin(s: seq<int>, p: real)
    requires Ascending(s) && s != []
    ensures s[0] <= Percentile(s, p) <= s[|s| - 1]
  {
    if |s| >= 2 && 0.0 < p < 1.0 {
      PositionIsInside(p, |s|);
      var i, f := InterpolatedAt(s, Position(|s|, p));
      BetweenIsWithin(s, i, f);
    }
  }

  lemma SumOrder(i: nat, f: real, j: nat, g: real)
    requires i as real + f <= j as real + g && 0.0 <= f < 1.0 && 0.0 <= g < 1.0
    ensures i < j || (i == j && f <= g)
  {
  }

  lemma StepsGrow(s: seq<int>, i: nat, f: real, j: nat, g: real)
    requires Ascending(s) && i + 1 < |s| && j + 1 < |s| && 0.0 <= f < 1.0 && 0.0 <= g < 1.0
    requires i < j || (i == j && f <= g)
    ensures Between(s, i, f) <= Between(s, j, g)
  {
    if i == j {
      BetweenGrows(s, i, f, g);
    } else {
      BetweenIsWithin(s, i, f);
      BetweenIsWithin(s, j, g);
      assert s[i + 1] <= s[j];
    }
  }

  lemma InterpolatedGrows(s: seq<int>, x: real, y: real)
    requires Ascending(s) && 0.0 < x <= y < (|s| - 1) as real
    ensures Interpolated(s, x) <= Interpolated(s, y)
  {
    var i, f := InterpolatedAt(s, x);
    var j, g := InterpolatedAt(s, y);
    SumOrder(i, f, j, g);
    StepsGrow(s, i, f, j, g);
  }

  /** A greater ratio never gives a smaller percentile. */
  lemma PercentileGrows(s: seq<int>, p: real, q: real)
    requires Ascending(s) && s != [] && p <= q
    ensures Percentile(s, p) <= Percentile(s, q)
  {
    if |s| == 1 || p <= 0.0 || q >= 1.0 {
      PercentileIsWithin(s, p);
      PercentileIsWithin(s, q);
    } else {
      PositionIsInside(p, |s|);
      PositionIsInside(q, |s|);
      PositionGrows(|s|, p, q);
      InterpolatedGrows(s, Position(|s|, p), Position(|s|, q));
    }
  }

  // ---------------------------------------------------------------- the summary

  function Sum(s: seq<int>): int {
    if s == [] then 0 else Sum(s[..|s| - 1]) + s[|s| - 1]
  }

  lemma {:induction false} SumIsBetween(s: seq<int>, lo: int, hi: int)
    requires forall i :: 0 <= i < |s| ==> lo <= s[i] <= hi
    ensures lo * |s| <= Sum(s) <= hi * |s|
  {
    if s != [] {
      SumIsBetween(s[..|s| - 1], lo, hi);
      assert lo * |s| == lo * (|s| - 1) + lo && hi * |s| == hi * (|s| - 1) + hi;
    }
  }

  /** A conversion to an integer, toward zero. */
  function Truncated(x: real): int { if x >= 0.0 then x.Floor else -(-x).Floor }

  /** An integer division, toward zero. */
  function Quotient(a: int, n: nat): int
    requires n > 0
  {
    if a >= 0 then a / n else -((-a) / n)
  }

  function SummaryOf(s: seq<int>): Summary {
    if s == [] then EMPTY
    else
      Summary(s[0], s[|s| - 1], Truncated(Sum(s) as real / |s| as real), Percentile(s, 0.5),
              seq(BANDS, k requires 0 <= k < BANDS => Percentile(s, Ratio(k))))
  }

  /** 0 <= Min <= P5 <= ... <= P45 <= Median <= P55 <= ... <= P95 <= Max, and Mean between. */
  ghost predicate Ladder(m: Summary) {
    && |m.bands| == BANDS
    && 0 <= m.min <= m.bands[0]
    && (forall i, j :: 0 <= i < j < BANDS ==> m.bands[i] <= m.bands[j])
    && m.bands[8] <= m.median <= m.bands[9]
    && m.bands[BANDS - 1] <= m.max
    && m.min <= m.mean <= m.max
  }

  lemma TruncatedIsBetween(x: real, lo: int, hi: int)
    requires lo as real <= x <= hi as real
    ensures lo <= Truncated(x) <= hi
  {
    FloorGrows(lo as real, x);
    FloorGrows(x, hi as real);
    FloorGrows((-hi) as real, -x);
    FloorGrows(-x, (-lo) as real);
  }

  lemma DividesBetween(s: real, n: real, lo: real, hi: real)
    requires n > 0.0 && lo * n <= s <= hi * n
    ensures lo <= s / n <= hi
  {
    var m := s / n;
    assert m * n == s;
    if m < lo {
      ScalesStrictly(m, lo, n);
    }
    if m > hi {
      ScalesStrictly(hi, m, n);
    }
  }

  lemma ScalesStrictly(f: real, g: real, d: real)
    requires f < g && d > 0.0
    ensures f * d < g * d
  {
    assert g * d - f * d == (g - f) * d;
  }

  lemma MeanIsBetween(sum: int, n: nat, lo: int, hi: int)
    requires n > 0 && lo * n <= sum <= hi * n
    ensures lo <= Truncated(sum as real / n as real) <= hi
  {
    assert (lo * n) as real == lo as real * n as real && (hi * n) as real == hi as real * n as real;
    DividesBetween(sum as real, n as real, lo as real, hi as real);
    TruncatedIsBetween(sum as real / n as real, lo, hi);
  }

  /** The summary of any round-trip times is a ladder, no higher than the highest. */
  lemma SummaryIsLadder(s: seq<int>, top: int)
    requires Ascending(s) && forall i :: 0 <= i < |s| ==> 0 <= s[i] <= top
    requires top >= 0
    ensures Ladder(SummaryOf(s)) && SummaryOf(s).max <= top
  {
    if s != [] {
      var m := SummaryOf(s);
      PercentileIsWithin(s, Ratio(0));
      PercentileIsWithin(s, Ratio(BANDS - 1));
      PercentileGrows(s, Ratio(8), 0.5);
      PercentileGrows(s, 0.5, Ratio(9));
      forall i, j | 0 <= i < j < BANDS ensures m.bands[i] <= m.bands[j] {
        PercentileGrows(s, Ratio(i), Ratio(j));
      }
      SumIsBetween(s, s[0], s[|s| - 1]);
      MeanIsBetween(Sum(s), |s|, s[0], s[|s| - 1]);
    }
  }

  /** The nanoseconds of a cycle's samples sum within 64 bits. */
  lemma SumFits(s: seq<int>)
    requires |s| <= MAX_PINGS && forall i :: 0 <= i < |s| ==> 0 <= s[i] <= MAX_SAMPLE
    ensures 0 <= Sum(s) <= MAX_INT64
  {
    SumIsBetween(s, 0, MAX_SAMPLE);
    assert MAX_SAMPLE * |s| <= MAX_SAMPLE * MAX_PINGS;
  }

  // ---------------------------------------------------------------- the program

  /** s is the values in order. */
  ghost predicate SortedFrom(s: seq<int>, rtts: seq<int>) {
    Ascending(s) && multiset(s) == multiset(rtts)
  }

  ghost predicate Summarizes(m: Summary, rtts: seq<int>) {
    exists s :: SortedFrom(s, rtts) && m == SummaryOf(s)
  }

  lemma HeadIsLeast(s: seq<int>, x: int)
    requires Ascending(s) && x in multiset(s)
    ensures s != [] && s[0] <= x
  {
    var i :| 0 <= i < |s| && s[i] == x;
  }

  lemma TailsAgree(s: seq<int>, t: seq<int>)
    requires s != [] && t != [] && s[0] == t[0] && multiset(s) == multiset(t)
    ensures multiset(s[1..]) == multiset(t[1..])
  {
    assert s == [s[0]] + s[1..] && t == [t[0]] + t[1..];
    assert multiset(s[1..]) == multiset(s) - multiset{s[0]};
    assert multiset(t[1..]) == multiset(t) - multiset{t[0]};
  }

  /** Values have one order. */
  lemma {:induction false} SortedIsUnique(s: seq<int>, t: seq<int>)
    requires Ascending(s) && SortedFrom(t, s)
    ensures s == t
  {
    assert |s| == |multiset(s)| == |multiset(t)| == |t|;
    if s != [] {
      assert s[0] in multiset(s) && t[0] in multiset(t);
      HeadIsLeast(s, t[0]);
      HeadIsLeast(t, s[0]);
      TailsAgree(s, t);
      SortedIsUnique(s[1..], t[1..]);
      assert s == [s[0]] + s[1..] && t == [t[0]] + t[1..];
    }
  }

  lemma SameElements(s: seq<int>, rtts: seq<int>, x: int)
    requires multiset(s) == multiset(rtts) && x in s
    ensures x in rtts
  {
    assert x in multiset(s);
  }

  lemma InsertKeepsOrder(s: seq<int>, i: nat, x: int)
    requires Ascending(s) && i <= |s| && (i > 0 ==> s[i - 1] <= x) && (i < |s| ==> x <= s[i])
    ensures Ascending(s[..i] + [x] + s[i..])
  {
  }

  /** Puts x in order among s. */
  method Insert(s: seq<int>, x: int) returns (r: seq<int>)
    requires Ascending(s)
    ensures Ascending(r) && multiset(r) == multiset(s) + multiset{x}
  {
    var i: nat := |s|;
    while i > 0 && s[i - 1] > x
      invariant i <= |s| && (i < |s| ==> x < s[i])
    {
      i := i - 1;
    }
    InsertKeepsOrder(s, i, x);
    r := s[..i] + [x] + s[i..];
    assert s == s[..i] + s[i..];
  }

  method Sort(rtts: seq<int>) returns (s: seq<int>)
    ensures SortedFrom(s, rtts)
  {
    s := [];
    var i := 0;
    while i < |rtts|
      invariant i <= |rtts| && SortedFrom(s, rtts[..i])
    {
      assert rtts[..i + 1] == rtts[..i] + [rtts[i]];
      s := Insert(s, rtts[i]);
      i := i + 1;
    }
    assert rtts[..i] == rtts;
  }

  method SumUp(s: seq<int>) returns (sum: int)
    ensures sum == Sum(s)
  {
    sum := 0;
    var i := 0;
    while i < |s|
      invariant i <= |s| && sum == Sum(s[..i])
    {
      assert s[..i + 1][..i] == s[..i];
      sum := sum + s[i];
      i := i + 1;
    }
    assert s[..i] == s;
  }

  method Compute(rtts: seq<int>) returns (m: Summary)
    ensures Summarizes(m, rtts)
  {
    if |rtts| == 0 {
      assert SortedFrom([], rtts);
      return EMPTY;
    }
    var sorted := Sort(rtts);
    assert |sorted| == |multiset(sorted)| == |rtts|;
    var sum := SumUp(sorted);
    var bands := [];
    var k := 0;
    while k < BANDS
      invariant k <= BANDS && bands == SummaryOf(sorted).bands[..k]
    {
      bands := bands + [Percentile(sorted, Ratio(k))];
      k := k + 1;
    }
    m := Summary(sorted[0], sorted[|sorted| - 1], Truncated(sum as real / |sorted| as real), Percentile(sorted, 0.5), bands);
    assert m.bands == SummaryOf(sorted).bands;
  }

  /** A summary depends only on which values there were, not on their order. */
  lemma SummaryIsUnique(m: Summary, n: Summary, rtts: seq<int>, others: seq<int>)
    requires Summarizes(m, rtts) && Summarizes(n, others) && multiset(rtts) == multiset(others)
    ensures m == n
  {
    var s :| SortedFrom(s, rtts) && m == SummaryOf(s);
    var t :| SortedFrom(t, others) && n == SummaryOf(t);
    SortedIsUnique(s, t);
  }

  lemma FloorIs(x: real, q: int)
    requires q as real <= x < (q + 1) as real
    ensures x.Floor == q
  {
  }

  lemma Divides(s: real, n: real, q: real)
    requires n > 0.0 && q * n <= s < q * n + n
    ensures q <= s / n < q + 1.0
  {
    var m := s / n;
    assert m * n == s;
    if m < q {
      ScalesStrictly(m, q, n);
    }
    assert (q + 1.0) * n == q * n + n;
    if m >= q + 1.0 {
      Scales(q + 1.0, m, n);
    }
  }

  lemma FloorOfQuotient(m: nat, n: nat)
    requires n > 0
    ensures (m as real / n as real).Floor == m / n
  {
    var q := m / n;
    assert m == q * n + m % n;
    assert (q * n) as real == q as real * n as real;
    Divides(m as real, n as real, q as real);
    FloorIs(m as real / n as real, q);
  }

  lemma NegatedQuotient(x: real, n: real)
    requires n > 0.0
    ensures (-x) / n == -(x / n)
  {
    var m := x / n;
    assert m * n == x && (-m) * n == -x;
  }

  lemma QuotientIsNotNegative(s: real, n: real)
    requires s >= 0.0 && n > 0.0
    ensures s / n >= 0.0
  {
  }

  lemma TruncatedNegation(y: real)
    requires y >= 0.0
    ensures Truncated(y) == y.Floor && Truncated(-y) == -y.Floor
  {
  }

  /** The mean the fast path divides out in integers is the mean the slow path truncates. */
  lemma MeansAgree(sum: int, n: nat)
    requires n > 0
    ensures Quotient(sum, n) == Truncated(sum as real / n as real)
  {
    var m: nat := if sum >= 0 then sum else -sum;
    var y, d := m as real / n as real, n as real;
    FloorOfQuotient(m, n);
    QuotientIsNotNegative(m as real, d);
    TruncatedNegation(y);
    if sum < 0 {
      NegatedQuotient(m as real, d);
    }
  }

  // ---------------------------------------------------------------- what the values are

  /** Where the percentile of r in a hundred lies among n ranks: past this one, */
  function RankAt(n: nat, r: nat): (i: nat)
    requires n > 0 && r < 100
    ensures i < n
  {
    RankIsInside(r, n - 1);
    r * (n - 1) / 100
  }

  /** by so many hundredths of the way to the next. */
  function PartAt(n: nat, r: nat): (f: nat)
    requires n > 0 && r < 100
    ensures f < 100 && (f > 0 ==> RankAt(n, r) + 1 < n)
  {
    RankIsInside(r, n - 1);
    r * (n - 1) % 100
  }

  /** v is the whole part of the two ranks' mean, each weighed by how near it is. */
  ghost predicate Weighs(s: seq<int>, i: nat, f: nat, v: int)
    requires i < |s| && f < 100 && (f > 0 ==> i + 1 < |s|)
  {
    if f == 0 then v == s[i] else 100 * v <= (100 - f) * s[i] + f * s[i + 1] < 100 * v + 100
  }

  ghost predicate IsPercentile(s: seq<int>, r: nat, v: int)
    requires s != [] && r < 100
  {
    Weighs(s, RankAt(|s|, r), PartAt(|s|, r), v)
  }

  lemma RankIsInside(r: nat, last: nat)
    requires r < 100
    ensures r * last / 100 <= last && (r * last % 100 > 0 ==> r * last / 100 < last)
  {
    assert (100 - r) * last >= 0;
    assert r * last <= 100 * last;
  }

  lemma HundredthsSplit(at: nat)
    ensures (at as real / 100.0).Floor == at / 100
    ensures at as real / 100.0 - (at / 100) as real == (at % 100) as real / 100.0
  {
    FloorOfQuotient(at, 100);
    assert at as real == 100.0 * (at / 100) as real + (at % 100) as real;
  }

  /** A step of f hundredths into a gap weighs its ends so. */
  lemma StepWeighs(a: int, b: int, f: nat)
    requires a <= b && f < 100
    ensures var v := a + (f as real / 100.0 * (b - a) as real).Floor;
            100 * v <= (100 - f) * a + f * b < 100 * v + 100
  {
    var gap := b - a;
    assert f * gap >= 0;
    FloorOfQuotient(f * gap, 100);
    assert f as real / 100.0 * gap as real == (f * gap) as real / 100.0;
    var q := f * gap / 100;
    assert 100 * q <= f * gap < 100 * q + 100;
    assert (100 - f) * a + f * b == 100 * a + f * gap;
  }

  lemma AtHundredths(s: seq<int>, at: nat, pos: real)
    requires pos == at as real / 100.0 && 0.0 < pos < (|s| - 1) as real
    ensures at / 100 < |s| && (at % 100 > 0 ==> at / 100 + 1 < |s|)
    ensures Interpolated(s, pos) == if at % 100 == 0 then s[at / 100] else Between(s, at / 100, (at % 100) as real / 100.0)
  {
    HundredthsSplit(at);
  }

  lemma ScaledRank(r: nat, last: nat)
    ensures r as real / 100.0 * last as real == (r * last) as real / 100.0
  {
  }

  /** The percentile as its rank and part give it. */
  lemma PercentileSteps(s: seq<int>, r: nat)
    requires s != [] && 0 < r < 100
    ensures var i, f := RankAt(|s|, r), PartAt(|s|, r);
            Percentile(s, r as real / 100.0) == if f == 0 then s[i] else Between(s, i, f as real / 100.0)
  {
    if |s| > 1 {
      ScaledRank(r, |s| - 1);
      PositionIsInside(r as real / 100.0, |s|);
      AtHundredths(s, r * (|s| - 1), Position(|s|, r as real / 100.0));
    } else {
      assert r * (|s| - 1) == 0;
    }
  }

  lemma BetweenWeighs(s: seq<int>, i: nat, f: nat)
    requires Ascending(s) && i + 1 < |s| && 0 < f < 100
    ensures Weighs(s, i, f, Between(s, i, f as real / 100.0))
  {
    StepWeighs(s[i], s[i + 1], f);
  }

  lemma PercentileMeaning(s: seq<int>, r: nat)
    requires Ascending(s) && s != [] && 0 < r < 100
    ensures IsPercentile(s, r, Percentile(s, r as real / 100.0))
  {
    PercentileSteps(s, r);
    if PartAt(|s|, r) > 0 {
      BetweenWeighs(s, RankAt(|s|, r), PartAt(|s|, r));
    }
  }

  lemma MeanMeaning(sum: nat, n: nat)
    requires n > 0
    ensures var mean := Truncated(sum as real / n as real);
            mean * n <= sum < mean * n + n
  {
    MeansAgree(sum, n);
    assert sum == (sum / n) * n + sum % n;
  }

  /** The ratio of each band, in hundredths. */
  lemma BandRatio(k: nat)
    requires k < BANDS
    ensures Ratio(k) == (if k < 9 then 5 * k + 5 else 5 * k + 10) as real / 100.0
  {
  }

  lemma BandMeaning(s: seq<int>, k: nat)
    requires Ascending(s) && s != [] && k < BANDS
    ensures IsPercentile(s, if k < 9 then 5 * k + 5 else 5 * k + 10, SummaryOf(s).bands[k])
  {
    BandRatio(k);
    PercentileMeaning(s, if k < 9 then 5 * k + 5 else 5 * k + 10);
  }

  lemma SumIsNatural(s: seq<int>)
    requires Ascending(s) && (s != [] ==> s[0] >= 0)
    ensures Sum(s) >= 0
  {
    if s != [] {
      SumIsBetween(s, 0, s[|s| - 1]);
    }
  }

  /** What the summary of ordered round-trip times says of them: the extremes, the whole part
      of their mean, and the percentiles 5 to 45, 50, and 55 to 95. */
  lemma SummaryMeaning(s: seq<int>)
    requires Ascending(s) && s != [] && s[0] >= 0
    ensures var m := SummaryOf(s);
            && m.min == s[0] && m.max == s[|s| - 1]
            && m.mean * |s| <= Sum(s) < m.mean * |s| + |s|
            && IsPercentile(s, 50, m.median)
            && |m.bands| == 18
            && forall k :: 0 <= k < 18 ==> IsPercentile(s, if k < 9 then 5 * k + 5 else 5 * k + 10, m.bands[k])
  {
    SumIsNatural(s);
    MeanMeaning(Sum(s), |s|);
    PercentileMeaning(s, 50);
    forall k | 0 <= k < 18 ensures IsPercentile(s, if k < 9 then 5 * k + 5 else 5 * k + 10, SummaryOf(s).bands[k]) {
      BandMeaning(s, k);
    }
  }

  method SortInPlace(a: array<int>)
    modifies a
    ensures SortedFrom(a[..], old(a[..]))
  {
    var s := Sort(a[..]);
    assert |s| == |multiset(s)| == |multiset(a[..])| == a.Length;
    var i := 0;
    while i < a.Length
      invariant i <= a.Length && a[..i] == s[..i]
    {
      a[i] := s[i];
      i := i + 1;
    }
    assert a[..] == s;
  }

  /** The four values without the percentiles; sorts its input in place. They are Compute's. */
  method MinMaxMeanMedian(rtts: array<int>) returns (min: int, max: int, mean: int, median: int)
    modifies rtts
    ensures SortedFrom(rtts[..], old(rtts[..]))
    ensures forall m :: Summarizes(m, old(rtts[..])) ==> min == m.min && max == m.max && mean == m.mean && median == m.median
  {
    ghost var was := rtts[..];
    SortInPlace(rtts);
    ghost var s := rtts[..];
    forall m | Summarizes(m, was) ensures m == SummaryOf(s) {
      SummaryIsUnique(m, SummaryOf(s), was, was);
    }
    if rtts.Length == 0 {
      return 0, 0, 0, 0;
    }
    var sum := SumUp(rtts[..]);
    MeansAgree(sum, rtts.Length);
    min, max, mean, median := rtts[0], rtts[rtts.Length - 1], Quotient(sum, rtts.Length), Percentile(rtts[..], 0.5);
  }
}
