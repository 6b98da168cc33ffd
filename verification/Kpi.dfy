/** Rolling metric buckets up and the four OEE ratios, on exact real numbers. */
module Kpi {
  import opened Common

  datatype Field =
    | TotalCycles | BadCycles | TotalItems | BadItems | ExpectedCycles | ExpectedItems
    | RunSeconds | DownSeconds | PlannedDownSeconds | UnplannedDownSeconds
    | IdealCycleSeconds | TotalCycleSeconds
    | ElapsedExpectedCycles | ElapsedExpectedItems | ElapsedPlannedProductionSeconds

  const ADDITIVE: seq<Field> :=
    [TotalCycles, BadCycles, TotalItems, BadItems, ExpectedCycles, ExpectedItems,
     RunSeconds, DownSeconds, PlannedDownSeconds, UnplannedDownSeconds,
     IdealCycleSeconds, TotalCycleSeconds,
     ElapsedExpectedCycles, ElapsedExpectedItems, ElapsedPlannedProductionSeconds]

  /** A field without a value is null in the source and counts as zero. */
  datatype Bucket = Bucket(values: map<Field, real>, currentStandardCycle: Option<real>)

  function Value(b: Bucket, f: Field): real {
    if f in b.values then b.values[f] else 0.0
  }

  function SumOf(buckets: seq<Bucket>, f: Field): real {
    if buckets == [] then 0.0
    else SumOf(buckets[..|buckets| - 1], f) + Value(buckets[|buckets| - 1], f)
  }

  /** What a roll-up should be: every additive field summed, no current standard cycle. */
  ghost function Total(buckets: seq<Bucket>): Bucket {
    Bucket(map f: Field | true :: SumOf(buckets, f), None)
  }

  lemma EveryFieldIsSummed(f: Field)
    ensures f in ADDITIVE
  {
    assert ADDITIVE[0..6] == [TotalCycles, BadCycles, TotalItems, BadItems, ExpectedCycles, ExpectedItems];
    assert ADDITIVE[6..10] == [RunSeconds, DownSeconds, PlannedDownSeconds, UnplannedDownSeconds];
    assert ADDITIVE[10..15] == [IdealCycleSeconds, TotalCycleSeconds, ElapsedExpectedCycles, ElapsedExpectedItems,
                                ElapsedPlannedProductionSeconds];
  }

  predicate AllFields(values: map<Field, real>) {
    forall f: Field :: f in values
  }

  /** The inner loop: every additive field of one bucket is added. */
  method AddBucket(before: map<Field, real>, b: Bucket) returns (values: map<Field, real>)
    requires AllFields(before)
    ensures AllFields(values) && forall f: Field :: values[f] == before[f] + Value(b, f)
  {
    values := before;
    for k := 0 to |ADDITIVE|
      invariant AllFields(values)
      invariant forall f: Field :: values[f] == before[f] + if f in ADDITIVE[..k] then Value(b, f) else 0.0
    {
      var f := ADDITIVE[k];
      assert ADDITIVE[..k + 1] == ADDITIVE[..k] + [f];
      DistinctFields(k);
      values := values[f := values[f] + Value(b, f)];
    }
    assert ADDITIVE[..|ADDITIVE|] == ADDITIVE;
    forall f: Field {
      EveryFieldIsSummed(f);
    }
  }

  method SumKpis(buckets: seq<Bucket>) returns (result: Bucket)
    ensures result == Total(buckets)
  {
    forall f: Field {
      EveryFieldIsSummed(f);
    }
    var values: map<Field, real> := map f: Field | f in ADDITIVE :: 0.0;
    for i := 0 to |buckets|
      invariant AllFields(values) && forall f: Field :: values[f] == SumOf(buckets[..i], f)
    {
      values := AddBucket(values, buckets[i]);
      assert buckets[..i + 1][..i] == buckets[..i];
    }
    assert buckets[..|buckets|] == buckets;
    result := Bucket(values, None);
  }

  lemma DistinctFields(k: nat)
    requires k < |ADDITIVE|
    ensures ADDITIVE[k] !in ADDITIVE[..k]
  {
  }

  /** One more bucket adds its figures, and nothing where it has none; no bucket at all gives zeros. */
  lemma TotalGrows(buckets: seq<Bucket>, b: Bucket, f: Field)
    ensures AllFields(Total(buckets).values) && Total(buckets).currentStandardCycle == None
    ensures Total([]).values[f] == 0.0
    ensures Total(buckets + [b]).values[f] == Total(buckets).values[f] + if f in b.values then b.values[f] else 0.0
  {
    assert (buckets + [b])[..|buckets|] == buckets;
  }

  // ---------------------------------------------------------------------------
  // Grouping and order do not matter
  // ---------------------------------------------------------------------------

  function Flatten(groups: seq<seq<Bucket>>): seq<Bucket> {
    if groups == [] then [] else Flatten(groups[..|groups| - 1]) + groups[|groups| - 1]
  }

  ghost function Totals(groups: seq<seq<Bucket>>): (r: seq<Bucket>)
    ensures |r| == |groups|
  {
    if groups == [] then [] else Totals(groups[..|groups| - 1]) + [Total(groups[|groups| - 1])]
  }

  lemma {:induction false} SumOfConcat(a: seq<Bucket>, b: seq<Bucket>, f: Field)
    ensures SumOf(a + b, f) == SumOf(a, f) + SumOf(b, f)
  {
    if b == [] {
      assert a + b == a;
    } else {
      assert (a + b)[..|a + b| - 1] == a + b[..|b| - 1];
      SumOfConcat(a, b[..|b| - 1], f);
    }
  }

  lemma {:induction false} SumOfGroups(groups: seq<seq<Bucket>>, f: Field)
    ensures SumOf(Totals(groups), f) == SumOf(Flatten(groups), f)
  {
    if groups != [] {
      var n := |groups| - 1;
      SumOfGroups(groups[..n], f);
      SumOfConcat(Flatten(groups[..n]), groups[n], f);
      assert Totals(groups)[..n] == Totals(groups[..n]);
    }
  }

  lemma {:induction false} SumOfWithout(b: seq<Bucket>, i: nat, f: Field)
    requires i < |b|
    ensures SumOf(b[..i] + b[i + 1..], f) + Value(b[i], f) == SumOf(b, f)
  {
    var n := |b| - 1;
    if i == n {
      assert b[..i] + b[i + 1..] == b[..n];
    } else {
      SumOfWithout(b[..n], i, f);
      assert (b[..i] + b[i + 1..])[..n - 1] == b[..n][..i] + b[..n][i + 1..];
    }
  }

  lemma MultisetWithout(b: seq<Bucket>, i: nat)
    requires i < |b|
    ensures multiset(b) == multiset(b[..i] + b[i + 1..]) + multiset{b[i]}
  {
    assert b == b[..i] + ([b[i]] + b[i + 1..]);
  }

  lemma Cancel(p: multiset<Bucket>, q: multiset<Bucket>, x: Bucket)
    requires p + multiset{x} == q + multiset{x}
    ensures p == q
  {
    assert p == (p + multiset{x}) - multiset{x} && q == (q + multiset{x}) - multiset{x};
  }

  /** The last element of a, found in its permutation b, with the rest still a permutation. */
  lemma SameRemoved(a: seq<Bucket>, b: seq<Bucket>) returns (i: nat)
    requires a != [] && multiset(a) == multiset(b)
    ensures i < |b| && b[i] == a[|a| - 1] && multiset(a[..|a| - 1]) == multiset(b[..i] + b[i + 1..])
  {
    var n := |a| - 1;
    assert a[n] in multiset(a);
    assert a[n] in multiset(b);
    i :| 0 <= i < |b| && b[i] == a[n];
    MultisetWithout(a, n);
    assert a[..n] + a[n + 1..] == a[..n];
    MultisetWithout(b, i);
    Cancel(multiset(a[..n]), multiset(b[..i] + b[i + 1..]), a[n]);
  }

  lemma {:induction false} SumOfPermuted(a: seq<Bucket>, b: seq<Bucket>, f: Field)
    requires multiset(a) == multiset(b)
    ensures SumOf(a, f) == SumOf(b, f)
  {
    if a == [] {
      assert |b| == |multiset(b)| == 0;
    } else {
      var n := |a| - 1;
      var i := SameRemoved(a, b);
      SumOfWithout(b, i, f);
      SumOfPermuted(a[..n], b[..i] + b[i + 1..], f);
    }
  }

  /** Rolling up in groups, in any grouping and any order, gives what one flat roll-up gives. */
  lemma RollUpInStages(groups: seq<seq<Bucket>>, flat: seq<Bucket>)
    requires multiset(Flatten(groups)) == multiset(flat)
    ensures Total(Totals(groups)) == Total(flat)
  {
    forall f: Field
      ensures SumOf(Totals(groups), f) == SumOf(flat, f)
    {
      SumOfGroups(groups, f);
      SumOfPermuted(Flatten(groups), flat, f);
    }
  }

  // ---------------------------------------------------------------------------
  // The ratios
  // ---------------------------------------------------------------------------

  function Planned(b: Bucket): real { Value(b, ElapsedPlannedProductionSeconds) }
  function Run(b: Bucket): real { Value(b, RunSeconds) }
  function Ideal(b: Bucket): real { Value(b, IdealCycleSeconds) }
  function Items(b: Bucket): real { Value(b, TotalItems) }
  function Good(b: Bucket): real { Value(b, TotalItems) - Value(b, BadItems) }

  function Availability(b: Bucket): Option<real> {
    if Planned(b) <= 0.0 then None else Some(Run(b) / Planned(b))
  }

  function Performance(b: Bucket): Option<real> {
    if Planned(b) <= 0.0 then None
    else if Run(b) <= 0.0 then Some(0.0)
    else Some(Ideal(b) / Run(b))
  }

  function Quality(b: Bucket): Option<real> {
    if Planned(b) <= 0.0 then None
    else if Items(b) <= 0.0 then Some(0.0)
    else Some(Good(b) / Items(b))
  }

  function Oee(b: Bucket): Option<real> {
    if Planned(b) <= 0.0 then None
    else if Items(b) <= 0.0 then Some(0.0)
    else Some(OeeFormula(Ideal(b), Good(b), Planned(b), Items(b)))
  }

  function OeeFormula(ideal: real, good: real, planned: real, items: real): real
    requires planned > 0.0 && items > 0.0
  {
    ideal * good / PositiveProduct(planned, items)
  }

  function PositiveProduct(x: real, y: real): (r: real)
    requires x > 0.0 && y > 0.0
    ensures r > 0.0
  {
    x * y
  }

  lemma CancelRun(planned: real, run: real, ideal: real, good: real, items: real)
    requires planned > 0.0 && run > 0.0 && items > 0.0
    ensures ideal * good / PositiveProduct(planned, items) == (run / planned) * (ideal / run) * (good / items)
  {
    var a, p, q := run / planned, ideal / run, good / items;
    assert run == a * planned && ideal == p * run && good == q * items;
    var d := PositiveProduct(planned, items);
    assert ideal * good == (a * p * q) * d by {
      calc {
        ideal * good;
        (p * run) * (q * items);
        (p * (a * planned)) * (q * items);
        { Rearranged(a, p, q, planned, items); }
        (a * p * q) * (planned * items);
      }
    }
    QuotientOf(ideal * good, a * p * q, d);
  }

  lemma Rearranged(a: real, p: real, q: real, x: real, y: real)
    ensures (p * (a * x)) * (q * y) == (a * p * q) * (x * y)
  {
  }

  lemma QuotientOf(n: real, q: real, d: real)
    requires d > 0.0 && n == q * d
    ensures n / d == q
  {
  }

  /** The value, when there is one, times the divisor is the dividend. */
  predicate Solves(ratio: Option<real>, divisor: real, dividend: real) {
    ratio.Some? && ratio.value * divisor == dividend
  }

  /**
   * Without planned time no ratio is defined. With it each ratio solves its equation, and is
   * zero when its own divisor is not positive.
   */
  lemma RatiosSolve(b: Bucket)
    requires AllFields(b.values)
    ensures var planned, run, ideal := b.values[ElapsedPlannedProductionSeconds], b.values[RunSeconds], b.values[IdealCycleSeconds];
            var items, good := b.values[TotalItems], b.values[TotalItems] - b.values[BadItems];
            && (planned <= 0.0 ==> Availability(b) == Performance(b) == Quality(b) == Oee(b) == None)
            && (planned > 0.0 ==>
                  && Solves(Availability(b), planned, run)
                  && (if run > 0.0 then Solves(Performance(b), run, ideal) else Performance(b) == Some(0.0))
                  && (if items > 0.0 then Solves(Quality(b), items, good) else Quality(b) == Some(0.0))
                  && (if items > 0.0 then Solves(Oee(b), planned * items, ideal * good) else Oee(b) == Some(0.0)))
  {
    if Planned(b) > 0.0 && Items(b) > 0.0 {
      TimesDivisor(Ideal(b) * Good(b), PositiveProduct(Planned(b), Items(b)));
    }
  }

  lemma TimesDivisor(n: real, d: real)
    requires d > 0.0
    ensures n / d * d == n
  {
  }

  /** The three ratios multiply to the OEE, except that a bucket with output but no run time has OEE without performance. */
  lemma OeeIsTheProduct(b: Bucket)
    ensures Oee(b).Some? == Availability(b).Some? == Performance(b).Some? == Quality(b).Some?
    ensures Oee(b).Some? ==>
              (Oee(b).value == Availability(b).value * Performance(b).value * Quality(b).value
               <==> !(Items(b) > 0.0 && Run(b) <= 0.0 && Ideal(b) != 0.0 && Good(b) != 0.0))
  {
    if Planned(b) > 0.0 && Items(b) > 0.0 {
      if Run(b) > 0.0 {
        CancelRun(Planned(b), Run(b), Ideal(b), Good(b), Items(b));
      } else {
        NonZeroQuotient(Ideal(b), Good(b), PositiveProduct(Planned(b), Items(b)));
      }
    }
  }

  lemma NonZeroQuotient(x: real, y: real, d: real)
    requires d > 0.0
    ensures x * y / d == 0.0 <==> x == 0.0 || y == 0.0
  {
    var q := x * y / d;
    assert x * y == q * d;
    assert x * y == 0.0 <==> x == 0.0 || y == 0.0;
  }

  // ---------------------------------------------------------------------------
  // A rolled-up ratio lies between the smallest and the largest
  // ---------------------------------------------------------------------------

  /** A ratio of two sums, with the buckets that carry no weight contributing nothing. */
  ghost predicate Weighted(num: seq<real>, den: seq<real>) {
    && |num| == |den|
    && forall i :: 0 <= i < |num| ==> den[i] > 0.0 || den[i] == num[i] == 0.0
  }

  function RealSum(s: seq<real>): real {
    if s == [] then 0.0 else RealSum(s[..|s| - 1]) + s[|s| - 1]
  }

  lemma {:induction false} SumBelow(num: seq<real>, den: seq<real>, c: real)
    requires Weighted(num, den)
    requires forall i :: 0 <= i < |num| && den[i] > 0.0 ==> num[i] / den[i] <= c
    ensures RealSum(num) <= c * RealSum(den)
  {
    if num != [] {
      var n := |num| - 1;
      SumBelow(num[..n], den[..n], c);
      ScaleUp(num[n], den[n], c);
      Distribute(c, RealSum(den[..n]), den[n]);
    }
  }

  lemma ScaleUp(n: real, d: real, c: real)
    requires if d > 0.0 then n / d <= c else d == n == 0.0
    ensures n <= c * d
  {
    if d > 0.0 {
      var q := n / d;
      assert n == q * d;
      ScaleOrder(q, c, d);
    }
  }

  lemma {:induction false} SumAbove(num: seq<real>, den: seq<real>, c: real)
    requires Weighted(num, den)
    requires forall i :: 0 <= i < |num| && den[i] > 0.0 ==> c <= num[i] / den[i]
    ensures c * RealSum(den) <= RealSum(num)
  {
    if num != [] {
      var n := |num| - 1;
      SumAbove(num[..n], den[..n], c);
      ScaleDown(num[n], den[n], c);
      Distribute(c, RealSum(den[..n]), den[n]);
    }
  }

  lemma ScaleDown(n: real, d: real, c: real)
    requires if d > 0.0 then c <= n / d else d == n == 0.0
    ensures c * d <= n
  {
    if d > 0.0 {
      var q := n / d;
      assert n == q * d;
      ScaleOrder(c, q, d);
    }
  }

  /** The index of a largest ratio among those with weight. */
  lemma {:induction false} LargestRatio(num: seq<real>, den: seq<real>) returns (m: int)
    requires |num| == |den|
    ensures -1 <= m < |num| && (m >= 0 ==> den[m] > 0.0)
    ensures forall i :: 0 <= i < |num| && den[i] > 0.0 ==> m >= 0 && num[i] / den[i] <= num[m] / den[m]
  {
    m := -1;
    if num != [] {
      var n := |num| - 1;
      m := LargestRatio(num[..n], den[..n]);
      if den[n] > 0.0 && (m < 0 || num[m] / den[m] <= num[n] / den[n]) {
        m := n;
      }
    }
  }

  lemma {:induction false} SmallestRatio(num: seq<real>, den: seq<real>) returns (m: int)
    requires |num| == |den|
    ensures -1 <= m < |num| && (m >= 0 ==> den[m] > 0.0)
    ensures forall i :: 0 <= i < |num| && den[i] > 0.0 ==> m >= 0 && num[m] / den[m] <= num[i] / den[i]
  {
    m := -1;
    if num != [] {
      var n := |num| - 1;
      m := SmallestRatio(num[..n], den[..n]);
      if den[n] > 0.0 && (m < 0 || num[n] / den[n] <= num[m] / den[m]) {
        m := n;
      }
    }
  }

  lemma {:induction false} NoWeight(num: seq<real>, den: seq<real>)
    requires Weighted(num, den)
    requires forall i :: 0 <= i < |den| ==> den[i] <= 0.0
    ensures RealSum(den) == 0.0
  {
    if num != [] {
      var n := |num| - 1;
      NoWeight(num[..n], den[..n]);
      assert den[n] == 0.0;
    }
  }

  lemma MediantBetween(num: seq<real>, den: seq<real>) returns (lo: nat, hi: nat)
    requires Weighted(num, den) && RealSum(den) > 0.0
    ensures lo < |num| && hi < |num| && den[lo] > 0.0 && den[hi] > 0.0
    ensures num[lo] / den[lo] <= RealSum(num) / RealSum(den) <= num[hi] / den[hi]
  {
    var l := SmallestRatio(num, den);
    var h := LargestRatio(num, den);
    if l < 0 || h < 0 {
      NoWeight(num, den);
      assert false;
    }
    lo, hi := l, h;
    var d := RealSum(den);
    SumAbove(num, den, num[lo] / den[lo]);
    SumBelow(num, den, num[hi] / den[hi]);
    DivideBetween(num[lo] / den[lo], RealSum(num), num[hi] / den[hi], d);
  }

  lemma DivideBetween(a: real, n: real, b: real, d: real)
    requires d > 0.0 && a * d <= n <= b * d
    ensures a <= n / d <= b
  {
    var q := n / d;
    assert n == q * d;
    ScaleOrder(a, q, d);
    ScaleOrder(q, b, d);
  }

  lemma ScaleOrder(a: real, b: real, d: real)
    requires d > 0.0
    ensures a * d <= b * d <==> a <= b
  {
  }

  lemma Distribute(c: real, x: real, y: real)
    ensures c * (x + y) == c * x + c * y
  {
  }

  function Column(buckets: seq<Bucket>, f: Field): (r: seq<real>)
    ensures |r| == |buckets|
  {
    seq(|buckets|, i requires 0 <= i < |buckets| => Value(buckets[i], f))
  }

  lemma {:induction false} ColumnSum(buckets: seq<Bucket>, f: Field)
    ensures RealSum(Column(buckets, f)) == SumOf(buckets, f)
  {
    if buckets != [] {
      var n := |buckets| - 1;
      ColumnSum(buckets[..n], f);
      assert Column(buckets, f)[..n] == Column(buckets[..n], f);
    }
  }

  /**
   * The availability of a roll-up lies between those of two of its buckets, as long as no
   * bucket without planned time reports run time.
   */
  lemma AvailabilityBetween(buckets: seq<Bucket>) returns (lo: nat, hi: nat)
    requires forall i :: 0 <= i < |buckets| ==> Planned(buckets[i]) > 0.0 || Planned(buckets[i]) == Run(buckets[i]) == 0.0
    requires Availability(Total(buckets)).Some?
    ensures lo < |buckets| && hi < |buckets| && Availability(buckets[lo]).Some? && Availability(buckets[hi]).Some?
    ensures Availability(buckets[lo]).value <= Availability(Total(buckets)).value <= Availability(buckets[hi]).value
  {
    ColumnSum(buckets, RunSeconds);
    ColumnSum(buckets, ElapsedPlannedProductionSeconds);
    lo, hi := MediantBetween(Column(buckets, RunSeconds), Column(buckets, ElapsedPlannedProductionSeconds));
  }

  /** The same for performance, when every bucket has run time. */
  lemma PerformanceBetween(buckets: seq<Bucket>) returns (lo: nat, hi: nat)
    requires buckets != []
    requires forall i :: 0 <= i < |buckets| ==> Planned(buckets[i]) > 0.0 && Run(buckets[i]) > 0.0
    ensures lo < |buckets| && hi < |buckets| && Performance(Total(buckets)).Some?
    ensures Performance(buckets[lo]).value <= Performance(Total(buckets)).value <= Performance(buckets[hi]).value
  {
    ColumnSum(buckets, RunSeconds);
    ColumnSum(buckets, IdealCycleSeconds);
    PositiveSum(buckets, RunSeconds);
    PositiveSum(buckets, ElapsedPlannedProductionSeconds);
    lo, hi := MediantBetween(Column(buckets, IdealCycleSeconds), Column(buckets, RunSeconds));
  }

  lemma {:induction false} PositiveSum(buckets: seq<Bucket>, f: Field)
    requires forall i :: 0 <= i < |buckets| ==> Value(buckets[i], f) > 0.0
    ensures SumOf(buckets, f) >= 0.0 && (buckets != [] ==> SumOf(buckets, f) > 0.0)
  {
    if buckets != [] {
      PositiveSum(buckets[..|buckets| - 1], f);
      assert Value(buckets[|buckets| - 1], f) > 0.0;
    }
  }

  // ---------------------------------------------------------------------------
  // Where a rolled-up OEE lies
  // ---------------------------------------------------------------------------

  /** Ideal seconds per planned second: availability times performance when there is run time. */
  function Pace(b: Bucket): real
    requires Planned(b) > 0.0
  {
    Ideal(b) / Planned(b)
  }

  function Yield(b: Bucket): real
    requires Items(b) > 0.0
  {
    Good(b) / Items(b)
  }

  function Product(x: real, y: real): real {
    x * y
  }

  lemma QuotientOfProducts(x: real, y: real, p: real, n: real)
    requires p > 0.0 && n > 0.0
    ensures OeeFormula(x, y, p, n) == Product(x / p, y / n)
  {
    var a, b := x / p, y / n;
    assert x == a * p && y == b * n;
    var d := PositiveProduct(p, n);
    assert (a * p) * (b * n) == (a * b) * (p * n) by {
      Rearranged(1.0, a, b, p, n);
    }
    QuotientOf(x * y, a * b, d);
  }

  /** With planned time and items, OEE is pace times yield. */
  lemma OeeIsPaceTimesYield(b: Bucket)
    requires Planned(b) > 0.0 && Items(b) > 0.0
    ensures Oee(b) == Some(Product(Pace(b), Yield(b)))
  {
    QuotientOfProducts(Ideal(b), Good(b), Planned(b), Items(b));
  }

  function GoodColumn(buckets: seq<Bucket>): (r: seq<real>)
    ensures |r| == |buckets|
  {
    seq(|buckets|, i requires 0 <= i < |buckets| => Good(buckets[i]))
  }

  lemma {:induction false} GoodColumnSum(buckets: seq<Bucket>)
    ensures RealSum(GoodColumn(buckets)) == SumOf(buckets, TotalItems) - SumOf(buckets, BadItems)
  {
    if buckets != [] {
      var n := |buckets| - 1;
      GoodColumnSum(buckets[..n]);
      assert GoodColumn(buckets)[..n] == GoodColumn(buckets[..n]);
    }
  }

  /** No ideal time without planned time, no good items without items. */
  predicate Weighed(b: Bucket) {
    && (Planned(b) > 0.0 || Planned(b) == Ideal(b) == 0.0)
    && (Items(b) > 0.0 || Items(b) == Good(b) == 0.0)
  }

  lemma PaceBetween(buckets: seq<Bucket>) returns (lo: nat, hi: nat)
    requires forall i :: 0 <= i < |buckets| ==> Planned(buckets[i]) > 0.0 || Planned(buckets[i]) == Ideal(buckets[i]) == 0.0
    requires Planned(Total(buckets)) > 0.0
    ensures lo < |buckets| && hi < |buckets| && Planned(buckets[lo]) > 0.0 && Planned(buckets[hi]) > 0.0
    ensures Pace(buckets[lo]) <= Pace(Total(buckets)) <= Pace(buckets[hi])
  {
    ColumnSum(buckets, IdealCycleSeconds);
    ColumnSum(buckets, ElapsedPlannedProductionSeconds);
    lo, hi := MediantBetween(Column(buckets, IdealCycleSeconds), Column(buckets, ElapsedPlannedProductionSeconds));
  }

  lemma YieldBetween(buckets: seq<Bucket>) returns (lo: nat, hi: nat)
    requires forall i :: 0 <= i < |buckets| ==> Items(buckets[i]) > 0.0 || Items(buckets[i]) == Good(buckets[i]) == 0.0
    requires Items(Total(buckets)) > 0.0
    ensures lo < |buckets| && hi < |buckets| && Items(buckets[lo]) > 0.0 && Items(buckets[hi]) > 0.0
    ensures Yield(buckets[lo]) <= Yield(Total(buckets)) <= Yield(buckets[hi])
  {
    GoodColumnSum(buckets);
    ColumnSum(buckets, TotalItems);
    lo, hi := MediantBetween(GoodColumn(buckets), Column(buckets, TotalItems));
  }

  lemma ProductsOrdered(a: real, b: real, c: real, d: real)
    requires 0.0 <= a <= b && 0.0 <= c <= d
    ensures Product(a, c) <= Product(b, d)
  {
    assert a * c <= b * c;
    assert b * c <= b * d;
  }

  /**
   * The OEE of any roll-up lies between the smallest pace times the smallest yield and the
   * largest pace times the largest yield. The two may come from different buckets, and then
   * the OEE can leave the range of the buckets' own OEEs.
   */
  lemma OeeBetweenProducts(buckets: seq<Bucket>) returns (slow: nat, fast: nat, worst: nat, best: nat)
    requires forall i :: 0 <= i < |buckets| ==> Weighed(buckets[i]) && Ideal(buckets[i]) >= 0.0 && Good(buckets[i]) >= 0.0
    requires Planned(Total(buckets)) > 0.0 && Items(Total(buckets)) > 0.0
    ensures slow < |buckets| && fast < |buckets| && Planned(buckets[slow]) > 0.0 && Planned(buckets[fast]) > 0.0
    ensures worst < |buckets| && best < |buckets| && Items(buckets[worst]) > 0.0 && Items(buckets[best]) > 0.0
    ensures Oee(Total(buckets)).Some?
    ensures Product(Pace(buckets[slow]), Yield(buckets[worst])) <= Oee(Total(buckets)).value
    ensures Oee(Total(buckets)).value <= Product(Pace(buckets[fast]), Yield(buckets[best]))
  {
    slow, fast := PaceBetween(buckets);
    worst, best := YieldBetween(buckets);
    var total := Total(buckets);
    OeeIsPaceTimesYield(total);
    NonNegativeQuotient(Ideal(buckets[slow]), Planned(buckets[slow]));
    NonNegativeQuotient(Good(buckets[worst]), Items(buckets[worst]));
    ProductsOrdered(Pace(buckets[slow]), Pace(total), Yield(buckets[worst]), Yield(total));
    ProductsOrdered(Pace(total), Pace(buckets[fast]), Yield(total), Yield(buckets[best]));
  }

  lemma NonNegativeQuotient(x: real, d: real)
    requires x >= 0.0 && d > 0.0
    ensures x / d >= 0.0
  {
    ScaleOrder(0.0, x / d, d);
  }

  /** A common factor keeps or reverses the order. */
  lemma Scaled(a: real, b: real, c: real, f: real)
    requires a <= b <= c
    ensures if f >= 0.0 then Product(a, f) <= Product(b, f) <= Product(c, f) else Product(c, f) <= Product(b, f) <= Product(a, f)
  {
    if f >= 0.0 {
      assert (b - a) * f >= 0.0 && (c - b) * f >= 0.0;
    } else {
      assert (b - a) * f <= 0.0 && (c - b) * f <= 0.0;
    }
  }

  lemma {:induction false} SameYieldSum(buckets: seq<Bucket>, q: real)
    requires forall i :: 0 <= i < |buckets| ==> Good(buckets[i]) == q * Items(buckets[i])
    ensures SumOf(buckets, TotalItems) - SumOf(buckets, BadItems) == q * SumOf(buckets, TotalItems)
  {
    if buckets != [] {
      var n := |buckets| - 1;
      SameYieldSum(buckets[..n], q);
      Distribute(q, SumOf(buckets[..n], TotalItems), Items(buckets[n]));
    }
  }

  lemma {:induction false} SamePaceSum(buckets: seq<Bucket>, r: real)
    requires forall i :: 0 <= i < |buckets| ==> Ideal(buckets[i]) == r * Planned(buckets[i])
    ensures SumOf(buckets, IdealCycleSeconds) == r * SumOf(buckets, ElapsedPlannedProductionSeconds)
  {
    if buckets != [] {
      var n := |buckets| - 1;
      SamePaceSum(buckets[..n], r);
      Distribute(r, SumOf(buckets[..n], ElapsedPlannedProductionSeconds), Planned(buckets[n]));
    }
  }

  lemma TotalYield(buckets: seq<Bucket>, q: real)
    requires forall i :: 0 <= i < |buckets| ==> Good(buckets[i]) == q * Items(buckets[i])
    ensures Good(Total(buckets)) == q * Items(Total(buckets))
  {
    SameYieldSum(buckets, q);
  }

  lemma TotalPace(buckets: seq<Bucket>, r: real)
    requires forall i :: 0 <= i < |buckets| ==> Ideal(buckets[i]) == r * Planned(buckets[i])
    ensures Ideal(Total(buckets)) == r * Planned(Total(buckets))
  {
    SamePaceSum(buckets, r);
  }

  /** When all buckets have the same quality, the rolled-up OEE is that quality times the pace and lies between two of theirs. */
  lemma OeeBetweenAtSameYield(buckets: seq<Bucket>, q: real) returns (lo: nat, hi: nat)
    requires forall i :: 0 <= i < |buckets| ==>
               && Good(buckets[i]) == q * Items(buckets[i])
               && ((Planned(buckets[i]) > 0.0 && Items(buckets[i]) > 0.0) || Planned(buckets[i]) == Ideal(buckets[i]) == 0.0)
    requires Planned(Total(buckets)) > 0.0 && Items(Total(buckets)) > 0.0
    ensures lo < |buckets| && hi < |buckets| && Oee(buckets[lo]).Some? && Oee(buckets[hi]).Some?
    ensures Oee(Total(buckets)) == Some(Product(Pace(Total(buckets)), q))
    ensures Oee(buckets[lo]).value <= Oee(Total(buckets)).value <= Oee(buckets[hi]).value
  {
    var total := Total(buckets);
    var l, h := PaceBetween(buckets);
    assert Good(total) == q * Items(total) by { TotalYield(buckets, q); }
    OeeAtYield(total, q);
    OeeAtYield(buckets[l], q);
    OeeAtYield(buckets[h], q);
    Scaled(Pace(buckets[l]), Pace(total), Pace(buckets[h]), q);
    if q >= 0.0 {
      lo, hi := l, h;
    } else {
      lo, hi := h, l;
    }
  }

  lemma OeeAtYield(b: Bucket, q: real)
    requires Planned(b) > 0.0 && Items(b) > 0.0 && Good(b) == q * Items(b)
    ensures Oee(b) == Some(Product(Pace(b), q))
  {
    OeeIsPaceTimesYield(b);
    QuotientOf(Good(b), q, Items(b));
  }

  /** When all buckets have the same pace, the same holds with the quality in its place. */
  lemma OeeBetweenAtSamePace(buckets: seq<Bucket>, r: real) returns (lo: nat, hi: nat)
    requires forall i :: 0 <= i < |buckets| ==>
               && Ideal(buckets[i]) == r * Planned(buckets[i])
               && ((Planned(buckets[i]) > 0.0 && Items(buckets[i]) > 0.0) || Items(buckets[i]) == Good(buckets[i]) == 0.0)
    requires Planned(Total(buckets)) > 0.0 && Items(Total(buckets)) > 0.0
    ensures lo < |buckets| && hi < |buckets| && Oee(buckets[lo]).Some? && Oee(buckets[hi]).Some?
    ensures Oee(Total(buckets)) == Some(Product(Yield(Total(buckets)), r))
    ensures Oee(buckets[lo]).value <= Oee(Total(buckets)).value <= Oee(buckets[hi]).value
  {
    var total := Total(buckets);
    var l, h := YieldBetween(buckets);
    assert Ideal(total) == r * Planned(total) by { TotalPace(buckets, r); }
    OeeAtPace(total, r);
    OeeAtPace(buckets[l], r);
    OeeAtPace(buckets[h], r);
    Scaled(Yield(buckets[l]), Yield(total), Yield(buckets[h]), r);
    if r >= 0.0 {
      lo, hi := l, h;
    } else {
      lo, hi := h, l;
    }
  }

  lemma OeeAtPace(b: Bucket, r: real)
    requires Planned(b) > 0.0 && Items(b) > 0.0 && Ideal(b) == r * Planned(b)
    ensures Oee(b) == Some(Product(Yield(b), r))
  {
    OeeIsPaceTimesYield(b);
    QuotientOf(Ideal(b), r, Planned(b));
    assert Product(r, Yield(b)) == Product(Yield(b), r);
  }

  function Sample(planned: real, run: real, ideal: real, items: real, bad: real): Bucket {
    Bucket(map[ElapsedPlannedProductionSeconds := planned, RunSeconds := run, IdealCycleSeconds := ideal,
               TotalItems := items, BadItems := bad], None)
  }

  lemma SumOfTwo(a: Bucket, b: Bucket, f: Field)
    ensures SumOf([a, b], f) == Value(a, f) + Value(b, f)
  {
    assert [a, b][..1] == [a] && [a][..0] == [];
    assert SumOf([a], f) == Value(a, f);
  }

  /** A bucket with output and no run time has OEE, but no performance to make it of. */
  lemma OutputWithoutRunTime(planned: real, ideal: real, items: real, bad: real)
    requires planned > 0.0 && ideal > 0.0 && items > 0.0 && items > bad
    ensures var b := Sample(planned, 0.0, ideal, items, bad);
            && Oee(b).Some? && Oee(b).value > 0.0
            && Availability(b) == Performance(b) == Some(0.0)
            && Oee(b).value != Availability(b).value * Performance(b).value * Quality(b).value
  {
    var d := PositiveProduct(planned, items);
    var q := ideal * (items - bad) / d;
    assert q * d == ideal * (items - bad) > 0.0;
    OeeIsTheProduct(Sample(planned, 0.0, ideal, items, bad));
  }

  /** Run time outside planned time pushes the roll-up above every bucket. */
  lemma RunOutsidePlannedTime()
    ensures var buckets := [Sample(10.0, 5.0, 0.0, 0.0, 0.0), Sample(0.0, 5.0, 0.0, 0.0, 0.0)];
            Availability(buckets[0]) == Some(0.5) && Availability(buckets[1]) == None
            && Availability(Total(buckets)) == Some(1.0)
  {
    var a, b := Sample(10.0, 5.0, 0.0, 0.0, 0.0), Sample(0.0, 5.0, 0.0, 0.0, 0.0);
    SumOfTwo(a, b, RunSeconds);
    SumOfTwo(a, b, ElapsedPlannedProductionSeconds);
  }

  /** With neither pace nor yield in common, two buckets at 10% roll up to more than 90%. */
  lemma OeeNotBetween()
    ensures var buckets := [Sample(100.0, 100.0, 100.0, 10.0, 9.0), Sample(10.0, 10.0, 1.0, 1000.0, 0.0)];
            Oee(buckets[0]) == Oee(buckets[1]) == Some(0.1)
            && Oee(Total(buckets)).Some? && Oee(Total(buckets)).value > 0.9
  {
    var a, b := Sample(100.0, 100.0, 100.0, 10.0, 9.0), Sample(10.0, 10.0, 1.0, 1000.0, 0.0);
    SumOfTwo(a, b, IdealCycleSeconds);
    SumOfTwo(a, b, ElapsedPlannedProductionSeconds);
    SumOfTwo(a, b, TotalItems);
    SumOfTwo(a, b, BadItems);
  }
}
