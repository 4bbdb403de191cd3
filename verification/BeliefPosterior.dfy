/** The posterior of one cohort: where every unit of evidence weight goes, and how much
    independent evidence the weights amount to.  Weights are real numbers. */
module BeliefPosterior {
  import opened IdOrder
  import opened BeliefDedup

  // ----------------------------------------------------------------- sums

  function Sum(w: seq<real>): real {
    if w == [] then 0.0 else Sum(w[..|w| - 1]) + w[|w| - 1]
  }

  function Times(x: real, y: real): real {
    x * y
  }

  function Squares(w: seq<real>): real {
    if w == [] then 0.0 else Squares(w[..|w| - 1]) + Times(w[|w| - 1], w[|w| - 1])
  }

  /** The weight of the records that count for quality and had outcome `q` first. */
  function FirstWeight(records: seq<Record>, w: seq<real>, q: Quality): real
    requires |records| == |w|
  {
    if records == [] then 0.0
    else
      var n := |records| - 1;
      FirstWeight(records[..n], w[..n], q)
      + (if !records[n].Excluded() && records[n].first == q then w[n] else 0.0)
  }

  function RecoveryWeight(records: seq<Record>, w: seq<real>, q: Quality): real
    requires |records| == |w|
  {
    if records == [] then 0.0
    else
      var n := |records| - 1;
      RecoveryWeight(records[..n], w[..n], q)
      + (if !records[n].Excluded() && records[n].recovery == q then w[n] else 0.0)
  }

  function AvailabilityWeight(records: seq<Record>, w: seq<real>, a: Availability): real
    requires |records| == |w|
  {
    if records == [] then 0.0
    else
      var n := |records| - 1;
      AvailabilityWeight(records[..n], w[..n], a) + (if records[n].availability == a then w[n] else 0.0)
  }

  /** The weight of the records that count for quality at all. */
  function ComparableWeight(records: seq<Record>, w: seq<real>): real
    requires |records| == |w|
  {
    if records == [] then 0.0
    else
      var n := |records| - 1;
      ComparableWeight(records[..n], w[..n]) + (if !records[n].Excluded() then w[n] else 0.0)
  }

  // -------------------------------------------------------------- posterior

  datatype Prior = Prior(alpha: real, beta: real, dirichlet: map<Quality, real>)

  datatype Posterior = Posterior(
    alpha: real, beta: real, dirichlet: map<Quality, real>,
    first: map<Quality, real>, recovery: map<Quality, real>, availability: map<Availability, real>)

  ghost predicate Total<K(!new)>(m: map<K, real>) {
    forall k: K :: k in m
  }

  lemma EveryQuality(m: map<Quality, real>)
    requires {FirstPassPass, MinorFix, MajorFix, Reject, Indeterminate} <= m.Keys
    ensures Total(m)
  {
    forall q: Quality ensures q in m {
      match q case FirstPassPass => case MinorFix => case MajorFix => case Reject => case Indeterminate =>
    }
  }

  lemma EveryAvailability(m: map<Availability, real>)
    requires {Available, AuthFailure, QuotaFailure, TimedOut, ProviderOutage, Cancelled} <= m.Keys
    ensures Total(m)
  {
    forall a: Availability ensures a in m {
      match a
      case Available => case AuthFailure => case QuotaFailure =>
      case TimedOut => case ProviderOutage => case Cancelled =>
    }
  }

  /** `p` is the prior plus the weighted counts of the records: alpha gains the
      passes, beta the minor, major and rejected outcomes, and every other counter its
      own outcome. */
  ghost predicate Tallies(prior: Prior, p: Posterior, records: seq<Record>, quality: seq<real>, terminal: seq<real>)
    requires |records| == |quality| == |terminal| && Total(prior.dirichlet)
  {
    && TalliesBeta(prior, p, records, quality)
    && TalliesFirst(prior, p, records, quality)
    && TalliesTerminal(p, records, terminal)
  }

  ghost predicate TalliesBeta(prior: Prior, p: Posterior, records: seq<Record>, quality: seq<real>)
    requires |records| == |quality|
  {
    && p.alpha == prior.alpha + FirstWeight(records, quality, FirstPassPass)
    && p.beta == prior.beta + FirstWeight(records, quality, MinorFix)
                 + FirstWeight(records, quality, MajorFix) + FirstWeight(records, quality, Reject)
  }

  ghost predicate TalliesFirst(prior: Prior, p: Posterior, records: seq<Record>, quality: seq<real>)
    requires |records| == |quality| && Total(prior.dirichlet)
  {
    && Total(p.dirichlet) && Total(p.first)
    && (forall q: Quality :: p.first[q] == FirstWeight(records, quality, q))
    && (forall q: Quality :: p.dirichlet[q] == prior.dirichlet[q] + FirstWeight(records, quality, q))
  }

  ghost predicate TalliesTerminal(p: Posterior, records: seq<Record>, terminal: seq<real>)
    requires |records| == |terminal|
  {
    && Total(p.recovery) && Total(p.availability)
    && (forall q: Quality :: p.recovery[q] == RecoveryWeight(records, terminal, q))
    && (forall a: Availability :: p.availability[a] == AvailabilityWeight(records, terminal, a))
  }

  lemma FirstWeightStep(records: seq<Record>, w: seq<real>, r: Record, x: real, q: Quality)
    requires |records| == |w|
    ensures FirstWeight(records + [r], w + [x], q)
            == FirstWeight(records, w, q) + (if !r.Excluded() && r.first == q then x else 0.0)
  {
    assert (records + [r])[..|records|] == records && (w + [x])[..|w|] == w;
  }

  lemma RecoveryWeightStep(records: seq<Record>, w: seq<real>, r: Record, x: real, q: Quality)
    requires |records| == |w|
    ensures RecoveryWeight(records + [r], w + [x], q)
            == RecoveryWeight(records, w, q) + (if !r.Excluded() && r.recovery == q then x else 0.0)
  {
    assert (records + [r])[..|records|] == records && (w + [x])[..|w|] == w;
  }

  lemma AvailabilityWeightStep(records: seq<Record>, w: seq<real>, r: Record, x: real, a: Availability)
    requires |records| == |w|
    ensures AvailabilityWeight(records + [r], w + [x], a)
            == AvailabilityWeight(records, w, a) + (if r.availability == a then x else 0.0)
  {
    assert (records + [r])[..|records|] == records && (w + [x])[..|w|] == w;
  }

  method CountFirst(prior: Prior, before: Posterior, r: Record, x: real, ghost records: seq<Record>, ghost w: seq<real>)
    returns (p: Posterior)
    requires |records| == |w| && Total(prior.dirichlet) && TalliesFirst(prior, before, records, w)
    ensures TalliesFirst(prior, p, records + [r], w + [x])
    ensures p == before.(dirichlet := p.dirichlet, first := p.first)
  {
    forall q: Quality ensures FirstWeight(records + [r], w + [x], q)
                              == FirstWeight(records, w, q) + (if !r.Excluded() && r.first == q then x else 0.0) {
      FirstWeightStep(records, w, r, x, q);
    }
    p := before;
    if !r.Excluded() {
      p := p.(dirichlet := p.dirichlet[r.first := p.dirichlet[r.first] + x]);
      p := p.(first := p.first[r.first := p.first[r.first] + x]);
    }
  }

  method CountTerminal(before: Posterior, r: Record, x: real, ghost records: seq<Record>, ghost w: seq<real>)
    returns (p: Posterior)
    requires |records| == |w| && TalliesTerminal(before, records, w)
    ensures TalliesTerminal(p, records + [r], w + [x])
    ensures p == before.(recovery := p.recovery, availability := p.availability)
  {
    forall q: Quality ensures RecoveryWeight(records + [r], w + [x], q)
                              == RecoveryWeight(records, w, q) + (if !r.Excluded() && r.recovery == q then x else 0.0) {
      RecoveryWeightStep(records, w, r, x, q);
    }
    forall a: Availability ensures AvailabilityWeight(records + [r], w + [x], a)
                                   == AvailabilityWeight(records, w, a) + (if r.availability == a then x else 0.0) {
      AvailabilityWeightStep(records, w, r, x, a);
    }
    p := before;
    p := p.(availability := p.availability[r.availability := p.availability[r.availability] + x]);
    if !r.Excluded() { p := p.(recovery := p.recovery[r.recovery := p.recovery[r.recovery] + x]); }
  }

  method CountBeta(prior: Prior, before: Posterior, r: Record, x: real, ghost records: seq<Record>, ghost w: seq<real>)
    returns (p: Posterior)
    requires |records| == |w| && TalliesBeta(prior, before, records, w)
    ensures TalliesBeta(prior, p, records + [r], w + [x])
    ensures p == before.(alpha := p.alpha, beta := p.beta)
  {
    FirstWeightStep(records, w, r, x, FirstPassPass);
    FirstWeightStep(records, w, r, x, MinorFix);
    FirstWeightStep(records, w, r, x, MajorFix);
    FirstWeightStep(records, w, r, x, Reject);
    p := before;
    if r.BetaEligible() {
      if r.first == FirstPassPass { p := p.(alpha := p.alpha + x); } else { p := p.(beta := p.beta + x); }
    }
  }

  method StartCounting(prior: Prior) returns (p: Posterior)
    requires Total(prior.dirichlet)
    ensures Tallies(prior, p, [], [], [])
  {
    var none := map[FirstPassPass := 0.0, MinorFix := 0.0, MajorFix := 0.0, Reject := 0.0, Indeterminate := 0.0];
    var nobody :=
      map[Available := 0.0, AuthFailure := 0.0, QuotaFailure := 0.0,
          TimedOut := 0.0, ProviderOutage := 0.0, Cancelled := 0.0];
    EveryQuality(none);
    EveryAvailability(nobody);
    p := Posterior(prior.alpha, prior.beta, prior.dirichlet, none, none, nobody);
  }

  /** What the record at `i` adds. */
  method CountOne(prior: Prior, before: Posterior,
                  records: seq<Record>, quality: seq<real>, terminal: seq<real>, i: nat)
    returns (p: Posterior)
    requires i < |records| == |quality| == |terminal| && Total(prior.dirichlet)
    requires Tallies(prior, before, records[..i], quality[..i], terminal[..i])
    ensures Tallies(prior, p, records[..i + 1], quality[..i + 1], terminal[..i + 1])
  {
    assert records[..i + 1] == records[..i] + [records[i]];
    assert quality[..i + 1] == quality[..i] + [quality[i]];
    assert terminal[..i + 1] == terminal[..i] + [terminal[i]];
    p := CountTerminal(before, records[i], terminal[i], records[..i], terminal[..i]);
    p := CountFirst(prior, p, records[i], quality[i], records[..i], quality[..i]);
    p := CountBeta(prior, p, records[i], quality[i], records[..i], quality[..i]);
  }

  /** The accumulation loop over the records of one cohort. */
  method Accumulate(prior: Prior, records: seq<Record>, quality: seq<real>, terminal: seq<real>) returns (p: Posterior)
    requires |records| == |quality| == |terminal| && Total(prior.dirichlet)
    ensures Tallies(prior, p, records, quality, terminal)
  {
    p := StartCounting(prior);
    for i := 0 to |records|
      invariant Tallies(prior, p, records[..i], quality[..i], terminal[..i])
    {
      p := CountOne(prior, p, records, quality, terminal, i);
    }
    assert records[..|records|] == records && quality[..|records|] == quality && terminal[..|records|] == terminal;
  }

  function QualityMass(m: map<Quality, real>): real
    requires Total(m)
  {
    m[FirstPassPass] + m[MinorFix] + m[MajorFix] + m[Reject] + m[Indeterminate]
  }

  /** Every comparable unit of weight lands in exactly one quality outcome. */
  lemma {:induction false} QualityWeightIsConserved(records: seq<Record>, w: seq<real>)
    requires |records| == |w|
    ensures FirstWeight(records, w, FirstPassPass) + FirstWeight(records, w, MinorFix)
            + FirstWeight(records, w, MajorFix) + FirstWeight(records, w, Reject)
            + FirstWeight(records, w, Indeterminate) == ComparableWeight(records, w)
  {
    if records != [] {
      var n := |records| - 1;
      QualityWeightIsConserved(records[..n], w[..n]);
    }
  }

  lemma {:induction false} AvailabilityWeightIsConserved(records: seq<Record>, w: seq<real>)
    requires |records| == |w|
    ensures AvailabilityWeight(records, w, Available) + AvailabilityWeight(records, w, AuthFailure)
            + AvailabilityWeight(records, w, QuotaFailure) + AvailabilityWeight(records, w, TimedOut)
            + AvailabilityWeight(records, w, ProviderOutage) + AvailabilityWeight(records, w, Cancelled) == Sum(w)
  {
    if records != [] {
      var n := |records| - 1;
      AvailabilityWeightIsConserved(records[..n], w[..n]);
    }
  }

  /** What the posterior of a cohort accounts for: the Dirichlet mass grows by the
      comparable weight, and alpha and beta by all of it but the indeterminate part. */
  method CohortPosterior(prior: Prior, records: seq<Record>, quality: seq<real>, terminal: seq<real>)
    returns (p: Posterior)
    requires |records| == |quality| == |terminal|
    requires Total(prior.dirichlet)
    ensures Total(p.dirichlet)
    ensures QualityMass(p.dirichlet) == QualityMass(prior.dirichlet) + ComparableWeight(records, quality)
    ensures (p.alpha - prior.alpha) + (p.beta - prior.beta)
            == ComparableWeight(records, quality) - FirstWeight(records, quality, Indeterminate)
  {
    p := Accumulate(prior, records, quality, terminal);
    QualityWeightIsConserved(records, quality);
  }

  // --------------------------------------------------------- effective size

  predicate Positive(w: seq<real>) {
    forall i | 0 <= i < |w| :: w[i] > 0.0
  }

  lemma {:induction false} PositiveSums(w: seq<real>)
    requires Positive(w)
    ensures Sum(w) >= 0.0 && Squares(w) >= 0.0
    ensures w != [] ==> Sum(w) > 0.0 && Squares(w) > 0.0
  {
    if w != [] {
      var n := |w| - 1;
      PositiveSums(w[..n]);
      ProductIsPositive(w[n], w[n]);
    }
  }

  lemma ProductIsPositive(x: real, y: real)
    requires x > 0.0 && y > 0.0
    ensures Times(x, y) > 0.0
  {
  }

  lemma ProductBelowSquares(a: real, b: real)
    ensures 2.0 * a * b <= a * a + b * b
  {
    assert (a - b) * (a - b) >= 0.0;
    assert (a - b) * (a - b) == a * a - 2.0 * a * b + b * b;
  }

  /** `s * s <= n * q` carries over to one more weight. */
  lemma CauchyStep(s: real, q: real, n: real, x: real)
    requires n >= 1.0 && s * s <= n * q
    ensures (s + x) * (s + x) <= (n + 1.0) * (q + x * x)
  {
    ProductBelowSquares(s, n * x);
    assert 2.0 * s * (n * x) == n * (2.0 * s * x);
    assert (n * x) * (n * x) == n * (n * x * x);
    assert n * (2.0 * s * x) <= n * (q + n * x * x) by {
      assert n * (q + n * x * x) == n * q + n * (n * x * x);
    }
    Cancel(n, 2.0 * s * x, q + n * x * x);
    assert (s + x) * (s + x) == s * s + 2.0 * s * x + x * x;
    assert (n + 1.0) * (q + x * x) == n * q + q + n * x * x + x * x;
  }

  lemma Cancel(n: real, a: real, b: real)
    requires n > 0.0 && n * a <= n * b
    ensures a <= b
  {
  }

  /** The square of a sum is at most the count times the sum of squares. */
  lemma {:induction false} CauchySchwarz(w: seq<real>)
    requires w != []
    ensures Sum(w) * Sum(w) <= (|w| as real) * Squares(w)
  {
    var n := |w| - 1;
    if n == 0 {
      assert w[..0] == [];
    } else {
      CauchySchwarz(w[..n]);
      CauchyStep(Sum(w[..n]), Squares(w[..n]), n as real, w[n]);
    }
  }

  lemma {:induction false} SquaresBelow(w: seq<real>)
    requires Positive(w)
    ensures Sum(w) >= 0.0 && Squares(w) <= Sum(w) * Sum(w)
  {
    if w != [] {
      var n := |w| - 1;
      SquaresBelow(w[..n]);
      var s, x := Sum(w[..n]), w[n];
      assert (s + x) * (s + x) == s * s + 2.0 * (s * x) + x * x;
      assert s * x >= 0.0;
    }
  }

  function EffectiveSize(w: seq<real>): real
    requires Positive(w)
  {
    if w == [] then 0.0
    else
      PositiveSums(w);
      Sum(w) * Sum(w) / Squares(w)
  }

  lemma DivideBetween(a: real, q: real, n: real)
    requires q > 0.0 && q <= a <= n * q
    ensures 1.0 <= a / q <= n
  {
    var r := a / q;
    assert r * q == a;
    Cancel(q, 1.0, r);
    Cancel(q, r, n);
  }

  /** The effective size of n positive weights lies between 1 and n. */
  lemma EffectiveSizeBounds(w: seq<real>)
    requires Positive(w) && w != []
    ensures 1.0 <= EffectiveSize(w) <= |w| as real
  {
    PositiveSums(w);
    CauchySchwarz(w);
    SquaresBelow(w);
    DivideBetween(Sum(w) * Sum(w), Squares(w), |w| as real);
  }

  // --------------------------------------------------------------- cohorts

  function OfCohort(records: seq<Record>, cohort: string): seq<Record> {
    if records == [] then []
    else
      var n := |records| - 1;
      OfCohort(records[..n], cohort) + (if records[n].cohort == cohort then [records[n]] else [])
  }

  function RootCounts(cohorts: seq<string>, records: seq<Record>): nat {
    if cohorts == [] then 0
    else RootCounts(cohorts[..|cohorts| - 1], records) + |OfCohort(records, cohorts[|cohorts| - 1])|
  }

  lemma {:induction false} RootCountsStep(cohorts: seq<string>, records: seq<Record>, r: Record)
    requires Distinct(cohorts)
    ensures RootCounts(cohorts, records + [r]) == RootCounts(cohorts, records) + (if r.cohort in cohorts then 1 else 0)
  {
    if cohorts != [] {
      var n := |cohorts| - 1;
      assert Distinct(cohorts[..n]);
      RootCountsStep(cohorts[..n], records, r);
      assert (records + [r])[..|records|] == records;
      assert cohorts == cohorts[..n] + [cohorts[n]];
    }
  }

  lemma {:induction false} NoRoots(cohorts: seq<string>)
    ensures RootCounts(cohorts, []) == 0
  {
    if cohorts != [] { NoRoots(cohorts[..|cohorts| - 1]); }
  }

  /** The cohort root counts add up to the number of independent roots. */
  lemma {:induction false} RootCountsAddUp(cohorts: seq<string>, records: seq<Record>)
    requires Distinct(cohorts) && forall r | r in records :: r.cohort in cohorts
    ensures RootCounts(cohorts, records) == |records|
  {
    if records == [] {
      NoRoots(cohorts);
    } else {
      var n := |records| - 1;
      RootCountsAddUp(cohorts, records[..n]);
      RootCountsStep(cohorts, records[..n], records[n]);
      assert records == records[..n] + [records[n]];
    }
  }

  /** Groups the surviving records by cohort, cohorts in order, records in root order;
      the groups partition them. */
  method GroupByCohort(records: seq<Record>) returns (cohorts: seq<string>, groups: seq<seq<Record>>)
    ensures Sorted(cohorts) && Distinct(cohorts) && |groups| == |cohorts|
    ensures forall k | 0 <= k < |groups| :: groups[k] == OfCohort(records, cohorts[k]) && groups[k] != []
    ensures forall r | r in records :: r.cohort in cohorts
    ensures RootCounts(cohorts, records) == |records|
  {
    var table := CohortTable(records);
    cohorts := SortIds(table.Keys);
    groups := [];
    for k := 0 to |cohorts|
      invariant |groups| == k
      invariant forall j | 0 <= j < k :: groups[j] == OfCohort(records, cohorts[j]) && groups[j] != []
    {
      assert cohorts[k] in cohorts;
      groups := groups + [table[cohorts[k]]];
    }
    RootCountsAddUp(cohorts, records);
  }

  method CohortTable(records: seq<Record>) returns (table: map<string, seq<Record>>)
    ensures forall c | c in table :: table[c] == OfCohort(records, c) && table[c] != []
    ensures forall r | r in records :: r.cohort in table
  {
    table := map[];
    for i := 0 to |records|
      invariant forall c | c in table :: table[c] == OfCohort(records[..i], c) && table[c] != []
      invariant forall c | c !in table :: OfCohort(records[..i], c) == []
      invariant forall r | r in records[..i] :: r.cohort in table
    {
      assert records[..i + 1] == records[..i] + [records[i]];
      assert records[..i + 1][..i] == records[..i];
      var c := records[i].cohort;
      table := table[c := (if c in table then table[c] else []) + [records[i]]];
    }
    assert records[..|records|] == records;
  }

  // ------------------------------------------------------------ percentiles

  function Ceiling(x: real): int {
    -((-x).Floor)
  }

  function RankIndex(q: real, n: nat): int {
    var index := Ceiling(q * (n as real)) - 1;
    if index < 0 then 0 else index
  }

  /** The percentile picks the smallest rank that covers a fraction `q` of the values. */
  lemma RankIsNearest(q: real, n: nat)
    requires n > 0 && 0.0 <= q <= 1.0
    ensures 0 <= RankIndex(q, n) < n
    ensures q * (n as real) <= (RankIndex(q, n) + 1) as real
    ensures RankIndex(q, n) > 0 ==> (RankIndex(q, n) as real) < q * (n as real)
  {
    var x := q * (n as real);
    assert 0.0 <= x <= n as real;
  }
}
