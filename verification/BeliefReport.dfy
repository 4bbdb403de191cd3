/** The whole capability report: deduplication, grouping and posteriors composed, and
    when the order of the input cannot show in it. */
module BeliefReport {
  import opened Options
  import opened IdOrder
  import opened BeliefDedup
  import opened BeliefPosterior

  /** `weight` is what a timestamp weighs at the time of the report; `summary` stands for
      whatever else a report derives from the records of a cohort: token and latency
      statistics, freshness, drift and epoch. */
  datatype Policy = Policy(prior: Prior, weight: Time -> real, summary: seq<Record> -> nat)

  ghost predicate ValidPolicy(p: Policy) {
    Total(p.prior.dirichlet) && forall t :: p.weight(t) > 0.0
  }

  datatype CohortEntry = CohortEntry(
    cohort: string, roots: nat, firstSize: real, terminalSize: real, posterior: Posterior, summary: nat)

  datatype Report = Rejected | Report(inputs: nat, roots: nat, dropped: int, cohorts: seq<CohortEntry>)

  // ---------------------------------------------------------- specification

  /** The surviving records in root order. */
  ghost function Survivors(latest: Table): seq<Record> {
    var roots := InOrder(latest.Keys);
    seq(|roots|, i requires 0 <= i < |roots| => (assert roots[i] in roots; latest[roots[i]]))
  }

  function CohortNames(records: seq<Record>): set<string> {
    set r | r in records :: r.cohort
  }

  function FirstWeights(p: Policy, records: seq<Record>): seq<real> {
    seq(|records|, i requires 0 <= i < |records| => p.weight(records[i].firstAt))
  }

  function TerminalWeights(p: Policy, records: seq<Record>): seq<real> {
    seq(|records|, i requires 0 <= i < |records| => p.weight(records[i].capturedAt))
  }

  /** The one posterior that tallies the records. */
  ghost function PosteriorOf(prior: Prior, records: seq<Record>, quality: seq<real>, terminal: seq<real>): Posterior
    requires |records| == |quality| == |terminal| && Total(prior.dirichlet)
  {
    var first := map q: Quality | q in prior.dirichlet :: FirstWeight(records, quality, q);
    Posterior(
      prior.alpha + first[FirstPassPass],
      prior.beta + first[MinorFix] + first[MajorFix] + first[Reject],
      map q: Quality | q in prior.dirichlet :: prior.dirichlet[q] + FirstWeight(records, quality, q),
      first,
      map q: Quality | q in prior.dirichlet :: RecoveryWeight(records, terminal, q),
      AvailabilityCounts(records, terminal))
  }

  ghost function AvailabilityCounts(records: seq<Record>, terminal: seq<real>): map<Availability, real>
    requires |records| == |terminal|
  {
    map a | a in {Available, AuthFailure, QuotaFailure, TimedOut, ProviderOutage, Cancelled} ::
      AvailabilityWeight(records, terminal, a)
  }

  lemma SameQualityMap(m: map<Quality, real>, n: map<Quality, real>)
    requires Total(m) && Total(n) && forall q: Quality :: m[q] == n[q]
    ensures m == n
  {
  }

  lemma SameAvailabilityMap(m: map<Availability, real>, n: map<Availability, real>)
    requires Total(m) && Total(n) && forall a: Availability :: m[a] == n[a]
    ensures m == n
  {
  }

  lemma TalliesDetermine(prior: Prior, p: Posterior, records: seq<Record>, quality: seq<real>, terminal: seq<real>)
    requires |records| == |quality| == |terminal| && Total(prior.dirichlet)
    requires Tallies(prior, p, records, quality, terminal)
    ensures p == PosteriorOf(prior, records, quality, terminal)
  {
    var that := PosteriorOf(prior, records, quality, terminal);
    EveryAvailability(AvailabilityCounts(records, terminal));
    SameAvailabilityMap(p.availability, that.availability);
    SameQualityMap(p.first, that.first);
    SameQualityMap(p.recovery, that.recovery);
    SameQualityMap(p.dirichlet, that.dirichlet);
  }

  ghost function EntryOf(p: Policy, cohort: string, group: seq<Record>): CohortEntry
    requires ValidPolicy(p)
  {
    var quality, terminal := FirstWeights(p, group), TerminalWeights(p, group);
    CohortEntry(cohort, |group|, EffectiveSize(quality), EffectiveSize(terminal),
                PosteriorOf(p.prior, group, quality, terminal), p.summary(group))
  }

  ghost function EntriesFor(p: Policy, list: seq<Record>, names: seq<string>): seq<CohortEntry>
    requires ValidPolicy(p)
  {
    seq(|names|, i requires 0 <= i < |names| => EntryOf(p, names[i], OfCohort(list, names[i])))
  }

  /** One entry per cohort, cohorts in order. */
  ghost function Entries(p: Policy, list: seq<Record>): seq<CohortEntry>
    requires ValidPolicy(p)
  {
    EntriesFor(p, list, InOrder(CohortNames(list)))
  }

  /** The report of a sequence of records. */
  ghost function Rebuilt(p: Policy, records: seq<Record>): Report
    requires ValidPolicy(p)
  {
    match Latest(records)
    case None => Rejected
    case Some(latest) =>
      var list := Survivors(latest);
      Report(|records|, |list|, |records| - |list|, Entries(p, list))
  }

  // ------------------------------------------------------------- computing

  lemma SurvivorsAreListed(latest: Table)
    requires forall root | root in latest :: latest[root].root == root
    ensures Lists(Survivors(latest), latest)
  {
    var roots := InOrder(latest.Keys);
    forall j | 0 <= j < |roots| ensures roots[j] in latest { assert roots[j] in roots; }
    ListedInOrder(latest, roots, Survivors(latest));
  }

  lemma {:induction false} ListIsSurvivors(records: seq<Record>, list: seq<Record>)
    requires Latest(records).Some? && Lists(list, Latest(records).value)
    ensures list == Survivors(Latest(records).value)
  {
    LatestExact(records);
    SurvivorsAreListed(Latest(records).value);
    ListingIsUnique(list, Survivors(Latest(records).value));
  }

  method BuildEntry(p: Policy, cohort: string, group: seq<Record>) returns (entry: CohortEntry)
    requires ValidPolicy(p)
    ensures entry == EntryOf(p, cohort, group)
  {
    var quality, terminal := FirstWeights(p, group), TerminalWeights(p, group);
    var posterior := Accumulate(p.prior, group, quality, terminal);
    TalliesDetermine(p.prior, posterior, group, quality, terminal);
    entry := CohortEntry(
      cohort, |group|, EffectiveSize(quality), EffectiveSize(terminal), posterior, p.summary(group));
  }

  lemma {:induction false} CohortsAreInOrder(records: seq<Record>, cohorts: seq<string>, groups: seq<seq<Record>>)
    requires Sorted(cohorts) && Distinct(cohorts) && |groups| == |cohorts|
    requires forall k | 0 <= k < |groups| :: groups[k] == OfCohort(records, cohorts[k]) && groups[k] != []
    requires forall r | r in records :: r.cohort in cohorts
    ensures cohorts == InOrder(CohortNames(records))
  {
    forall c ensures c in cohorts <==> c in CohortNames(records) { GroupsAreCohorts(records, cohorts, groups, c); }
    OrderIsUnique(cohorts, InOrder(CohortNames(records)));
  }

  method BuildFor(p: Policy, list: seq<Record>, names: seq<string>, groups: seq<seq<Record>>)
    returns (entries: seq<CohortEntry>)
    requires ValidPolicy(p) && |groups| == |names|
    requires forall k | 0 <= k < |groups| :: groups[k] == OfCohort(list, names[k])
    ensures entries == EntriesFor(p, list, names)
  {
    entries := [];
    for k := 0 to |names|
      invariant entries == EntriesFor(p, list, names[..k])
    {
      var entry := BuildEntry(p, names[k], groups[k]);
      entries := entries + [entry];
      assert names[..k + 1] == names[..k] + [names[k]];
    }
    assert names[..|names|] == names;
  }

  method BuildEntries(p: Policy, list: seq<Record>) returns (entries: seq<CohortEntry>)
    requires ValidPolicy(p)
    ensures entries == Entries(p, list)
  {
    var cohorts, groups := GroupByCohort(list);
    CohortsAreInOrder(list, cohorts, groups);
    entries := BuildFor(p, list, cohorts, groups);
  }

  lemma {:induction false} CohortMembers(records: seq<Record>, cohort: string)
    ensures forall r :: r in OfCohort(records, cohort) <==> r in records && r.cohort == cohort
  {
    if records != [] {
      var n := |records| - 1;
      CohortMembers(records[..n], cohort);
      assert forall r :: r in records <==> r in records[..n] || r == records[n];
    }
  }

  lemma {:induction false} GroupsAreCohorts(
    records: seq<Record>, cohorts: seq<string>, groups: seq<seq<Record>>, c: string)
    requires |groups| == |cohorts|
    requires forall k | 0 <= k < |groups| :: groups[k] == OfCohort(records, cohorts[k]) && groups[k] != []
    requires forall r | r in records :: r.cohort in cohorts
    ensures c in cohorts <==> c in CohortNames(records)
  {
    CohortMembers(records, c);
    if c in cohorts {
      var k :| 0 <= k < |cohorts| && cohorts[k] == c;
      assert groups[k][0] in OfCohort(records, c);
    }
  }

  /** The report as the tool builds it. */
  method Rebuild(p: Policy, records: seq<Record>) returns (report: Report)
    requires ValidPolicy(p)
    ensures report == Rebuilt(p, records)
  {
    var deduped := DeduplicateRootLineage(records);
    LatestExact(records);
    if deduped.None? { return Rejected; }
    ListIsSurvivors(records, deduped.value);
    var entries := BuildEntries(p, deduped.value);
    report := Report(|records|, |deduped.value|, |records| - |deduped.value|, entries);
  }

  // ------------------------------------------------------------ accounting

  function EntryRoots(entries: seq<CohortEntry>): nat {
    if entries == [] then 0 else EntryRoots(entries[..|entries| - 1]) + entries[|entries| - 1].roots
  }

  function Roots(records: seq<Record>): set<string> {
    set r | r in records :: r.root
  }

  lemma {:induction false} EntryRootsAreCounts(p: Policy, list: seq<Record>, names: seq<string>)
    requires ValidPolicy(p)
    ensures EntryRoots(EntriesFor(p, list, names)) == RootCounts(names, list)
  {
    if names != [] {
      var n := |names| - 1;
      EntryRootsAreCounts(p, list, names[..n]);
      assert EntriesFor(p, list, names)[..n] == EntriesFor(p, list, names[..n]);
    }
  }

  lemma {:induction false} DistinctCount(ids: seq<string>, all: set<string>)
    requires Distinct(ids) && forall x :: x in ids <==> x in all
    ensures |ids| == |all|
  {
    if ids != [] {
      var n := |ids| - 1;
      assert forall x :: x in ids <==> x in ids[..n] || x == ids[n];
      DistinctCount(ids[..n], all - {ids[n]});
    }
  }

  lemma {:induction false} NoMoreRootsThanRecords(records: seq<Record>)
    ensures |Roots(records)| <= |records|
  {
    if records != [] {
      var n := |records| - 1;
      NoMoreRootsThanRecords(records[..n]);
      assert Roots(records) == Roots(records[..n]) + {records[n].root};
    }
  }

  /** The counts of a report: every input record, one per root, the rest dropped, and the
      roots of the cohorts adding up to the independent roots. */
  lemma {:induction false} CountsAddUp(p: Policy, records: seq<Record>)
    requires ValidPolicy(p) && Rebuilt(p, records).Report?
    ensures var report := Rebuilt(p, records);
            && report.inputs == |records| && report.roots == |Roots(records)|
            && report.inputs == report.roots + report.dropped && report.dropped >= 0
            && EntryRoots(report.cohorts) == report.roots
  {
    LatestExact(records);
    var latest := Latest(records).value;
    SurvivorsAreListed(latest);
    var list := Survivors(latest);
    assert latest.Keys == Roots(records);
    DistinctCount(InOrder(latest.Keys), latest.Keys);
    NoMoreRootsThanRecords(records);
    var names := InOrder(CohortNames(list));
    EntryRootsAreCounts(p, list, names);
    RootCountsAddUp(names, list);
  }

  lemma CohortIsNotEmpty(list: seq<Record>, cohort: string)
    requires cohort in CohortNames(list)
    ensures OfCohort(list, cohort) != []
  {
    var r :| r in list && r.cohort == cohort;
    CohortMembers(list, cohort);
    assert r in OfCohort(list, cohort);
  }

  /** What an entry accounts for: at least one root, effective sizes between one and the
      roots, and posterior mass equal to the prior's plus the comparable weight. */
  ghost predicate Accounts(p: Policy, e: CohortEntry, group: seq<Record>)
    requires ValidPolicy(p)
  {
    var quality := FirstWeights(p, group);
    var indeterminate := FirstWeight(group, quality, Indeterminate);
    && e.roots == |group| >= 1
    && 1.0 <= e.firstSize <= e.roots as real && 1.0 <= e.terminalSize <= e.roots as real
    && Total(e.posterior.dirichlet)
    && QualityMass(e.posterior.dirichlet) == QualityMass(p.prior.dirichlet) + ComparableWeight(group, quality)
    && (e.posterior.alpha - p.prior.alpha) + (e.posterior.beta - p.prior.beta)
       == ComparableWeight(group, quality) - indeterminate
  }

  lemma {:induction false} EntryAccounts(p: Policy, cohort: string, group: seq<Record>)
    requires ValidPolicy(p) && group != []
    ensures Accounts(p, EntryOf(p, cohort, group), group)
  {
    EffectiveSizeBounds(FirstWeights(p, group));
    EffectiveSizeBounds(TerminalWeights(p, group));
    QualityWeightIsConserved(group, FirstWeights(p, group));
  }

  /** Every entry of every report does, for the surviving records of its cohort. */
  lemma {:induction false} EntriesAccount(p: Policy, records: seq<Record>, k: nat)
    requires ValidPolicy(p) && Rebuilt(p, records).Report? && k < |Rebuilt(p, records).cohorts|
    ensures var e := Rebuilt(p, records).cohorts[k];
            Accounts(p, e, OfCohort(Survivors(Latest(records).value), e.cohort))
  {
    var list := Survivors(Latest(records).value);
    var names := InOrder(CohortNames(list));
    assert names[k] in names;
    CohortIsNotEmpty(list, names[k]);
    EntryAccounts(p, names[k], OfCohort(list, names[k]));
  }

  // -------------------------------------------------- what is counted where

  /** The weight of the records with one of the given availabilities, first-pass outcomes
      and recovery outcomes. */
  function WeightWhere(records: seq<Record>, w: seq<real>, available: set<Availability>,
                       first: set<Quality>, recovery: set<Quality>): real
    requires |records| == |w|
  {
    if records == [] then 0.0
    else
      var n := |records| - 1;
      var r := records[n];
      var counted := r.availability in available && r.first in first && r.recovery in recovery;
      WeightWhere(records[..n], w[..n], available, first, recovery) + (if counted then w[n] else 0.0)
  }

  const ANY: set<Quality> := {FirstPassPass, MinorFix, MajorFix, Reject, Indeterminate}

  lemma AnyQuality(q: Quality)
    ensures q in ANY
  {
  }

  lemma {:induction false} FirstWeightMeans(records: seq<Record>, w: seq<real>, q: Quality)
    requires |records| == |w|
    ensures FirstWeight(records, w, q) == WeightWhere(records, w, {Available}, {q}, ANY)
  {
    if records != [] {
      var n := |records| - 1;
      FirstWeightMeans(records[..n], w[..n], q);
      AnyQuality(records[n].recovery);
    }
  }

  lemma {:induction false} RecoveryWeightMeans(records: seq<Record>, w: seq<real>, q: Quality)
    requires |records| == |w|
    ensures RecoveryWeight(records, w, q) == WeightWhere(records, w, {Available}, ANY, {q})
  {
    if records != [] {
      var n := |records| - 1;
      RecoveryWeightMeans(records[..n], w[..n], q);
      AnyQuality(records[n].first);
    }
  }

  lemma {:induction false} AvailabilityWeightMeans(records: seq<Record>, w: seq<real>, a: Availability)
    requires |records| == |w|
    ensures AvailabilityWeight(records, w, a) == WeightWhere(records, w, {a}, ANY, ANY)
  {
    if records != [] {
      var n := |records| - 1;
      AvailabilityWeightMeans(records[..n], w[..n], a);
      AnyQuality(records[n].first);
      AnyQuality(records[n].recovery);
    }
  }

  lemma {:induction false} ComparableWeightMeans(records: seq<Record>, w: seq<real>)
    requires |records| == |w|
    ensures ComparableWeight(records, w) == WeightWhere(records, w, {Available}, ANY, ANY)
  {
    if records != [] {
      var n := |records| - 1;
      ComparableWeightMeans(records[..n], w[..n]);
      AnyQuality(records[n].first);
      AnyQuality(records[n].recovery);
    }
  }

  lemma {:induction false} FixesAddUp(records: seq<Record>, w: seq<real>)
    requires |records| == |w|
    ensures WeightWhere(records, w, {Available}, {MinorFix, MajorFix, Reject}, ANY)
            == FirstWeight(records, w, MinorFix) + FirstWeight(records, w, MajorFix) + FirstWeight(records, w, Reject)
  {
    if records != [] {
      var n := |records| - 1;
      FixesAddUp(records[..n], w[..n]);
      AnyQuality(records[n].recovery);
    }
  }

  /** What each counter of a posterior counts, over available records only but for
      availability itself: passes for alpha; fixes and rejects for beta; each first-pass
      outcome, its prior added for the Dirichlet counter; recoveries by their own weight. */
  lemma PosteriorMeans(
    prior: Prior, records: seq<Record>, quality: seq<real>, terminal: seq<real>, q: Quality, a: Availability)
    requires |records| == |quality| == |terminal| && Total(prior.dirichlet)
    ensures var p := PosteriorOf(prior, records, quality, terminal);
            && p.alpha == prior.alpha + WeightWhere(records, quality, {Available}, {FirstPassPass}, ANY)
            && p.beta == prior.beta + WeightWhere(records, quality, {Available}, {MinorFix, MajorFix, Reject}, ANY)
            && q in p.first && p.first[q] == WeightWhere(records, quality, {Available}, {q}, ANY)
            && q in p.dirichlet && p.dirichlet[q] == prior.dirichlet[q] + p.first[q]
            && q in p.recovery && p.recovery[q] == WeightWhere(records, terminal, {Available}, ANY, {q})
            && a in p.availability && p.availability[a] == WeightWhere(records, terminal, {a}, ANY, ANY)
  {
    FirstWeightMeans(records, quality, q);
    FirstWeightMeans(records, quality, FirstPassPass);
    RecoveryWeightMeans(records, terminal, q);
    AvailabilityWeightMeans(records, terminal, a);
    FixesAddUp(records, quality);
    EveryAvailability(AvailabilityCounts(records, terminal));
  }

  /** The entry weighs first-pass evidence by its own time and everything else by the time
      of capture. */
  ghost predicate Shows(p: Policy, e: CohortEntry, group: seq<Record>)
    requires ValidPolicy(p)
  {
    var quality := seq(|group|, i requires 0 <= i < |group| => p.weight(group[i].firstAt));
    var terminal := seq(|group|, i requires 0 <= i < |group| => p.weight(group[i].capturedAt));
    && e.posterior == PosteriorOf(p.prior, group, quality, terminal)
    && e.firstSize == EffectiveSize(quality) && e.terminalSize == EffectiveSize(terminal)
    && e.summary == p.summary(group)
  }

  lemma EntryShows(p: Policy, cohort: string, group: seq<Record>)
    requires ValidPolicy(p)
    ensures Shows(p, EntryOf(p, cohort, group), group)
  {
    assert FirstWeights(p, group) == seq(|group|, i requires 0 <= i < |group| => p.weight(group[i].firstAt));
    assert TerminalWeights(p, group) == seq(|group|, i requires 0 <= i < |group| => p.weight(group[i].capturedAt));
  }

  /** Every entry does, for the surviving records of its cohort. */
  lemma {:induction false} EntriesShow(p: Policy, records: seq<Record>, k: nat)
    requires ValidPolicy(p) && Rebuilt(p, records).Report? && k < |Rebuilt(p, records).cohorts|
    ensures var e := Rebuilt(p, records).cohorts[k]; var list := Survivors(Latest(records).value);
            && Shows(p, e, OfCohort(list, e.cohort))
            && forall r :: r in OfCohort(list, e.cohort) <==> r in list && r.cohort == e.cohort
  {
    var list := Survivors(Latest(records).value);
    var names := InOrder(CohortNames(list));
    EntryShows(p, names[k], OfCohort(list, names[k]));
    CohortMembers(list, names[k]);
  }

  // ------------------------------------------------------ order of the input

  /** Every order of an order-free input gives the same report, rejection included. */
  lemma {:induction false} RebuildIsOrderFree(p: Policy, a: seq<Record>, b: seq<Record>)
    requires ValidPolicy(p) && multiset(a) == multiset(b) && OrderFree(a)
    ensures Rebuilt(p, a) == Rebuilt(p, b)
  {
    assert |multiset(a)| == |a| && |multiset(b)| == |b|;
    assert Latest(b) == Latest(a);
  }

  /** The order of the input shows in no report, whatever is summarized of a cohort. */
  ghost predicate ReportsOrderFree(prior: Prior, weight: Time -> real, a: seq<Record>)
    requires Total(prior.dirichlet) && forall t :: weight(t) > 0.0
  {
    forall b, summary | multiset(a) == multiset(b) ::
      Rebuilt(Policy(prior, weight, summary), b) == Rebuilt(Policy(prior, weight, summary), a)
  }

  /** Two tables that keep different records of a root group that cohort differently. */
  lemma {:induction false} GroupsTellApart(x: Table, y: Table, root: string)
    requires forall r | r in x :: x[r].root == r
    requires forall r | r in y :: y[r].root == r
    requires root in x && root in y && x[root] != y[root] && x[root].cohort == y[root].cohort
    ensures OfCohort(Survivors(x), x[root].cohort) != OfCohort(Survivors(y), x[root].cohort)
    ensures x[root].cohort in CohortNames(Survivors(x)) && x[root].cohort in CohortNames(Survivors(y))
  {
    SurvivorsAreListed(x);
    SurvivorsAreListed(y);
    CohortMembers(Survivors(x), x[root].cohort);
    CohortMembers(Survivors(y), x[root].cohort);
    assert x[root] in Survivors(x) && y[root] in Survivors(y) && x[root] !in Survivors(y);
    assert x[root] in OfCohort(Survivors(x), x[root].cohort);
  }

  lemma EntryAt(p: Policy, list: seq<Record>, i: nat)
    requires ValidPolicy(p) && i < |Entries(p, list)|
    ensures var name := InOrder(CohortNames(list))[i];
            Entries(p, list)[i].cohort == name && Entries(p, list)[i].summary == p.summary(OfCohort(list, name))
  {
  }

  /** A summary that tells two groups of a cohort apart tells the reports apart. */
  lemma {:induction false} SummaryTellsApart(p: Policy, x: seq<Record>, y: seq<Record>, cohort: string)
    requires ValidPolicy(p) && cohort in CohortNames(x)
    requires p.summary(OfCohort(x, cohort)) != p.summary(OfCohort(y, cohort))
    ensures Entries(p, x) != Entries(p, y)
  {
    var names := InOrder(CohortNames(x));
    assert cohort in names;
    var i :| 0 <= i < |names| && names[i] == cohort;
    EntryAt(p, x, i);
    if i < |Entries(p, y)| {
      EntryAt(p, y, i);
      assert Entries(p, x)[i] != Entries(p, y)[i];
    }
  }

  /** Two tables of the latest records that differ keep different records of some root,
      both of its one cohort. */
  lemma TablesDifferAtRoot(x: Table, y: Table, a: seq<Record>) returns (root: string)
    requires HoldsLatest(x, a) && HoldsLatest(y, a) && Consistent(a) && x != y
    ensures root in x && root in y && x[root] != y[root] && x[root].cohort == y[root].cohort
  {
    assert forall r | r in x :: x[r] in a && r in y;
    assert forall r | r in y :: y[r] in a && r in x;
    root :| root in x && x[root] != y[root];
    assert Agree(x[root], y[root]);
  }

  /** Some summary tells the reports of two orders apart. */
  ghost predicate ReportsDiffer(prior: Prior, weight: Time -> real, a: seq<Record>, b: seq<Record>)
    requires Total(prior.dirichlet) && forall t :: weight(t) > 0.0
  {
    exists summary :: Rebuilt(Policy(prior, weight, summary), a) != Rebuilt(Policy(prior, weight, summary), b)
  }

  lemma {:induction false} SummaryShows(p: Policy, a: seq<Record>, b: seq<Record>, cohort: string)
    requires ValidPolicy(p) && Latest(a).Some? && Latest(b).Some?
    requires var x, y := Survivors(Latest(a).value), Survivors(Latest(b).value);
             cohort in CohortNames(x) && p.summary(OfCohort(x, cohort)) != p.summary(OfCohort(y, cohort))
    ensures Rebuilt(p, a) != Rebuilt(p, b)
  {
    SummaryTellsApart(p, Survivors(Latest(a).value), Survivors(Latest(b).value), cohort);
  }

  lemma {:induction false} DifferentTablesShow(
    prior: Prior, weight: Time -> real, a: seq<Record>, b: seq<Record>, root: string)
    requires Total(prior.dirichlet) && forall t :: weight(t) > 0.0
    requires Latest(a).Some? && Latest(b).Some?
    requires var x, y := Latest(a).value, Latest(b).value;
             && (forall r | r in x :: x[r].root == r) && (forall r | r in y :: y[r].root == r)
             && root in x && root in y && x[root] != y[root] && x[root].cohort == y[root].cohort
    ensures ReportsDiffer(prior, weight, a, b)
  {
    var x, y := Latest(a).value, Latest(b).value;
    var cohort := x[root].cohort;
    GroupsTellApart(x, y, root);
    var group := OfCohort(Survivors(x), cohort);
    var summary := (g: seq<Record>) => if g == group then 0 else 1;
    SummaryShows(Policy(prior, weight, summary), a, b, cohort);
  }

  lemma {:induction false} TieShowsInReport(prior: Prior, weight: Time -> real, a: seq<Record>, b: seq<Record>)
    requires Total(prior.dirichlet) && forall t :: weight(t) > 0.0
    requires multiset(a) == multiset(b) && Latest(a) != Latest(b)
    ensures !ReportsOrderFree(prior, weight, a)
  {
    SameElements(a, b);
    LatestExact(a);
    LatestExact(b);
    var x, y := Latest(a).value, Latest(b).value;
    HoldsLatestOfElements(y, a, b);
    var root := TablesDifferAtRoot(x, y, a);
    DifferentTablesShow(prior, weight, a, b, root);
    assert ReportsDiffer(prior, weight, a, b);
  }

  /** The report is independent of the input order, whatever it summarizes, exactly when
      the input is rejected in every order or no root has two different records tied for
      latest. */
  lemma {:induction false} ReportOrderFreeExact(prior: Prior, weight: Time -> real, a: seq<Record>)
    requires Total(prior.dirichlet) && forall t :: weight(t) > 0.0
    ensures ReportsOrderFree(prior, weight, a) <==> !Consistent(a) || NoTopTie(a)
  {
    OrderFreeExact(a);
    if OrderFree(a) {
      forall b, summary | multiset(a) == multiset(b)
        ensures Rebuilt(Policy(prior, weight, summary), b) == Rebuilt(Policy(prior, weight, summary), a)
      {
        RebuildIsOrderFree(Policy(prior, weight, summary), a, b);
      }
    } else {
      var b :| multiset(a) == multiset(b) && Latest(b) != Latest(a);
      TieShowsInReport(prior, weight, a, b);
    }
  }
}
