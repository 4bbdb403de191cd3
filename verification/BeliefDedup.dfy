/** Deduplication of outcome projections by root lineage, and when it does not depend
    on the order of its input. */
module BeliefDedup {
  import opened Options
  import opened IdOrder

  type Time = int

  datatype Quality = FirstPassPass | MinorFix | MajorFix | Reject | Indeterminate
  datatype Availability = Available | AuthFailure | QuotaFailure | TimedOut | ProviderOutage | Cancelled

  /** A validated projection.  Its id digests root, attempt, capture time and target;
      ids are only compared, so they are numbers.  `details` is everything else the record
      carries and a report may show: token usage, latency, and the rest of the epoch. */
  datatype Record = Record(
    projectionId: nat, root: string, attempt: nat, capturedAt: Time, cohort: string,
    first: Quality, firstAt: Time, recovery: Quality, availability: Availability, details: nat)
  {
    predicate Excluded() {
      availability != Available
    }

    predicate BetaEligible() {
      !Excluded() && first != Indeterminate
    }
  }

  type Table = map<string, Record>

  predicate Agree(a: Record, b: Record) {
    a.cohort == b.cohort && a.first == b.first && a.firstAt == b.firstAt
  }

  /** Capture time, then attempt, then projection id. */
  predicate Later(a: Record, b: Record) {
    || a.capturedAt > b.capturedAt
    || (a.capturedAt == b.capturedAt && a.attempt > b.attempt)
    || (a.capturedAt == b.capturedAt && a.attempt == b.attempt && a.projectionId > b.projectionId)
  }

  predicate Tied(a: Record, b: Record) {
    a.capturedAt == b.capturedAt && a.attempt == b.attempt && a.projectionId == b.projectionId
  }

  function Keep(latest: Table, r: Record): Option<Table> {
    if r.root !in latest then Some(latest[r.root := r])
    else if !Agree(latest[r.root], r) then None
    else if Later(r, latest[r.root]) then Some(latest[r.root := r])
    else Some(latest)
  }

  /** The latest record of every root; `None` when a root changes its first-pass
      outcome or its cohort. */
  function Latest(records: seq<Record>): Option<Table> {
    if records == [] then Some(map[])
    else match Latest(records[..|records| - 1])
      case None => None
      case Some(latest) => Keep(latest, records[|records| - 1])
  }

  predicate Consistent(records: seq<Record>) {
    forall a, b | a in records && b in records && a.root == b.root :: Agree(a, b)
  }

  /** `latest` holds one input record per root, none of that root being later. */
  ghost predicate HoldsLatest(latest: Table, records: seq<Record>) {
    && (forall r | r in records :: r.root in latest && !Later(r, latest[r.root]))
    && (forall root | root in latest :: latest[root] in records && latest[root].root == root)
  }

  lemma KeepsLatest(latest: Table, before: seq<Record>, r: Record)
    requires Consistent(before) && HoldsLatest(latest, before)
    ensures Keep(latest, r).Some? <==> Consistent(before + [r])
    ensures Keep(latest, r).Some? ==> HoldsLatest(Keep(latest, r).value, before + [r])
  {
    var after := before + [r];
    assert forall x :: x in after <==> x in before || x == r;
    if r.root in latest {
      assert latest[r.root] in after && latest[r.root].root == r.root;
    }
  }

  lemma {:induction false} LatestExact(records: seq<Record>)
    ensures Latest(records).Some? <==> Consistent(records)
    ensures Latest(records).Some? ==> HoldsLatest(Latest(records).value, records)
  {
    if records != [] {
      var before, r := records[..|records| - 1], records[|records| - 1];
      LatestExact(before);
      assert records == before + [r];
      if Latest(before).Some? {
        KeepsLatest(Latest(before).value, before, r);
      } else {
        var a, b :| a in before && b in before && a.root == b.root && !Agree(a, b);
        assert a in records && b in records;
      }
    }
  }

  /** `s` is no older than `r`: captured later, or at the same instant in a later attempt,
      or in the same attempt under an id at least as great. */
  predicate NoOlder(s: Record, r: Record) {
    && r.capturedAt <= s.capturedAt
    && (r.capturedAt == s.capturedAt ==> r.attempt <= s.attempt)
    && (r.capturedAt == s.capturedAt && r.attempt == s.attempt ==> r.projectionId <= s.projectionId)
  }

  /** The survivor of a root is one of its records, and no older than any of them. */
  lemma SurvivorIsNewest(records: seq<Record>, r: Record)
    requires Latest(records).Some? && r in records
    ensures r.root in Latest(records).value
    ensures var s := Latest(records).value[r.root]; s in records && s.root == r.root && NoOlder(s, r)
  {
    LatestExact(records);
  }

  /** Of tied records the first one read survives. */
  lemma {:induction false} FirstReadSurvives(records: seq<Record>, i: nat)
    requires Latest(records).Some? && i < |records|
    requires forall j | 0 <= j < |records| && records[j].root == records[i].root :: NoOlder(records[i], records[j])
    requires forall j | 0 <= j < i && records[j].root == records[i].root :: !NoOlder(records[j], records[i])
    ensures records[i].root in Latest(records).value && Latest(records).value[records[i].root] == records[i]
  {
    var n := |records| - 1;
    var before := records[..n];
    if i < n {
      FirstReadSurvives(before, i);
    } else {
      LatestExact(before);
      var latest := Latest(before).value;
      if records[n].root in latest {
        var s := latest[records[n].root];
        assert s in before;
        var j :| 0 <= j < n && before[j] == s;
        assert records[j] == s;
      }
    }
  }

  /** Two records of one root with different cohorts, first-pass outcomes or times of it. */
  predicate Clash(a: Record, b: Record) {
    a.root == b.root && (a.cohort != b.cohort || a.first != b.first || a.firstAt != b.firstAt)
  }

  /** Deduplication is refused exactly for a clash. */
  lemma RejectedExact(records: seq<Record>)
    ensures Latest(records).None? <==> exists a, b :: a in records && b in records && Clash(a, b)
  {
    LatestExact(records);
    forall a, b | a in records && b in records ensures Clash(a, b) <==> a.root == b.root && !Agree(a, b) {
    }
  }

  /** Two different records of one root that nothing tells apart and nothing is later
      than: the first one read would win. */
  ghost predicate TopTie(records: seq<Record>, a: Record, b: Record) {
    && a in records && b in records && a != b && a.root == b.root && Tied(a, b)
    && forall r | r in records && r.root == a.root :: !Later(r, a)
  }

  ghost predicate NoTopTie(records: seq<Record>) {
    forall a, b :: !TopTie(records, a, b)
  }

  lemma SameElements(a: seq<Record>, b: seq<Record>)
    requires multiset(a) == multiset(b)
    ensures forall r :: r in a <==> r in b
  {
    forall r ensures r in a <==> r in b {
      assert r in a <==> r in multiset(a);
      assert r in b <==> r in multiset(b);
    }
  }

  lemma HoldsLatestOfElements(latest: Table, a: seq<Record>, b: seq<Record>)
    requires HoldsLatest(latest, b) && forall r :: r in a <==> r in b
    ensures HoldsLatest(latest, a)
  {
  }

  lemma LatestTablesAgree(x: Table, y: Table, a: seq<Record>)
    requires HoldsLatest(x, a) && HoldsLatest(y, a) && NoTopTie(a)
    ensures x == y
  {
    assert forall root | root in x :: x[root] in a && root in y;
    assert forall root | root in y :: y[root] in a && root in x;
    forall root | root in x ensures x[root] == y[root] {
      assert y[root] in a && x[root] in a;
      assert !TopTie(a, x[root], y[root]);
    }
  }

  lemma SameLatest(a: seq<Record>, b: seq<Record>)
    requires multiset(a) == multiset(b) && NoTopTie(a)
    ensures Latest(a) == Latest(b)
  {
    SameElements(a, b);
    LatestExact(a);
    LatestExact(b);
    if Latest(a).Some? {
      HoldsLatestOfElements(Latest(b).value, a, b);
      LatestTablesAgree(Latest(a).value, Latest(b).value, a);
    }
  }

  ghost predicate OrderFree(a: seq<Record>) {
    forall b | multiset(a) == multiset(b) :: Latest(b) == Latest(a)
  }

  lemma {:induction false} FirstOfTieStays(x: Record, rest: seq<Record>)
    requires Latest([x] + rest).Some?
    requires forall r | r in rest && r.root == x.root :: !Later(r, x)
    ensures x.root in Latest([x] + rest).value && Latest([x] + rest).value[x.root] == x
  {
    var all := [x] + rest;
    if rest == [] {
      assert all[..0] == [];
    } else {
      assert all[..|all| - 1] == [x] + rest[..|rest| - 1];
      FirstOfTieStays(x, rest[..|rest| - 1]);
    }
  }

  /** Some order of the input puts `x` first. */
  lemma PutFirst(a: seq<Record>, x: Record) returns (rest: seq<Record>)
    requires x in a
    ensures multiset([x] + rest) == multiset(a)
  {
    var i :| 0 <= i < |a| && a[i] == x;
    rest := a[..i] + a[i + 1..];
    assert a == a[..i] + [x] + a[i + 1..];
  }

  /** In an order that puts `x` first, nothing later than `x` replaces it. */
  lemma FirstWins(a: seq<Record>, x: Record) returns (order: seq<Record>)
    requires Consistent(a) && x in a
    requires forall r | r in a && r.root == x.root :: !Later(r, x)
    ensures multiset(order) == multiset(a)
    ensures Latest(order).Some? && x.root in Latest(order).value && Latest(order).value[x.root] == x
  {
    var rest := PutFirst(a, x);
    order := [x] + rest;
    SameElements(a, order);
    LatestExact(order);
    assert forall r | r in rest :: r in order;
    FirstOfTieStays(x, rest);
  }

  lemma TieDependsOnOrder(a: seq<Record>, x: Record, y: Record)
    requires Consistent(a) && TopTie(a, x, y)
    ensures !OrderFree(a)
  {
    var first := FirstWins(a, x);
    var second := FirstWins(a, y);
    assert Latest(first) != Latest(second);
  }

  /** Deduplication is independent of the input order exactly when the input is rejected
      in every order or no root has two different records tied for latest.  Distinct
      projection ids rule such ties out. */
  lemma OrderFreeExact(a: seq<Record>)
    ensures OrderFree(a) <==> !Consistent(a) || NoTopTie(a)
  {
    LatestExact(a);
    if NoTopTie(a) {
      forall b | multiset(a) == multiset(b) ensures Latest(b) == Latest(a) { SameLatest(a, b); }
    } else if !Consistent(a) {
      forall b | multiset(a) == multiset(b) ensures Latest(b) == Latest(a) {
        SameElements(a, b);
        LatestExact(b);
      }
    } else {
      var x, y :| TopTie(a, x, y);
      TieDependsOnOrder(a, x, y);
    }
  }

  lemma DistinctIdsLeaveNoTie(a: seq<Record>)
    requires forall r, s | r in a && s in a && r != s :: r.projectionId != s.projectionId
    ensures OrderFree(a)
  {
    OrderFreeExact(a);
  }

  /** Two records that differ only in what the order ignores: whichever is read first
      stays, so the order shows. */
  lemma DetailsAreNotOrdered(a: Record, b: Record)
    requires a != b && b == a.(recovery := b.recovery, availability := b.availability, details := b.details)
    ensures !OrderFree([a, b])
  {
    assert TopTie([a, b], a, b);
    assert Consistent([a, b]);
    OrderFreeExact([a, b]);
  }

  // -------------------------------------------------------------- listing

  /** One record per root, in root order. */
  ghost predicate ListedByRoot(list: seq<Record>) {
    forall i, j | 0 <= i < j < |list| :: list[i].root != list[j].root && NotAfter(list[i].root, list[j].root)
  }

  ghost predicate Lists(list: seq<Record>, latest: Table) {
    && ListedByRoot(list)
    && (forall r :: r in list <==> r.root in latest && latest[r.root] == r)
  }

  /** A table has only one listing, so reports built from equal tables are equal. */
  lemma {:induction false} ListingIsUnique(a: seq<Record>, b: seq<Record>)
    requires ListedByRoot(a) && ListedByRoot(b) && forall r :: r in a <==> r in b
    ensures a == b
  {
    assert a == [] || a[0] in a;
    assert b == [] || b[0] in b;
    if a != [] {
      var i :| 0 <= i < |b| && b[i] == a[0];
      var j :| 0 <= j < |a| && a[j] == b[0];
      if NotAfter(a[0].root, b[0].root) && NotAfter(b[0].root, a[0].root) {
        NotAfterAntisymmetric(a[0].root, b[0].root);
      }
      assert a[0] == b[0];
      forall r ensures r in a[1..] <==> r in b[1..] {
        assert r in a <==> r == a[0] || r in a[1..];
        assert r in b <==> r == b[0] || r in b[1..];
        assert a[0] !in a[1..] && b[0] !in b[1..];
      }
      ListingIsUnique(a[1..], b[1..]);
    }
  }

  /** One pass over the records, then the surviving ones in root order. */
  method DeduplicateRootLineage(records: seq<Record>) returns (deduped: Option<seq<Record>>)
    ensures deduped.Some? <==> Consistent(records)
    ensures deduped.Some? ==> Latest(records).Some? && Lists(deduped.value, Latest(records).value)
    ensures deduped.Some? ==>
              forall r | r in records :: exists s :: s in deduped.value && s.root == r.root && NoOlder(s, r)
  {
    var latest: Table := map[];
    for i := 0 to |records|
      invariant Latest(records[..i]) == Some(latest)
    {
      assert records[..i + 1][..i] == records[..i];
      var r := records[i];
      if r.root in latest && !Agree(latest[r.root], r) {
        RejectedPrefix(records, i + 1);
        return None;
      }
      if r.root !in latest || Later(r, latest[r.root]) { latest := latest[r.root := r]; }
    }
    assert records[..|records|] == records;
    LatestExact(records);
    var list := ListByRoot(latest);
    forall r | r in records ensures exists s :: s in list && s.root == r.root && NoOlder(s, r) {
      SurvivorIsNewest(records, r);
      assert latest[r.root] in list;
    }
    deduped := Some(list);
  }

  lemma {:induction false} RejectedPrefix(records: seq<Record>, k: nat)
    requires k <= |records| && Latest(records[..k]).None?
    ensures !Consistent(records)
  {
    LatestExact(records[..k]);
    var a, b :| a in records[..k] && b in records[..k] && a.root == b.root && !Agree(a, b);
    assert a in records && b in records;
  }

  lemma ListedInOrder(latest: Table, roots: seq<string>, list: seq<Record>)
    requires Sorted(roots) && Distinct(roots) && forall x :: x in roots <==> x in latest
    requires forall root | root in latest :: latest[root].root == root
    requires |list| == |roots| && forall j | 0 <= j < |list| :: roots[j] in latest && list[j] == latest[roots[j]]
    ensures Lists(list, latest)
  {
    forall r ensures r in list <==> r.root in latest && latest[r.root] == r {
      if r.root in latest && latest[r.root] == r {
        assert r.root in roots;
        var j :| 0 <= j < |roots| && roots[j] == r.root;
        assert list[j] == r;
      }
    }
  }

  method ListByRoot(latest: Table) returns (list: seq<Record>)
    requires forall root | root in latest :: latest[root].root == root
    ensures Lists(list, latest)
  {
    var roots := SortIds(latest.Keys);
    list := [];
    for i := 0 to |roots|
      invariant |list| == i
      invariant forall j | 0 <= j < i :: roots[j] in latest && list[j] == latest[roots[j]]
    {
      assert roots[i] in roots;
      list := list + [latest[roots[i]]];
    }
    ListedInOrder(latest, roots, list);
  }
}
