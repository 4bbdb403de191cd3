/** Sorting of identifier sets: strings by code point, as the language's own sort does. */
module IdOrder {
  predicate NotAfter(a: string, b: string) {
    a == [] || (b != [] && (a[0] < b[0] || (a[0] == b[0] && NotAfter(a[1..], b[1..]))))
  }

  lemma {:induction false} NotAfterTotal(a: string, b: string)
    ensures NotAfter(a, b) || NotAfter(b, a)
  {
    if a != [] && b != [] && a[0] == b[0] { NotAfterTotal(a[1..], b[1..]); }
  }

  lemma {:induction false} NotAfterTransitive(a: string, b: string, c: string)
    requires NotAfter(a, b) && NotAfter(b, c)
    ensures NotAfter(a, c)
  {
    if a != [] && a[0] == b[0] && b[0] == c[0] { NotAfterTransitive(a[1..], b[1..], c[1..]); }
  }

  lemma {:induction false} NotAfterAntisymmetric(a: string, b: string)
    requires NotAfter(a, b) && NotAfter(b, a)
    ensures a == b
  {
    if a != [] && b != [] { NotAfterAntisymmetric(a[1..], b[1..]); }
  }

  ghost predicate Sorted(ids: seq<string>) {
    forall i, j | 0 <= i < j < |ids| :: NotAfter(ids[i], ids[j])
  }

  predicate Distinct(ids: seq<string>) {
    forall i, j | 0 <= i < j < |ids| :: ids[i] != ids[j]
  }

  lemma {:induction false} LeastExists(ids: set<string>) returns (least: string)
    requires ids != {}
    ensures least in ids && forall x | x in ids :: NotAfter(least, x)
  {
    var x :| x in ids;
    NotAfterTotal(x, x);
    if ids == {x} { return x; }
    var rest := ids - {x};
    assert ids == {x} + rest;
    least := LeastExists(rest);
    NotAfterTotal(x, least);
    if NotAfter(x, least) {
      forall y | y in ids ensures NotAfter(x, y) { if y != x { NotAfterTransitive(x, least, y); } }
      least := x;
    }
  }

  /** The elements of a set, each once, in order. */
  ghost function InOrder(ids: set<string>): (r: seq<string>)
    ensures Sorted(r) && Distinct(r)
    ensures forall x :: x in r <==> x in ids
  {
    if ids == {} then []
    else
      assert exists x :: x in ids && forall y | y in ids :: NotAfter(x, y) by { var x := LeastExists(ids); }
      var least :| least in ids && forall y | y in ids :: NotAfter(least, y);
      [least] + InOrder(ids - {least})
  }

  /** No other sequence lists the same elements once and in order. */
  lemma {:induction false} OrderIsUnique(a: seq<string>, b: seq<string>)
    requires Sorted(a) && Distinct(a) && Sorted(b) && Distinct(b) && forall x :: x in a <==> x in b
    ensures a == b
  {
    assert a == [] || a[0] in a;
    assert b == [] || b[0] in b;
    if a != [] {
      assert a[0] in b && b[0] in a;
      NotAfterTotal(a[0], a[0]);
      NotAfterAntisymmetric(a[0], b[0]);
      forall x ensures x in a[1..] <==> x in b[1..] {
        assert x in a <==> x == a[0] || x in a[1..];
        assert x in b <==> x == b[0] || x in b[1..];
      }
      OrderIsUnique(a[1..], b[1..]);
    }
  }

  method Smallest(ids: set<string>) returns (least: string)
    requires ids != {}
    ensures least in ids && forall x | x in ids :: NotAfter(least, x)
  {
    least :| least in ids;
    NotAfterTotal(least, least);
    var rest := ids - {least};
    while rest != {}
      invariant rest <= ids && least in ids
      invariant forall x | x in ids && x !in rest :: NotAfter(least, x)
    {
      var x :| x in rest;
      NotAfterTotal(least, x);
      if !NotAfter(least, x) {
        forall y | y in ids && y !in rest ensures NotAfter(x, y) { NotAfterTransitive(x, least, y); }
        NotAfterTotal(x, x);
        least := x;
      }
      rest := rest - {x};
    }
  }

  /** The elements of a set, each once, in order. */
  method SortIds(ids: set<string>) returns (r: seq<string>)
    ensures Sorted(r) && Distinct(r)
    ensures forall x :: x in r <==> x in ids
  {
    r := [];
    var rest := ids;
    while rest != {}
      invariant rest <= ids && Sorted(r) && Distinct(r)
      invariant forall x :: x in r <==> x in ids && x !in rest
      invariant forall x, y | x in r && y in rest :: NotAfter(x, y)
      decreases rest
    {
      var x := Smallest(rest);
      r := r + [x];
      rest := rest - {x};
    }
  }
}
