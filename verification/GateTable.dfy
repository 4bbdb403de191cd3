/** The active-gate table: what replacing, sorting and removing a gate keep. */
module GateTable {
  import opened Options
  import opened GateModel

  ghost predicate GatesUnique(gates: seq<Gate>) {
    forall i, j | 0 <= i < j < |gates| :: gates[i].resource != gates[j].resource
  }

  ghost predicate Holds(gates: seq<Gate>, g: Gate) {
    g in gates
  }

  ghost predicate SortedByResource(gates: seq<Gate>) {
    forall i, j | 0 <= i < j < |gates| :: gates[i].resource <= gates[j].resource
  }

  lemma {:induction false} ActiveGateCharacterized(gates: seq<Gate>, r: ResourceKey)
    ensures ActiveGate(gates, r).Some? ==>
              ActiveGate(gates, r).value in gates && ActiveGate(gates, r).value.resource == r
    ensures ActiveGate(gates, r).None? ==> forall g | g in gates :: g.resource != r
  {
    if gates != [] {
      ActiveGateCharacterized(gates[1..], r);
      assert forall g | g in gates :: g == gates[0] || g in gates[1..];
    }
  }

  /** In a table with one gate per resource, lookup and membership agree. */
  lemma {:induction false} ActiveGateIsMember(gates: seq<Gate>, g: Gate)
    requires GatesUnique(gates)
    ensures ActiveGate(gates, g.resource) == Some(g) <==> g in gates
  {
    ActiveGateCharacterized(gates, g.resource);
    if g in gates && ActiveGate(gates, g.resource).Some? {
      var found := ActiveGate(gates, g.resource).value;
      var i :| 0 <= i < |gates| && gates[i] == g;
      var j :| 0 <= j < |gates| && gates[j] == found;
      assert i == j by { assert gates[i].resource == gates[j].resource; }
    }
  }

  lemma {:induction false} InsertKeepsGates(g: Gate, s: seq<Gate>)
    requires GatesUnique(s) && SortedByResource(s)
    requires forall x | x in s :: x.resource != g.resource
    ensures GatesUnique(InsertGate(g, s)) && SortedByResource(InsertGate(g, s))
    ensures forall x :: x in InsertGate(g, s) <==> x == g || x in s
  {
    if s != [] && g.resource > s[0].resource {
      InsertKeepsGates(g, s[1..]);
      var rest := InsertGate(g, s[1..]);
      assert InsertGate(g, s) == [s[0]] + rest;
      forall i | 0 <= i < |rest| ensures rest[i].resource > s[0].resource {
        assert rest[i] in rest;
        if rest[i] != g {
          var j :| 0 <= j < |s[1..]| && s[1..][j] == rest[i];
          assert s[j + 1] == rest[i];
        }
      }
    }
  }

  lemma {:induction false} SortKeepsGates(s: seq<Gate>)
    requires GatesUnique(s)
    ensures GatesUnique(SortGates(s)) && SortedByResource(SortGates(s))
    ensures forall x :: x in SortGates(s) <==> x in s
  {
    if s != [] {
      SortKeepsGates(s[1..]);
      forall x | x in SortGates(s[1..]) ensures x.resource != s[0].resource {
        var j :| 0 <= j < |s[1..]| && s[1..][j] == x;
        assert s[j + 1] == x;
      }
      InsertKeepsGates(s[0], SortGates(s[1..]));
      assert forall x :: x in s <==> x == s[0] || x in s[1..];
    }
  }

  lemma {:induction false} ReplaceKeepsGates(s: seq<Gate>, g: Gate)
    requires GatesUnique(s)
    ensures GatesUnique(ReplaceOrAppend(s, g))
    ensures forall x :: x in ReplaceOrAppend(s, g) <==> x == g || (x in s && x.resource != g.resource)
  {
    if s != [] {
      assert forall x :: x in s <==> x == s[0] || x in s[1..];
      var rest := ReplaceOrAppend(s[1..], g);
      if s[0].resource == g.resource {
        forall x | x in s[1..] ensures x.resource != g.resource {
          var j :| 0 <= j < |s[1..]| && s[1..][j] == x;
          assert s[j + 1] == x;
        }
      } else {
        ReplaceKeepsGates(s[1..], g);
        forall i | 0 <= i < |rest| ensures rest[i].resource != s[0].resource {
          assert rest[i] in rest;
          if rest[i] != g {
            var j :| 0 <= j < |s[1..]| && s[1..][j] == rest[i];
            assert s[j + 1] == rest[i];
          }
        }
        assert ReplaceOrAppend(s, g) == [s[0]] + rest;
      }
    }
  }

  /** Setting a gate replaces that resource's gate and no other, and leaves the table sorted. */
  lemma SetGateLookup(gates: seq<Gate>, d: Decision)
    requires GatesUnique(gates)
    ensures GatesUnique(WithActive(gates, d)) && SortedByResource(WithActive(gates, d))
    ensures ActiveGate(WithActive(gates, d), d.resource) == Some(Project(d))
    ensures forall r | r != d.resource :: ActiveGate(WithActive(gates, d), r) == ActiveGate(gates, r)
    ensures forall x :: x in WithActive(gates, d) <==> x == Project(d) || (x in gates && x.resource != d.resource)
  {
    ReplaceKeepsGates(gates, Project(d));
    SortKeepsGates(ReplaceOrAppend(gates, Project(d)));
    ActiveGateIsMember(WithActive(gates, d), Project(d));
    forall r | r != d.resource ensures ActiveGate(WithActive(gates, d), r) == ActiveGate(gates, r) {
      SameLookup(gates, WithActive(gates, d), r);
    }
  }

  /** Tables holding the same gates of a resource answer its lookup alike. */
  lemma SameLookup(a: seq<Gate>, b: seq<Gate>, r: ResourceKey)
    requires GatesUnique(a) && GatesUnique(b)
    requires forall x: Gate | x.resource == r :: Holds(a, x) <==> Holds(b, x)
    ensures ActiveGate(a, r) == ActiveGate(b, r)
  {
    ActiveGateCharacterized(a, r);
    ActiveGateCharacterized(b, r);
    if ActiveGate(a, r).Some? {
      var x := ActiveGate(a, r).value;
      assert Holds(a, x);
      ActiveGateIsMember(b, x);
    } else if ActiveGate(b, r).Some? {
      assert Holds(b, ActiveGate(b, r).value);
    }
  }

  lemma {:induction false} WithoutKeepsGates(gates: seq<Gate>, g: Gate)
    requires GatesUnique(gates)
    ensures GatesUnique(WithoutGate(gates, g))
    ensures forall x :: x in WithoutGate(gates, g) <==> x in gates && x != g
  {
    if gates != [] {
      assert forall x :: x in gates <==> x == gates[0] || x in gates[1..];
      forall x | x in gates[1..] ensures x.resource != gates[0].resource {
        var j :| 0 <= j < |gates[1..]| && gates[1..][j] == x;
        assert gates[j + 1] == x;
      }
      if gates[0] != g {
        WithoutKeepsGates(gates[1..], g);
        var rest := WithoutGate(gates[1..], g);
        assert WithoutGate(gates, g) == [gates[0]] + rest;
        forall i | 0 <= i < |rest| ensures rest[i].resource != gates[0].resource {
          assert rest[i] in rest;
        }
      }
    }
  }

  /** Removing the active gate of a resource empties that slot and no other. */
  lemma RemoveGateLookup(gates: seq<Gate>, g: Gate)
    requires GatesUnique(gates) && g in gates
    ensures GatesUnique(WithoutGate(gates, g))
    ensures ActiveGate(WithoutGate(gates, g), g.resource) == None
    ensures forall r | r != g.resource :: ActiveGate(WithoutGate(gates, g), r) == ActiveGate(gates, r)
    ensures forall x :: x in WithoutGate(gates, g) <==> x in gates && x != g
  {
    WithoutKeepsGates(gates, g);
    var left := WithoutGate(gates, g);
    forall r | r != g.resource ensures ActiveGate(left, r) == ActiveGate(gates, r) {
      SameLookup(gates, left, r);
    }
    ActiveGateCharacterized(left, g.resource);
    ActiveGateIsMember(gates, g);
    if ActiveGate(left, g.resource).Some? {
      ActiveGateIsMember(gates, ActiveGate(left, g.resource).value);
    }
  }
}
