/** The target-ordering simulation: at most one eligible target moves to the front. */
module TargetOrdering {
  import opened Options
  import opened IdOrder

  function Without(order: seq<string>, t: string): seq<string> {
    if order == [] then []
    else if order[0] == t then Without(order[1..], t)
    else [order[0]] + Without(order[1..], t)
  }

  function MoveToFront(order: seq<string>, t: string): seq<string> {
    [t] + Without(order, t)
  }

  datatype OrderingDecision = FailClosed | KeepBaseline | SelectAlternative

  datatype OrderingReport = OrderingReport(
    decision: OrderingDecision,
    baselineTarget: string, baselineOrder: seq<string>,
    counterfactualTarget: string, counterfactualOrder: seq<string>)

  predicate SameTargets(a: seq<string>, b: seq<string>) {
    (forall x | x in a :: x in b) && (forall x | x in b :: x in a)
  }

  /** The order checks of the report validator. */
  predicate OrderingAccepted(r: OrderingReport) {
    && r.baselineOrder != [] && Distinct(r.baselineOrder)
    && r.counterfactualOrder != [] && Distinct(r.counterfactualOrder)
    && SameTargets(r.baselineOrder, r.counterfactualOrder)
    && r.baselineTarget == r.baselineOrder[0] && r.counterfactualTarget == r.counterfactualOrder[0]
    && (r.decision != SelectAlternative ==>
          r.counterfactualTarget == r.baselineTarget && r.counterfactualOrder == r.baselineOrder)
    && (r.decision == SelectAlternative ==>
          && r.counterfactualTarget != r.baselineTarget && r.counterfactualOrder != r.baselineOrder
          && r.counterfactualOrder == MoveToFront(r.baselineOrder, r.counterfactualTarget))
  }

  lemma {:induction false} WithoutKeepsOthers(order: seq<string>, t: string)
    requires Distinct(order)
    ensures Distinct(Without(order, t)) && t !in Without(order, t)
    ensures forall x :: x in Without(order, t) <==> x in order && x != t
    ensures t in order ==> |Without(order, t)| == |order| - 1
    ensures t !in order ==> Without(order, t) == order
  {
    if order != [] {
      assert forall x :: x in order <==> x == order[0] || x in order[1..];
      WithoutKeepsOthers(order[1..], t);
      assert order[0] !in order[1..];
    }
  }

  /** Moving an eligible target to the front permutes the order. */
  lemma MoveToFrontPermutes(order: seq<string>, t: string)
    requires Distinct(order) && t in order
    ensures Distinct(MoveToFront(order, t)) && |MoveToFront(order, t)| == |order|
    ensures SameTargets(order, MoveToFront(order, t))
    ensures MoveToFront(order, t)[0] == t
  {
    WithoutKeepsOthers(order, t);
  }

  function PositionIn(order: seq<string>, x: string): (i: nat)
    requires x in order
    ensures i < |order| && order[i] == x
  {
    if order[0] == x then 0 else 1 + PositionIn(order[1..], x)
  }

  /** ...and leaves every other pair of targets in the order it had. */
  lemma {:induction false} OthersKeepOrder(order: seq<string>, t: string, i: nat, j: nat)
    requires Distinct(order) && i < j < |order| && order[i] != t && order[j] != t
    ensures order[i] in Without(order, t) && order[j] in Without(order, t)
    ensures PositionIn(Without(order, t), order[i]) < PositionIn(Without(order, t), order[j])
  {
    var rest := order[1..];
    WithoutKeepsOthers(order, t);
    WithoutKeepsOthers(rest, t);
    if i > 0 {
      assert order[i] == rest[i - 1] && order[j] == rest[j - 1];
      OthersKeepOrder(rest, t, i - 1, j - 1);
    }
  }

  /** A report passes the order checks exactly when it keeps the baseline order and target,
      or moves one other target of it to the front. */
  lemma AcceptedExact(r: OrderingReport)
    ensures OrderingAccepted(r) <==>
              && r.baselineOrder != [] && Distinct(r.baselineOrder) && r.baselineTarget == r.baselineOrder[0]
              && if r.decision == SelectAlternative then
                   && r.counterfactualTarget in r.baselineOrder[1..]
                   && r.counterfactualOrder
                      == [r.counterfactualTarget] + Without(r.baselineOrder, r.counterfactualTarget)
                 else r.counterfactualTarget == r.baselineOrder[0] && r.counterfactualOrder == r.baselineOrder
  {
    if r.baselineOrder != [] && Distinct(r.baselineOrder) {
      assert forall x :: x in r.baselineOrder <==> x == r.baselineOrder[0] || x in r.baselineOrder[1..];
      if r.counterfactualTarget in r.baselineOrder { MoveToFrontPermutes(r.baselineOrder, r.counterfactualTarget); }
      if OrderingAccepted(r) { assert r.counterfactualOrder[0] in r.counterfactualOrder; }
    }
  }

  /** Builds the ordering part of a report; it always passes the order checks, and an
      alternative is chosen only for a passing gate, no pinned resume target and an
      eligible recommendation other than the baseline. */
  method BuildOrdering(gatesPass: bool, resume: Option<string>, recommended: Option<string>, order: seq<string>)
    returns (r: OrderingReport)
    requires order != [] && Distinct(order)
    ensures OrderingAccepted(r) && r.baselineOrder == order
    ensures r.decision == SelectAlternative <==>
              && gatesPass && resume.None?
              && recommended.Some? && recommended.value in order && recommended.value != order[0]
    ensures r.decision == SelectAlternative ==> r.counterfactualTarget == recommended.value
    ensures r.decision == KeepBaseline <==>
              gatesPass && (resume == Some(order[0]) || (resume.None? && recommended == Some(order[0])))
  {
    var decision := FailClosed;
    var target, counterfactual := order[0], order;
    if gatesPass {
      if resume.Some? {
        if resume.value == order[0] { decision := KeepBaseline; }
      } else if recommended.Some? && recommended.value in order {
        if recommended.value == order[0] {
          decision := KeepBaseline;
        } else {
          decision := SelectAlternative;
          target := recommended.value;
          MoveToFrontPermutes(order, target);
          counterfactual := MoveToFront(order, target);
        }
      }
    }
    r := OrderingReport(decision, order[0], order, target, counterfactual);
  }
}
