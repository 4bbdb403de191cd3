/** What the dry run and the application do to one task's dependencies, read off the
    fields of the operation. */
module PlanDependencies {
  import opened Options
  import opened IdOrder
  import opened DependencyGraph
  import opened PlanModel
  import opened PlanCycles

  /** The entry is the id, or a list that has it. */
  predicate Gives(raw: Raw, id: string) {
    raw == Single(Text(id)) || (raw.Many? && Text(id) in raw.items)
  }

  predicate SomeGives(raws: seq<Raw>, id: string) {
    exists i | 0 <= i < |raws| :: Gives(raws[i], id)
  }

  /** Some add field, of `fields` or of the top level, gives the id. */
  predicate AsksToAdd(op: Operation, id: string) {
    (op.fields.Object? && SomeGives(op.fields.source.add, id)) || SomeGives(op.top.add, id)
  }

  predicate AsksToRemove(op: Operation, id: string) {
    (op.fields.Object? && SomeGives(op.fields.source.remove, id)) || SomeGives(op.top.remove, id)
  }

  /** `fields.depends_on` is a list, which replaces; failing that, the top level's is. */
  predicate Replaces(op: Operation, items: seq<Item>) {
    if op.fields.Object? && op.fields.source.dependsOn.Many? then op.fields.source.dependsOn.items == items
    else op.top.dependsOn == Many(items)
  }

  /** The id is a dependency after a change of dependencies that met the `current` ones. */
  ghost predicate Remains(op: Operation, current: set<string>, id: string) {
    && !AsksToRemove(op, id)
    && (|| AsksToAdd(op, id)
        || (exists items :: Replaces(op, items) && Text(id) in items)
        || ((forall items :: !Replaces(op, items)) && id in current))
  }

  lemma {:induction false} ValuesGiven(raws: seq<Raw>, id: string)
    requires id != ""
    ensures id in AllValues(raws) <==> SomeGives(raws, id)
  {
    if raws != [] {
      ValuesGiven(raws[1..], id);
      assert id in Values(raws[0]) <==> Gives(raws[0], id) by {
        if raws[0].Single? { assert [raws[0].item][0] == raws[0].item; }
      }
      if SomeGives(raws[1..], id) {
        var i :| 0 <= i < |raws[1..]| && Gives(raws[1..][i], id);
        assert Gives(raws[i + 1], id);
      }
      if SomeGives(raws, id) && !Gives(raws[0], id) {
        var i :| 0 <= i < |raws| && Gives(raws[i], id);
        assert Gives(raws[1..][i - 1], id);
      }
    }
  }

  lemma ReplacementGiven(op: Operation, id: string)
    requires id != ""
    ensures Replacement(op).None? <==> forall items :: !Replaces(op, items)
    ensures Replacement(op).Some? ==>
              (id in Replacement(op).value <==> exists items :: Replaces(op, items) && Text(id) in items)
  {
    if op.fields.Object? && op.fields.source.dependsOn.Many? {
      assert Replaces(op, op.fields.source.dependsOn.items);
    } else if op.top.dependsOn.Many? {
      assert Replaces(op, op.top.dependsOn.items);
    }
  }

  /** Exactly the ids that remain are dependencies afterwards. */
  lemma MutateMeans(current: set<string>, op: Operation, id: string)
    requires id != ""
    ensures id in Mutate(current, op) <==> Remains(op, current, id)
  {
    ReplacementGiven(op, id);
    ValuesGiven(op.top.add, id);
    ValuesGiven(op.top.remove, id);
    if op.fields.Object? {
      ValuesGiven(op.fields.source.add, id);
      ValuesGiven(op.fields.source.remove, id);
    }
  }

  // -------------------------------------------------------------- applying

  /** What the field update of an operation makes of a list: untouched without the field,
      empty for anything but a list, otherwise the list with every entry as a string. */
  ghost predicate Updated(op: Operation, before: seq<Item>, after: seq<Item>) {
    if !op.fields.Object? || op.fields.source.dependsOn.Missing? then after == before
    else if op.fields.source.dependsOn.Single? then after == []
    else
      var items := op.fields.source.dependsOn.items;
      && |after| == |items|
      && forall i | 0 <= i < |after| ::
           after[i] == if items[i].Text? then items[i] else Text(items[i].rendered)
  }

  /** The list of a target after any operation. */
  ghost predicate LeftOn(op: Operation, before: seq<Item>, after: seq<Item>) {
    if op.kind == DependencyChanges then
      && (forall i | 0 <= i < |after| :: after[i].Text? && after[i].s != "")
      && (forall i, j | 0 <= i < j < |after| :: after[i] != after[j] && NotAfter(after[i].s, after[j].s))
      && forall updated, id | Updated(op, before, updated) && id != "" ::
           Text(id) in after <==> Remains(op, Names(updated), id)
    else Updated(op, before, after)
  }

  lemma UpdateMeans(op: Operation, before: seq<Item>, after: seq<Item>)
    ensures Updated(op, before, after) <==> after == FieldUpdate(before, op)
  {
  }

  lemma {:induction false} NoEmptyValue(raws: seq<Raw>)
    ensures "" !in AllValues(raws)
  {
    if raws != [] { NoEmptyValue(raws[1..]); }
  }

  lemma MutateKeepsNonEmpty(current: set<string>, op: Operation)
    requires "" !in current
    ensures "" !in Mutate(current, op)
  {
    if op.fields.Object? { NoEmptyValue(op.fields.source.add); }
    NoEmptyValue(op.top.add);
  }

  /** The specified list is the one written. */
  lemma AppliedMeans(op: Operation, before: seq<Item>, after: seq<Item>)
    requires AppliedList(before, after, op)
    ensures LeftOn(op, before, after)
  {
    UpdateMeans(op, before, FieldUpdate(before, op));
    if op.kind == DependencyChanges {
      var current := Names(FieldUpdate(before, op));
      MutateKeepsNonEmpty(current, op);
      forall updated, id | Updated(op, before, updated) && id != ""
        ensures Text(id) in after <==> Remains(op, Names(updated), id)
      {
        UpdateMeans(op, before, updated);
        MutateMeans(current, op, id);
        assert Text(id) in after <==> id in Names(after);
      }
    }
  }

  // ------------------------------------------------------------ simulating

  /** The simulated targets: the tasks a change of dependencies names. */
  predicate Touched(tasks: Tasks, op: Operation, node: string) {
    op.kind == DependencyChanges && node in op.targets && node in tasks
  }

  /** The dry run changes exactly the touched nodes, in the same way, and finds fault
      exactly with a touched node that depends on itself. */
  lemma SimulatedMeans(tasks: Tasks, s: Sim, op: Operation)
    requires tasks.Keys <= s.graph.Keys
    ensures var after := SimTargets(tasks, s, op);
            && after.graph.Keys == s.graph.Keys && after.created == s.created
            && (forall node | node in s.graph && !Touched(tasks, op, node) :: after.graph[node] == s.graph[node])
            && (forall node, id | node in s.graph && Touched(tasks, op, node) && id != "" ::
                  id in after.graph[node] <==> Remains(op, s.graph[node], id))
            && (after.ok <==> s.ok && forall node | Touched(tasks, op, node) :: node !in after.graph[node])
  {
    forall node, id | node in s.graph && Touched(tasks, op, node) && id != ""
      ensures id in SimTargets(tasks, s, op).graph[node] <==> Remains(op, s.graph[node], id)
    {
      MutateMeans(s.graph[node], op, id);
    }
  }

  // -------------------------------------------------------------- accepting

  /** The operation mentions the id as a dependency or a reference. */
  predicate Mentions(op: Operation, id: string) {
    || id in op.references
    || (id != ""
        && (|| AsksToAdd(op, id) || AsksToRemove(op, id)
            || (exists i | 0 <= i < |op.creates| :: Text(id) in op.creates[i].dependsOn)
            || (if op.fields.Object? && op.fields.source.dependsOn.Many?
                then Text(id) in op.fields.source.dependsOn.items
                else op.top.dependsOn.Many? && Text(id) in op.top.dependsOn.items)))
  }

  lemma NamesHold(items: seq<Item>, id: string)
    ensures id in Names(items) <==> id != "" && Text(id) in items
  {
  }

  lemma MentionsExact(op: Operation, id: string)
    ensures id in ReferencedIds(op) <==> Mentions(op, id)
  {
    forall i | 0 <= i < |op.creates|
      ensures id in Names(op.creates[i].dependsOn) <==> id != "" && Text(id) in op.creates[i].dependsOn
    {
      NamesHold(op.creates[i].dependsOn, id);
    }
    if id == "" {
      NoEmptyMention(op);
    } else {
      ValuesGiven(op.top.add, id);
      ValuesGiven(op.top.remove, id);
      if op.fields.Object? {
        ValuesGiven(op.fields.source.add, id);
        ValuesGiven(op.fields.source.remove, id);
      }
    }
  }

  lemma NoEmptyMention(op: Operation)
    ensures "" !in Added(op) && "" !in Removed(op)
  {
    NoEmptyValue(op.top.add);
    NoEmptyValue(op.top.remove);
    if op.fields.Object? {
      NoEmptyValue(op.fields.source.add);
      NoEmptyValue(op.fields.source.remove);
    }
  }

  /** Nothing else is at fault, the targets are there, and every id mentioned is a task or
      was created before. */
  ghost predicate ChecksPass(tasks: Tasks, created: set<string>, op: Operation) {
    && !op.otherFault
    && (op.targets == {} ==> op.kind == CreateFollowup)
    && (forall id | id in op.targets :: id in tasks)
    && (forall id | Mentions(op, id) :: id in tasks || id in created)
  }

  /** The drafts have new, distinct ids and do not depend on themselves. */
  predicate DraftsAreNew(tasks: Tasks, created: set<string>, drafts: seq<Draft>) {
    && (forall i | 0 <= i < |drafts| ::
          var d := drafts[i];
          d.id != "" && d.id !in tasks && d.id !in created && Text(d.id) !in d.dependsOn)
    && (forall i, j | 0 <= i < j < |drafts| :: drafts[i].id != drafts[j].id)
  }

  lemma ChecksExact(tasks: Tasks, created: set<string>, op: Operation)
    ensures OpAcceptable(tasks, created, op) <==> ChecksPass(tasks, created, op)
  {
    forall id ensures id in ReferencedIds(op) <==> Mentions(op, id) { MentionsExact(op, id); }
  }

  lemma DraftsExact(tasks: Tasks, created: set<string>, drafts: seq<Draft>)
    ensures DraftsOk(tasks, created, drafts) <==> DraftsAreNew(tasks, created, drafts)
  {
    forall i | 0 <= i < |drafts| && drafts[i].id != ""
      ensures drafts[i].id in Names(drafts[i].dependsOn) <==> Text(drafts[i].id) in drafts[i].dependsOn
    {
      NamesHold(drafts[i].dependsOn, drafts[i].id);
    }
  }

  lemma TouchedExact(tasks: Tasks, s: Sim, op: Operation)
    requires tasks.Keys <= s.graph.Keys && "" !in tasks
    ensures SimTargets(tasks, s, op).ok <==>
              s.ok && forall node | node in tasks && Touched(tasks, op, node) :: !Remains(op, s.graph[node], node)
    ensures SimTargets(tasks, s, op).created == s.created
  {
    SimulatedMeans(tasks, s, op);
  }

  /** The dry run finds no fault with one more operation exactly when it found none before,
      the checks pass, no touched node comes to depend on itself, and the drafts are new. */
  lemma OperationPassesExactly(tasks: Tasks, s: Sim, op: Operation)
    requires tasks.Keys <= s.graph.Keys && "" !in tasks
    ensures SimOp(tasks, s, op).ok <==>
              && s.ok && ChecksPass(tasks, s.created, op)
              && (forall node | node in tasks && Touched(tasks, op, node) :: !Remains(op, s.graph[node], node))
              && DraftsAreNew(tasks, s.created, op.creates)
  {
    var checked := s.(ok := s.ok && OpAcceptable(tasks, s.created, op));
    ChecksExact(tasks, s.created, op);
    TouchedExact(tasks, checked, op);
    DraftsPass(tasks, SimTargets(tasks, checked, op), op.creates);
    DraftsExact(tasks, s.created, op.creates);
  }

  lemma ExtraExact(src: Source)
    ensures HasExtra(src) <==> exists raw :: (raw in src.add || raw in src.remove) && raw != Missing
  {
    if i :| 0 <= i < |src.add| && src.add[i] != Missing { assert src.add[i] in src.add; }
    if i :| 0 <= i < |src.remove| && src.remove[i] != Missing { assert src.remove[i] in src.remove; }
  }

  /** Applying refuses exactly: fields that are no object or hold something else, add or
      remove entries of `fields` outside a change of dependencies, operations that create,
      and a replan or note without fields. */
  lemma UnsupportedExact(op: Operation)
    ensures !ApplySupported(op) <==>
              || op.fields.NotAnObject?
              || (op.fields.Object? && op.fields.otherUnsupported)
              || (op.fields.Object? && op.kind != DependencyChanges
                  && exists raw :: (raw in op.fields.source.add || raw in op.fields.source.remove) && raw != Missing)
              || op.kind == Split || op.kind == Merge || op.kind == CreateFollowup
              || (op.fields.NoFields? && (op.kind == Replan || op.kind == AppendNote))
  {
    if op.fields.Object? { ExtraExact(op.fields.source); }
  }
}
