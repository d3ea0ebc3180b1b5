/** Which rules a found literal wakes. */
module Waking {
  import opened Base
  import opened Rules
  import opened Compiled

  /** A literal's number in its group. */
  function Global(sources: seq<Source>, atom: Atom): nat
    requires atom.0 < |sources|
  {
    sources[atom.0].first + atom.1
  }

  /** The sources' literals are numbered one source after the other. */
  ghost predicate Numbered(sources: seq<Source>, total: nat) {
    && (forall s :: 0 <= s < |sources| ==> sources[s].first + |sources[s].literals| <= total)
    && (forall s, t :: 0 <= s < t < |sources| ==> sources[s].first + |sources[s].literals| <= sources[t].first)
  }

  /** No two literals have one number. */
  lemma GlobalIsInjective(sources: seq<Source>, total: nat, a: Atom, b: Atom)
    requires Numbered(sources, total) && SourceHas(sources, a) && SourceHas(sources, b)
    requires Global(sources, a) == Global(sources, b)
    ensures a == b
  {
  }

  ghost predicate AtomsInRange(sources: seq<Source>, atoms: seq<Atom>) {
    forall k :: 0 <= k < |atoms| ==> SourceHas(sources, atoms[k])
  }

  lemma {:induction false} TriggerInRange(w: World, sources: seq<Source>, predicates: seq<Pred>, node: Node)
    requires TableOk(w, sources, predicates) && Trigger(sources, predicates, node).Some?
    ensures AtomsInRange(sources, Trigger(sources, predicates, node).value)
    decreases node, 0
  {
    match node
    case Test_(index) =>
      assert PredOk(w, sources, predicates[index]);
    case All(operands) =>
      var k := SomeTriggersComeFrom(sources, predicates, operands, Trigger(sources, predicates, node).value);
      TriggerInRange(w, sources, predicates, operands[k]);
    case Any(operands) =>
      EveryTriggerInRange(w, sources, predicates, operands);
      var every, trigger := EveryTrigger(sources, predicates, operands).value, Trigger(sources, predicates, node).value;
      SetForgetsOrder(every);
      forall k | 0 <= k < |trigger| ensures SourceHas(sources, trigger[k]) {
        assert trigger[k] in trigger && trigger[k] in every;
      }
  }

  lemma {:induction false} EveryTriggerInRange(
      w: World, sources: seq<Source>, predicates: seq<Pred>, operands: seq<Node>)
    requires TableOk(w, sources, predicates) && EveryTrigger(sources, predicates, operands).Some?
    ensures AtomsInRange(sources, EveryTrigger(sources, predicates, operands).value)
    decreases operands, 0
  {
    if operands != [] {
      TriggerInRange(w, sources, predicates, operands[0]);
      EveryTriggerInRange(w, sources, predicates, operands[1..]);
    }
  }

  /** The numbers a rule waits for. */
  ghost predicate Awaits(sources: seq<Source>, atoms: seq<Atom>, number: nat) {
    exists k :: 0 <= k < |atoms| && atoms[k].0 < |sources| && Global(sources, atoms[k]) == number
  }

  /** A rule is woken by exactly the literals of its trigger, or if it has
      none, by every event. */
  ghost predicate WokenBy(
    sources: seq<Source>, triggers: seq<seq<nat>>, untriggered: seq<nat>, position: nat, trigger: Option<seq<Atom>>) {
    && (position in untriggered <==> trigger.None?)
    && forall x :: 0 <= x < |triggers| ==>
         (position in triggers[x] <==> trigger.Some? && Awaits(sources, trigger.value, x))
  }

  /** Enters `position` under each literal of its trigger. */
  method Enter(sources: seq<Source>, triggers: seq<seq<nat>>, position: nat, atoms: seq<Atom>)
    returns (entered: seq<seq<nat>>)
    requires Numbered(sources, |triggers|) && AtomsInRange(sources, atoms)
    requires forall x :: 0 <= x < |triggers| ==> position !in triggers[x]
    ensures |entered| == |triggers|
    ensures forall x :: 0 <= x < |triggers| ==> (position in entered[x] <==> Awaits(sources, atoms, x))
    ensures forall x, p :: 0 <= x < |triggers| && p != position ==> (p in entered[x] <==> p in triggers[x])
  {
    entered := triggers;
    for k := 0 to |atoms|
      invariant |entered| == |triggers|
      invariant forall x :: 0 <= x < |triggers| ==> (position in entered[x] <==> Awaits(sources, atoms[..k], x))
      invariant forall x, p :: 0 <= x < |triggers| && p != position ==> (p in entered[x] <==> p in triggers[x])
    {
      assert SourceHas(sources, atoms[k]);
      var number := Global(sources, atoms[k]);
      entered := entered[number := entered[number] + [position]];
      assert atoms[..k + 1] == atoms[..k] + [atoms[k]];
      forall x | 0 <= x < |triggers|
        ensures Awaits(sources, atoms[..k + 1], x) <==> Awaits(sources, atoms[..k], x) || x == number
      {
        if x == number { assert atoms[..k + 1][k] == atoms[k]; }
        if Awaits(sources, atoms[..k], x) {
          var j :| 0 <= j < k && atoms[..k][j].0 < |sources| && Global(sources, atoms[..k][j]) == x;
          assert atoms[..k + 1][j] == atoms[..k][j];
        }
      }
    }
    assert atoms[..|atoms|] == atoms;
  }

  /** What wakes each rule: its trigger's literals, or every event. */
  method WakeLists(ghost w: World, sources: seq<Source>, predicates: seq<Pred>, nodes: seq<(nat, Node)>, total: nat)
    returns (triggers: seq<seq<nat>>, untriggered: seq<nat>)
    requires TableOk(w, sources, predicates) && Numbered(sources, total)
    ensures |triggers| == total
    ensures forall p :: 0 <= p < |nodes| ==>
            WokenBy(sources, triggers, untriggered, p, Trigger(sources, predicates, nodes[p].1))
    ensures forall p :: p in untriggered ==> p < |nodes|
    ensures forall x, p :: 0 <= x < total && p in triggers[x] ==> p < |nodes|
  {
    triggers, untriggered := seq(total, _ => []), [];
    for position := 0 to |nodes|
      invariant |triggers| == total
      invariant forall p :: 0 <= p < position ==>
        WokenBy(sources, triggers, untriggered, p, Trigger(sources, predicates, nodes[p].1))
      invariant forall p :: p in untriggered ==> p < position
      invariant forall x, p :: 0 <= x < total && p in triggers[x] ==> p < position
    {
      var trigger := Trigger(sources, predicates, nodes[position].1);
      if trigger.Some? {
        TriggerInRange(w, sources, predicates, nodes[position].1);
        ghost var before := triggers;
        triggers := Enter(sources, triggers, position, trigger.value);
        forall p | 0 <= p < position
          ensures WokenBy(sources, triggers, untriggered, p, Trigger(sources, predicates, nodes[p].1))
        {
          assert WokenBy(sources, before, untriggered, p, Trigger(sources, predicates, nodes[p].1));
        }
      } else {
        untriggered := untriggered + [position];
      }
    }
  }
}
