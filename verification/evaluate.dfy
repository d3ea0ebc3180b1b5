/** One group's evaluation of an event: only rules that can hold are asked, and
    each test at most once. */
module Evaluation {
  import opened Base
  import opened Text
  import opened Glob
  import opened Events
  import opened Rules
  import opened Compiled
  import opened Waking
  import opened Hits
  import opened Scratches
  import opened Scanning
  import opened Building

  // -------------------------------------------------------------- candidates

  /** The candidates are the rules marked with this generation, each once. */
  ghost predicate CandidatesListed(work: GroupScratch)
    reads work
  {
    && NoDuplicates(work.candidates)
    && (forall p :: p in work.candidates ==> p < |work.candidate|)
    && (forall p :: 0 <= p < |work.candidate| ==>
          work.candidate[p] <= work.generation && (work.candidate[p] == work.generation <==> p in work.candidates))
  }

  method AddCandidates(positions: seq<nat>, work: GroupScratch)
    requires CandidatesListed(work) && forall p :: p in positions ==> p < |work.candidate|
    modifies work`candidate, work`candidates
    ensures CandidatesListed(work) && |work.candidate| == old(|work.candidate|)
    ensures forall p :: p in work.candidates <==> p in old(work.candidates) || p in positions
  {
    for k := 0 to |positions|
      invariant CandidatesListed(work) && |work.candidate| == old(|work.candidate|)
      invariant forall p :: p in work.candidates <==> p in old(work.candidates) || p in positions[..k]
    {
      var position := positions[k];
      assert position in positions;
      if work.candidate[position] != work.generation {
        work.candidate := work.candidate[position := work.generation];
        work.candidates := work.candidates + [position];
      }
      assert positions[..k + 1] == positions[..k] + [position];
    }
    assert positions[..|positions|] == positions;
  }

  /** A rule a found literal wakes. */
  ghost predicate Woken(triggers: seq<seq<nat>>, found: seq<nat>, position: nat) {
    exists f :: 0 <= f < |found| && found[f] < |triggers| && position in triggers[found[f]]
  }

  /** The rules worth asking about: by `HoldingIsCandidate` every other one is
      false. */
  method ChooseCandidates(g: Group, work: GroupScratch)
    requires |work.candidate| == |g.rules| && forall p :: 0 <= p < |work.candidate| ==>
             work.candidate[p] < work.generation
    requires forall f :: f in work.found ==> f < |g.triggers|
    requires forall p :: p in g.untriggered ==> p < |g.rules|
    requires forall x, p :: 0 <= x < |g.triggers| && p in g.triggers[x] ==> p < |g.rules|
    modifies work`candidate, work`candidates
    ensures CandidatesListed(work) && |work.candidate| == |g.rules|
    ensures forall p :: p in work.candidates <==> p in g.untriggered || Woken(g.triggers, work.found, p)
  {
    work.candidates := [];
    AddCandidates(g.untriggered, work);
    for f := 0 to |work.found|
      invariant CandidatesListed(work) && |work.candidate| == |g.rules|
      invariant forall p :: p in work.candidates <==> p in g.untriggered || Woken(g.triggers, work.found[..f], p)
    {
      var literal := work.found[f];
      assert literal in work.found;
      AddCandidates(g.triggers[literal], work);
      forall p ensures Woken(g.triggers, work.found[..f + 1], p) <==>
                       Woken(g.triggers, work.found[..f], p) || p in g.triggers[literal]
      {
        assert work.found[..f + 1] == work.found[..f] + [literal];
        if p in g.triggers[literal] { assert work.found[..f + 1][f] == literal; }
        if Woken(g.triggers, work.found[..f], p) {
          var k :| 0 <= k < f && work.found[..f][k] < |g.triggers| && p in g.triggers[work.found[..f][k]];
          assert work.found[..f + 1][k] == work.found[..f][k];
        }
      }
    }
    assert work.found[..|work.found|] == work.found;
  }

  /** After the scan a literal's number has flags exactly when it occurs. */
  lemma FlaggedIsFound(w: World, g: Group, event: Value, work: GroupScratch, atom: Atom)
    requires Scanned(w, g, event, work, |g.sources|) && SourceHas(g.sources, atom)
    ensures Global(g.sources, atom) < |work.hits|
    ensures Means(work.hits[Global(g.sources, atom)], SourceTexts(w, g.sources, atom.0, event),
            LiteralText(g.sources, atom))
    ensures Has(work.hits[Global(g.sources, atom)], ANY) <==> Found(w, g.sources, atom, event)
  {
    hide Contains, OccursAt;
    var source := g.sources[atom.0];
    assert source.first + |source.literals| <= |work.hits|;
    assert SourceExact(work.hits, source, SourceTexts(w, g.sources, atom.0, event));
    var texts := SourceTexts(w, g.sources, atom.0, event);
    assert (exists k :: 0 <= k < |texts| && Contains(texts[k], LiteralText(g.sources, atom))) <==>
           (exists t :: t in texts && Contains(t, LiteralText(g.sources, atom)));
  }

  /** A rule that holds is a candidate. */
  lemma HoldingIsCandidate(w: World, g: Group, event: Value, work: GroupScratch, p: nat)
    requires GroupOk(w, g) && Scanned(w, g, event, work, |g.sources|) && FoundListed(work.hits, work.found)
    requires p < |g.rules| && NodeHolds(w, g.sources, g.predicates, g.rules[p].1, event)
    ensures p in g.untriggered || Woken(g.triggers, work.found, p)
  {
    hide Found, Scanned, PredOk, NodeHolds, TableOk;
    var trigger := Trigger(g.sources, g.predicates, g.rules[p].1);
    assert WokenBy(g.sources, g.triggers, g.untriggered, p, trigger);
    if trigger.Some? {
      ConditionNeedsTrigger(w, g.sources, g.predicates, g.rules[p].1, event);
      TriggerInRange(w, g.sources, g.predicates, g.rules[p].1);
      var k :| 0 <= k < |trigger.value| && Found(w, g.sources, trigger.value[k], event);
      FlaggedIsFound(w, g, event, work, trigger.value[k]);
      var number := Global(g.sources, trigger.value[k]);
      assert number in work.found && |work.hits| == g.literals by { LengthOfScan(w, g, event, work); }
      assert Awaits(g.sources, trigger.value, number);
      var f :| 0 <= f < |work.found| && work.found[f] == number;
    }
  }

  lemma LengthOfScan(w: World, g: Group, event: Value, work: GroupScratch)
    requires Scanned(w, g, event, work, |g.sources|)
    ensures |work.hits| == g.literals
  {
  }

  // ------------------------------------------------------ asking predicates

  function Wanted(shape: Shape): bv8 {
    match shape
    case Whole => WHOLE
    case Anywhere => ANY
    case AtStart => START
    case AtEnd => END
  }

  /** The flag a shape asks for is set exactly when some text has the shape. */
  lemma FlagDecidesShape(flags: bv8, texts: seq<string>, literal: string, shape: Shape)
    requires Means(flags, texts, literal)
    ensures Has(flags, Wanted(shape)) <==> exists t :: t in texts && ShapeHolds(shape, t, literal)
  {
    hide OccursAt, StartsWith, EndsWith;
    assert forall t :: ShapeHolds(Anywhere, t, literal) <==> Contains(t, literal) by {
      forall t ensures ShapeHolds(Anywhere, t, literal) <==> Contains(t, literal) { AnywhereIsContained(t, literal); }
    }
    if t :| t in texts && ShapeHolds(shape, t, literal) {
      var k :| 0 <= k < |texts| && texts[k] == t;
    }
    if Has(flags, Wanted(shape)) {
      var k :| 0 <= k < |texts| && ShapeHolds(shape, texts[k], literal);
      assert texts[k] in texts;
    }
  }

  lemma AnywhereIsContained(t: string, literal: string)
    ensures ShapeHolds(Anywhere, t, literal) <==> Contains(t, literal)
  {
    if at :| OccursAt(t, literal, at) { assert 0 <= at <= |t|; }
  }

  /** Asks a test of pooled values. */
  method AskTest(w: World, test: Test, values: seq<Value>, event: Value) returns (holds: bool)
    ensures holds <==> TestValues(w, test, values, event)
  {
    if !test.Str? { return PlainTest(w, test, values, event); }
    for k := 0 to |values|
      invariant forall v :: v in values[..k] ==> TextOf(v).None? || !StringMatches(w, test.text, TextOf(v).value)
    {
      assert values[..k + 1] == values[..k] + [values[k]];
      var text := TextOf(values[k]);
      if text.Some? {
        var matched := Search(test.text.pattern, Cased(w, test.text.cased, text.value));
        if matched {
          assert values[k] in values;
          return true;
        }
      }
    }
    assert values[..|values|] == values;
    holds := false;
  }

  /** Whether an expression matches some value's text, booleans passed over. */
  method AskExpression(w: World, pattern: string, flags: Flags, values: seq<Value>) returns (holds: bool)
    ensures holds <==> CheckHolds(w, Expression(pattern, flags), values, Null)
  {
    for k := 0 to |values|
      invariant forall v :: v in values[..k] ==>
        TextOf(v).None? || v.Bool? || !w.isMatch(pattern, flags, TextOf(v).value)
    {
      assert values[..k + 1] == values[..k] + [values[k]];
      match values[k]
      case String(text) =>
        if w.isMatch(pattern, flags, text) { assert values[k] in values; return true; }
      case Number(decimal) =>
        if w.isMatch(pattern, flags, decimal) { assert values[k] in values; return true; }
      case _ =>
    }
    assert values[..|values|] == values;
    holds := false;
  }

  /** Whether some text matches a pattern. */
  method AskTexts(pattern: seq<Part>, texts: seq<string>) returns (holds: bool)
    ensures holds <==> exists t :: t in texts && Glob.Matches(pattern, t)
  {
    for k := 0 to |texts|
      invariant forall t :: t in texts[..k] ==> !Glob.Matches(pattern, t)
    {
      assert texts[..k + 1] == texts[..k] + [texts[k]];
      var matched := Search(pattern, texts[k]);
      if matched { assert texts[k] in texts; return true; }
    }
    assert texts[..|texts|] == texts;
    holds := false;
  }

  /** Whether any of some literals of a source was found. */
  method AnyFound(g: Group, source: nat, literals: seq<nat>, work: GroupScratch, ghost w: World, ghost event: Value)
    returns (any: bool)
    requires Scanned(w, g, event, work, |g.sources|)
    requires source < |g.sources| && forall l :: l in literals ==> SourceHas(g.sources, (source, l))
    ensures any <==> exists l :: l in literals && Found(w, g.sources, (source, l), event)
  {
    hide Found, Scanned;
    for k := 0 to |literals|
      invariant forall l :: l in literals[..k] ==> !Found(w, g.sources, (source, l), event)
    {
      assert literals[..k + 1] == literals[..k] + [literals[k]];
      assert literals[k] in literals;
      FlaggedIsFound(w, g, event, work, (source, literals[k]));
      if Has(work.hits[Global(g.sources, (source, literals[k]))], ANY) { return true; }
    }
    assert literals[..|literals|] == literals;
    any := false;
  }

  /** Computes one predicate from what the scan found. */
  method AskPredicate(w: World, g: Group, pred: Pred, event: Value, work: GroupScratch) returns (holds: bool)
    requires Scanned(w, g, event, work, |g.sources|) && PredOk(w, g.sources, pred)
    ensures holds <==> PredHolds(w, g.sources, pred, event)
  {
    match pred
    case Literal(source, literal, shape) =>
      FlaggedIsFound(w, g, event, work, (source, literal));
      var flags := work.hits[Global(g.sources, (source, literal))];
      FlagDecidesShape(flags, SourceTexts(w, g.sources, source, event), LiteralText(g.sources, (source, literal)),
          shape);
      holds := Has(flags, Wanted(shape));
    case General(source, required, pattern) =>
      holds := AskGeneral(w, g, source, required, pattern, event, work);
    case Other(paths, check, wanted) =>
      holds := AskOther(w, g, paths, check, wanted, event, work);
  }

  method AskGeneral(
    w: World, g: Group, source: nat, required: Option<nat>, pattern: seq<Part>, event: Value, work: GroupScratch)
    returns (holds: bool)
    requires Scanned(w, g, event, work, |g.sources|) && PredOk(w, g.sources, General(source, required, pattern))
    ensures holds <==> PredHolds(w, g.sources, General(source, required, pattern), event)
  {
    ghost var pred := General(source, required, pattern);
    if required.Some? {
      assert Paired(source, [required.value]) == [(source, required.value)];
      var any := AnyFound(g, source, [required.value], work, w, event);
      if !any {
        if PredHolds(w, g.sources, pred, event) { NeedsOneOf(w, g.sources, pred, source, [required.value], event); }
        return false;
      }
    }
    holds := AskTexts(pattern, work.texts[source].Current());
  }

  method AskOther(
    w: World, g: Group, paths: seq<Path>, check: Check, wanted: Option<(nat, seq<nat>)>, event: Value,
    work: GroupScratch)
    returns (holds: bool)
    requires Scanned(w, g, event, work, |g.sources|) && PredOk(w, g.sources, Other(paths, check, wanted))
    ensures holds <==> PredHolds(w, g.sources, Other(paths, check, wanted), event)
  {
    ghost var pred := Other(paths, check, wanted);
    if wanted.Some? {
      var (source, literals) := wanted.value;
      var any := AnyFound(g, source, literals, work, w, event);
      if !any {
        if PredHolds(w, g.sources, pred, event) { NeedsOneOf(w, g.sources, pred, source, literals, event); }
        return false;
      }
    }
    var values := Pool(event, paths);
    match check
    case Expression(pattern, flags) => holds := AskExpression(w, pattern, flags, values);
    case Plain(test) => holds := AskTest(w, test, values, event);
  }

  lemma NeedsOneOf(w: World, sources: seq<Source>, pred: Pred, source: nat, literals: seq<nat>, event: Value)
    requires PredOk(w, sources, pred) && PredHolds(w, sources, pred, event)
    requires AtomsOf(pred) == Some(Paired(source, literals))
    ensures exists l :: l in literals && Found(w, sources, (source, l), event)
  {
    hide Found, PredOk, PredHolds;
    PredNeedsAtoms(w, sources, pred, event);
    var k :| 0 <= k < |literals| && Found(w, sources, Paired(source, literals)[k], event);
    assert literals[k] in literals && Paired(source, literals)[k] == (source, literals[k]);
  }

  // ---------------------------------------------------------------- the memo

  /** A value marked with this generation is the predicate's. */
  ghost predicate MemoRight(w: World, g: Group, event: Value, work: GroupScratch)
    reads work
  {
    && |work.memo| == |work.memoValue| == |g.predicates|
    && (forall p :: 0 <= p < |work.memo| ==> work.memo[p] <= work.generation)
    && (forall p :: 0 <= p < |work.memo| && work.memo[p] == work.generation ==>
          (work.memoValue[p] <==> PredHolds(w, g.sources, g.predicates[p], event)))
  }

  /** Evaluates a condition, computing each predicate at most once an event. */
  method AskNode(w: World, g: Group, node: Node, event: Value, work: GroupScratch) returns (holds: bool)
    requires Scanned(w, g, event, work, |g.sources|) && TableOk(w, g.sources, g.predicates)
    requires NodeOk(|g.predicates|, node) && MemoRight(w, g, event, work)
    modifies work`memo, work`memoValue
    ensures MemoRight(w, g, event, work)
    ensures holds <==> NodeHolds(w, g.sources, g.predicates, node, event)
    decreases node
  {
    hide PredOk, PredHolds, SourceExact, SourceTexts;
    match node
    case All(operands) =>
      for k := 0 to |operands|
        invariant MemoRight(w, g, event, work) && Scanned(w, g, event, work, |g.sources|)
        invariant forall j :: 0 <= j < k ==> NodeHolds(w, g.sources, g.predicates, operands[j], event)
      {
        var one := AskNode(w, g, operands[k], event, work);
        if !one { return false; }
      }
      holds := true;
    case Any(operands) =>
      for k := 0 to |operands|
        invariant MemoRight(w, g, event, work) && Scanned(w, g, event, work, |g.sources|)
        invariant forall j :: 0 <= j < k ==> !NodeHolds(w, g.sources, g.predicates, operands[j], event)
      {
        var one := AskNode(w, g, operands[k], event, work);
        if one { return true; }
      }
      holds := false;
    case No(operand) =>
      var one := AskNode(w, g, operand, event, work);
      holds := !one;
    case Test_(index) => holds := AskOnce(w, g, index, event, work);
  }

  /** A predicate is computed once in a generation. */
  method AskOnce(w: World, g: Group, index: nat, event: Value, work: GroupScratch) returns (holds: bool)
    requires Scanned(w, g, event, work, |g.sources|) && TableOk(w, g.sources, g.predicates)
    requires index < |g.predicates| && MemoRight(w, g, event, work)
    modifies work`memo, work`memoValue
    ensures MemoRight(w, g, event, work)
    ensures holds <==> NodeHolds(w, g.sources, g.predicates, Test_(index), event)
  {
    hide PredOk, PredHolds, SourceExact, SourceTexts;
    if work.memo[index] == work.generation { return work.memoValue[index]; }
    holds := AskPredicate(w, g, g.predicates[index], event, work);
    work.memo := work.memo[index := work.generation];
    work.memoValue := work.memoValue[index := holds];
  }

  // ---------------------------------------------------------- the evaluation

  /** `matched` with the rules at `positions` added. */
  ghost predicate Adds(g: Group, before: seq<nat>, after: seq<nat>, positions: seq<nat>) {
    && |after| == |before| + |positions| && before <= after
    && (forall k :: 0 <= k < |positions| ==> positions[k] < |g.rules| && after[|before| + k] == g.rules[positions[k]].0)
    && NoDuplicates(positions)
  }

  /** Asks the candidates, in their order. */
  method AskCandidates(w: World, g: Group, event: Value, work: GroupScratch, candidates: seq<nat>, matched: seq<nat>)
    returns (after: seq<nat>, ghost positions: seq<nat>)
    requires GroupOk(w, g) && Scanned(w, g, event, work, |g.sources|) && MemoRight(w, g, event, work)
    requires NoDuplicates(candidates) && forall p :: p in candidates ==> p < |g.rules|
    modifies work`memo, work`memoValue
    ensures MemoRight(w, g, event, work) && Adds(g, matched, after, positions)
    ensures forall p :: p in positions <==>
              p in candidates && NodeHolds(w, g.sources, g.predicates, g.rules[p].1, event)
  {
    hide TableOk, WokenBy, NodeHolds, SourceExact, SourceTexts, Numbered;
    after, positions := matched, [];
    for c := 0 to |candidates|
      invariant MemoRight(w, g, event, work) && Scanned(w, g, event, work, |g.sources|)
      invariant Adds(g, matched, after, positions)
      invariant forall p :: p in positions <==>
        p < |g.rules| && p in candidates[..c] && NodeHolds(w, g.sources, g.predicates, g.rules[p].1, event)
    {
      var position := candidates[c];
      assert position in candidates && candidates[..c + 1] == candidates[..c] + [position];
      var (index, node) := g.rules[position];
      var holds := AskNode(w, g, node, event, work);
      if holds { after, positions := after + [index], positions + [position]; }
    }
    assert candidates[..|candidates|] == candidates;
  }

  /** Scans the event and lists the rules that can hold. */
  method Prepare(w: World, g: Group, event: Value, work: GroupScratch)
    requires AutomataFind(w) && GroupOk(w, g) && work.Idle() && work.Fits(g)
    modifies work, work.texts
    ensures work.texts == old(work.texts) && work.Repr == old(work.Repr) && work.TextsApart() && work.MarksBehind()
            && work.Fits(g)
    ensures FoundListed(work.hits, work.found) && Scanned(w, g, event, work, |g.sources|) && CandidatesListed(work)
    ensures |work.memo| == |work.memoValue| && forall p :: 0 <= p < |work.memo| ==> work.memo[p] < work.generation
    ensures forall p :: p in work.candidates ==> p < |g.rules|
    ensures forall p :: 0 <= p < |g.rules| && NodeHolds(w, g.sources, g.predicates, g.rules[p].1, event) ==>
            p in work.candidates
  {
    hide TableOk, WokenBy, NodeHolds, NodeOk, SourceExact, SourceTexts, Numbered, Woken;
    work.NextGeneration();
    ScanAll(w, g, event, work);
    ChooseCandidates(g, work);
    forall p | 0 <= p < |g.rules| && NodeHolds(w, g.sources, g.predicates, g.rules[p].1, event)
      ensures p in work.candidates
    {
      HoldingIsCandidate(w, g, event, work, p);
    }
  }

  /** Evaluates a group: adds its rules that hold, each once, and leaves the
      scratch as it was between events, whatever it was used for before. */
  method Evaluate(w: World, g: Group, event: Value, work: GroupScratch, matched: seq<nat>)
    returns (after: seq<nat>, ghost positions: seq<nat>)
    requires AutomataFind(w) && GroupOk(w, g) && work.Idle() && work.Fits(g)
    modifies work, work.texts
    ensures work.Idle() && work.Fits(g) && work.texts == old(work.texts) && work.Repr == old(work.Repr)
    ensures Adds(g, matched, after, positions)
    ensures forall p :: 0 <= p < |g.rules| ==>
              (p in positions <==> NodeHolds(w, g.sources, g.predicates, g.rules[p].1, event))
  {
    hide TableOk, WokenBy, NodeHolds, NodeOk, SourceExact, SourceTexts, Adds, Numbered;
    Prepare(w, g, event, work);
    after, positions := AskCandidates(w, g, event, work, work.candidates, matched);
    Reset(work);
  }

  /** Empties the hits by the list of those found. */
  method Reset(work: GroupScratch)
    requires FoundListed(work.hits, work.found)
    modifies work`hits, work`found
    ensures work.found == [] && |work.hits| == old(|work.hits|) && forall x :: 0 <= x < |work.hits| ==>
            work.hits[x] == 0
  {
    for f := 0 to |work.found|
      invariant |work.hits| == old(|work.hits|) && work.found == old(work.found)
      invariant forall x :: 0 <= x < |work.hits| ==>
                work.hits[x] == if x in work.found[..f] then 0 else old(work.hits)[x]
    {
      assert work.found[f] in work.found;
      work.hits := work.hits[work.found[f] := 0];
      assert work.found[..f + 1] == work.found[..f] + [work.found[f]];
    }
    assert work.found[..|work.found|] == work.found;
    work.found := [];
  }
}
