/** What is evaluated in place of the conditions of one class, and its meaning
    without any of the shortcuts: the meaning every shortcut is proved to keep. */
module Compiled {
  import opened Base
  import opened Ordering
  import opened Text
  import opened Glob
  import opened Events
  import opened Worlds = Rules

  /** Which texts of an event a source gathers. */
  datatype Origin =
    | Paths(paths: seq<Path>)
    | AnyText  // all strings of the event

  /** Texts, whether they are folded, and the literals the source's automaton
      finds, which are numbered in the group from `first` on. */
  datatype Source = Source(origin: Origin, cased: bool, literals: seq<string>, first: nat)

  datatype Shape = Whole | Anywhere | AtStart | AtEnd

  datatype Check = Plain(test: Test) | Expression(pattern: string, flags: Flags)

  datatype Pred =
    | Literal(source: nat, literal: nat, shape: Shape)  // its shape is answered by flags alone
    | General(source: nat, required: Option<nat>, pattern: seq<Part>)
    | Other(paths: seq<Path>, check: Check, wanted: Option<(nat, seq<nat>)>)

  datatype Node = All(operands: seq<Node>) | Any(operands: seq<Node>) | No(operand: Node) | Test_(index: nat)

  /** A literal, as a source and an index into its literals. */
  type Atom = (nat, nat)

  datatype Group = Group(
    class_: Class,
    sources: seq<Source>,
    predicates: seq<Pred>,
    rules: seq<(nat, Node)>,      // a rule's index and its compiled condition
    triggers: seq<seq<nat>>,      // indexed by literal
    untriggered: seq<nat>,        // positions that wait for nothing
    literals: nat                 // literals across all sources
  )

  // --------------------------------------------------------------- meaning

  /** The text a source reads from a value: a number's as it is, since folding
      has nothing in it to change. */
  function ReadText(w: World, cased: bool, value: Value): Option<string> {
    match value
    case String(text) => Some(Cased(w, cased, text))
    case Number(decimal) => Some(decimal)
    case Bool(flag) => Some(Cased(w, cased, if flag then "true" else "false"))
    case _ => None
  }

  function ReadTexts(w: World, cased: bool, values: seq<Value>): (r: seq<string>)
    ensures forall t :: t in r <==> exists v :: v in values && ReadText(w, cased, v) == Some(t)
  {
    if values == [] then []
    else
      assert forall v :: v in values <==> v == values[0] || v in values[1..];
      (if ReadText(w, cased, values[0]).Some? then [ReadText(w, cased, values[0]).value] else [])
      + ReadTexts(w, cased, values[1..])
  }

  function CasedTexts(w: World, cased: bool, texts: seq<string>): (r: seq<string>)
    ensures |r| == |texts| && forall k :: 0 <= k < |r| ==> r[k] == Cased(w, cased, texts[k])
  {
    seq(|texts|, k requires 0 <= k < |texts| => Cased(w, cased, texts[k]))
  }

  /** The texts of a source in an event, in the order they are gathered. */
  function TextsOf(w: World, origin: Origin, cased: bool, event: Value): seq<string> {
    match origin
    case Paths(paths) => ReadTexts(w, cased, VisitAll(event, paths))
    case AnyText => CasedTexts(w, cased, Strings(event))
  }

  /** Folding changes nothing in a number's text, so a source reads of pooled
      values what a string test compares. */
  lemma SourceReadsWhatTestsCompare(w: World, cased: bool, value: Value)
    ensures ReadText(w, cased, value) ==
            if TextOf(value).Some? then Some(Cased(w, cased, TextOf(value).value)) else None
  {
    if value.Number? {
      var decimal := value.decimal;
      assert forall k :: 0 <= k < |decimal| ==> FoldChar(w.beyond, decimal[k]) == decimal[k];
      assert Fold(w.beyond, decimal) == decimal;
    }
  }

  lemma PathTextsArePooled(w: World, paths: seq<Path>, cased: bool, event: Value, t: string)
    ensures t in TextsOf(w, Paths(paths), cased, event) <==>
            exists v :: v in Pool(event, paths) && TextOf(v).Some? && Cased(w, cased, TextOf(v).value) == t
  {
    forall v { SourceReadsWhatTestsCompare(w, cased, v); }
  }

  predicate ShapeHolds(shape: Shape, text: string, literal: string) {
    match shape
    case Whole => text == literal
    case Anywhere => exists at :: 0 <= at <= |text| && OccursAt(text, literal, at)
    case AtStart => StartsWith(text, literal)
    case AtEnd => EndsWith(text, literal)
  }

  predicate SourceHas(sources: seq<Source>, atom: Atom) {
    atom.0 < |sources| && atom.1 < |sources[atom.0].literals|
  }

  function LiteralText(sources: seq<Source>, atom: Atom): string {
    if SourceHas(sources, atom) then sources[atom.0].literals[atom.1] else ""
  }

  function SourceTexts(w: World, sources: seq<Source>, source: nat, event: Value): seq<string>
    requires source < |sources|
  {
    TextsOf(w, sources[source].origin, sources[source].cased, event)
  }

  /** A literal occurs in some text of its source. */
  ghost predicate Found(w: World, sources: seq<Source>, atom: Atom, event: Value) {
    SourceHas(sources, atom) &&
    exists t :: t in SourceTexts(w, sources, atom.0, event) && Contains(t, LiteralText(sources, atom))
  }

  ghost predicate CheckHolds(w: World, check: Check, values: seq<Value>, event: Value) {
    match check
    case Plain(test) => TestValues(w, test, values, event)
    case Expression(pattern, flags) => SomeText(s => w.isMatch(pattern, flags, s), false, values)
  }

  /** The truth of a predicate, whatever was scanned for. */
  ghost predicate PredHolds(w: World, sources: seq<Source>, pred: Pred, event: Value) {
    match pred
    case Literal(source, literal, shape) =>
      SourceHas(sources, (source, literal)) &&
      exists t :: t in SourceTexts(w, sources, source, event)
          && ShapeHolds(shape, t, LiteralText(sources, (source, literal)))
    case General(source, _, pattern) =>
      source < |sources| && exists t :: t in SourceTexts(w, sources, source, event) && Glob.Matches(pattern, t)
    case Other(paths, check, _) => CheckHolds(w, check, Pool(event, paths), event)
  }

  ghost predicate NodeHolds(w: World, sources: seq<Source>, predicates: seq<Pred>, node: Node, event: Value) {
    match node
    case All(operands) => forall k :: 0 <= k < |operands| ==> NodeHolds(w, sources, predicates, operands[k], event)
    case Any(operands) => exists k :: 0 <= k < |operands| && NodeHolds(w, sources, predicates, operands[k], event)
    case No(operand) => !NodeHolds(w, sources, predicates, operand, event)
    case Test_(index) => index < |predicates| && PredHolds(w, sources, predicates[index], event)
  }

  // -------------------------------------------------------- well-formedness

  /** A predicate's literals exist, and the ones it waits for are ones it
      cannot hold without. */
  ghost predicate PredOk(w: World, sources: seq<Source>, pred: Pred) {
    match pred
    case Literal(source, literal, _) => SourceHas(sources, (source, literal))
    case General(source, required, pattern) =>
      source < |sources| && (required.Some? ==>
        SourceHas(sources, (source, required.value)) &&
        Part.Literal(LiteralText(sources, (source, required.value))) in pattern)
    case Other(paths, check, wanted) =>
      wanted.Some? ==>
        var (source, literals) := wanted.value;
        && source < |sources| && sources[source].origin == Paths(paths) && !sources[source].cased
        && (forall l :: l in literals ==> SourceHas(sources, (source, l)))
        && check.Expression?
        && Suffice(w, sources, source, literals, check.pattern, check.flags)
  }

  /** The folding of every text an expression matches contains one of the literals. */
  ghost predicate Suffice(
    w: World, sources: seq<Source>, source: nat, literals: seq<nat>, pattern: string, flags: Flags) {
    forall text :: w.isMatch(pattern, flags, text) ==>
      exists l :: l in literals && Contains(Fold(w.beyond, text), LiteralText(sources, (source, l)))
  }

  predicate NodeOk(count: nat, node: Node) {
    match node
    case All(operands) => forall k :: 0 <= k < |operands| ==> NodeOk(count, operands[k])
    case Any(operands) => forall k :: 0 <= k < |operands| ==> NodeOk(count, operands[k])
    case No(operand) => NodeOk(count, operand)
    case Test_(index) => index < count
  }

  ghost predicate TableOk(w: World, sources: seq<Source>, predicates: seq<Pred>) {
    forall p :: 0 <= p < |predicates| ==> PredOk(w, sources, predicates[p])
  }

  // --------------------------------------------------------------- triggers

  function Paired(source: nat, literals: seq<nat>): (r: seq<Atom>)
    ensures |r| == |literals| && forall k :: 0 <= k < |r| ==> r[k] == (source, literals[k])
  {
    seq(|literals|, k requires 0 <= k < |literals| => (source, literals[k]))
  }

  /** Literals one of which a predicate cannot hold without. */
  function AtomsOf(pred: Pred): Option<seq<Atom>> {
    match pred
    case Literal(source, literal, _) => Some([(source, literal)])
    case General(source, required, _) => if required.Some? then Some([(source, required.value)]) else None
    case Other(_, _, wanted) => if wanted.Some? then Some(Paired(wanted.value.0, wanted.value.1)) else None
  }

  /** The estimate that the choice among operands goes by. No proof depends on it.
      */
  function WakeCost(sources: seq<Source>, trigger: seq<Atom>): nat {
    Cost(seq(|trigger|, k requires 0 <= k < |trigger| => LiteralText(sources, trigger[k])))
  }

  predicate AtomLe(a: Atom, b: Atom) { a.0 < b.0 || (a.0 == b.0 && a.1 <= b.1) }

  /** What a node waits for. That a true node has one of these atoms true is
      `ConditionNeedsTrigger`, in which a node without any claims nothing. */
  function Trigger(sources: seq<Source>, predicates: seq<Pred>, node: Node): Option<seq<Atom>>
    decreases node, 0
  {
    match node
    case Test_(index) => if index < |predicates| then AtomsOf(predicates[index]) else None
    // A conjunction waits for the cheapest of its operands that wait at all.
    case All(operands) => Cheapest(t => WakeCost(sources, t), SomeTriggers(sources, predicates, operands))
    // A disjunction waits only if all of its operands do, and then for all they wait for.
    case Any(operands) =>
      var all := EveryTrigger(sources, predicates, operands);
      if all.Some? then Some(Dedup(Sort(AtomLe, all.value))) else None
    case No(_) => None
  }

  function SomeTriggers(sources: seq<Source>, predicates: seq<Pred>, operands: seq<Node>): seq<seq<Atom>>
    decreases operands, 0
  {
    if operands == [] then []
    else
      var first := Trigger(sources, predicates, operands[0]);
      (if first.Some? then [first.value] else []) + SomeTriggers(sources, predicates, operands[1..])
  }

  function EveryTrigger(sources: seq<Source>, predicates: seq<Pred>, operands: seq<Node>): Option<seq<Atom>>
    decreases operands, 0
  {
    if operands == [] then Some([])
    else
      var first := Trigger(sources, predicates, operands[0]);
      if first.None? then None
      else
        var rest := EveryTrigger(sources, predicates, operands[1..]);
        if rest.None? then None else Some(first.value + rest.value)
  }

  ghost predicate FoundOne(w: World, sources: seq<Source>, trigger: seq<Atom>, event: Value) {
    exists k :: 0 <= k < |trigger| && Found(w, sources, trigger[k], event)
  }

  lemma ShapeContains(shape: Shape, text: string, literal: string)
    requires ShapeHolds(shape, text, literal)
    ensures Contains(text, literal)
  {
    match shape
    case Whole => assert OccursAt(text, literal, 0);
    case Anywhere =>
      var at :| 0 <= at <= |text| && OccursAt(text, literal, at);
    case AtStart => assert OccursAt(text, literal, 0);
    case AtEnd => assert OccursAt(text, literal, |text| - |literal|);
  }

  /** A predicate that holds has one of its literals found. */
  lemma PredNeedsAtoms(w: World, sources: seq<Source>, pred: Pred, event: Value)
    requires PredOk(w, sources, pred) && PredHolds(w, sources, pred, event) && AtomsOf(pred).Some?
    ensures FoundOne(w, sources, AtomsOf(pred).value, event)
  {
    match pred
    case Literal(source, literal, shape) =>
      var text := LiteralText(sources, (source, literal));
      var t :| t in SourceTexts(w, sources, source, event) && ShapeHolds(shape, t, text);
      ShapeContains(shape, t, text);
      assert Found(w, sources, AtomsOf(pred).value[0], event);
    case General(source, required, pattern) => PatternNeedsLiteral(w, sources, source, required.value, pattern, event);
    case Other(paths, check, wanted) =>
      var (source, literals) := wanted.value;
      ExpressionNeedsLiteral(w, sources, source, literals, check, paths, event);
  }

  lemma PatternNeedsLiteral(w: World, sources: seq<Source>, source: nat, literal: nat, pattern: seq<Part>, event: Value)
    requires PredOk(w, sources, General(source, Some(literal), pattern))
    requires PredHolds(w, sources, General(source, Some(literal), pattern), event)
    ensures FoundOne(w, sources, [(source, literal)], event)
  {
    var text := LiteralText(sources, (source, literal));
    var t :| t in SourceTexts(w, sources, source, event) && Glob.Matches(pattern, t);
    var q :| 0 <= q < |pattern| && pattern[q] == Part.Literal(text);
    LiteralIsContained(pattern, t, 0, 0, q);
    assert Found(w, sources, [(source, literal)][0], event);
  }

  lemma ExpressionNeedsLiteral(
    w: World, sources: seq<Source>, source: nat, literals: seq<nat>, check: Check, paths: seq<Path>, event: Value)
    requires PredOk(w, sources, Other(paths, check, Some((source, literals))))
    requires PredHolds(w, sources, Other(paths, check, Some((source, literals))), event)
    ensures FoundOne(w, sources, Paired(source, literals), event)
  {
    var v :| v in Pool(event, paths) && TextOf(v).Some? && !v.Bool?
        && w.isMatch(check.pattern, check.flags, TextOf(v).value);
    var text := TextOf(v).value;
    var l :| l in literals && Contains(Fold(w.beyond, text), LiteralText(sources, (source, l)));
    PathTextsArePooled(w, paths, false, event, Fold(w.beyond, text));
    var k :| 0 <= k < |literals| && literals[k] == l;
    assert Found(w, sources, Paired(source, literals)[k], event);
  }

  lemma {:induction false} SomeTriggersComeFrom(
    sources: seq<Source>, predicates: seq<Pred>, operands: seq<Node>, t: seq<Atom>) returns (k: nat)
    requires t in SomeTriggers(sources, predicates, operands)
    ensures k < |operands| && Trigger(sources, predicates, operands[k]) == Some(t)
  {
    if Trigger(sources, predicates, operands[0]) == Some(t) {
      k := 0;
    } else {
      k := SomeTriggersComeFrom(sources, predicates, operands[1..], t);
      k := k + 1;
    }
  }

  lemma {:induction false} EveryTriggerHolds(
    sources: seq<Source>, predicates: seq<Pred>, operands: seq<Node>, k: nat)
    requires k < |operands| && EveryTrigger(sources, predicates, operands).Some?
    ensures Trigger(sources, predicates, operands[k]).Some?
    ensures forall a :: a in Trigger(sources, predicates, operands[k]).value ==>
              a in EveryTrigger(sources, predicates, operands).value
  {
    if k > 0 { EveryTriggerHolds(sources, predicates, operands[1..], k - 1); }
  }

  lemma SetForgetsOrder(atoms: seq<Atom>)
    ensures forall a :: a in Dedup(Sort(AtomLe, atoms)) <==> a in atoms
  {
    forall a ensures a in Dedup(Sort(AtomLe, atoms)) <==> a in atoms {
      assert a in multiset(Sort(AtomLe, atoms)) <==> a in multiset(atoms);
    }
  }

  /** A condition that holds has a literal of its trigger found, so a rule none
      of whose literals is found cannot hold. */
  lemma {:induction false} ConditionNeedsTrigger(
    w: World, sources: seq<Source>, predicates: seq<Pred>, node: Node, event: Value)
    requires TableOk(w, sources, predicates) && NodeHolds(w, sources, predicates, node, event)
    requires Trigger(sources, predicates, node).Some?
    ensures FoundOne(w, sources, Trigger(sources, predicates, node).value, event)
  {
    var trigger := Trigger(sources, predicates, node).value;
    match node
    case Test_(index) => PredNeedsAtoms(w, sources, predicates[index], event);
    case All(operands) =>
      var k := SomeTriggersComeFrom(sources, predicates, operands, trigger);
      ConditionNeedsTrigger(w, sources, predicates, operands[k], event);
    case Any(operands) =>
      var k :| 0 <= k < |operands| && NodeHolds(w, sources, predicates, operands[k], event);
      EveryTriggerHolds(sources, predicates, operands, k);
      ConditionNeedsTrigger(w, sources, predicates, operands[k], event);
      SetForgetsOrder(EveryTrigger(sources, predicates, operands).value);
      FoundAmongMore(w, sources, Trigger(sources, predicates, operands[k]).value, trigger, event);
  }

  lemma FoundAmongMore(w: World, sources: seq<Source>, own: seq<Atom>, more: seq<Atom>, event: Value)
    requires FoundOne(w, sources, own, event) && forall a :: a in own ==> a in more
    ensures FoundOne(w, sources, more, event)
  {
    var i :| 0 <= i < |own| && Found(w, sources, own[i], event);
    var atom := own[i];
    assert atom in own && atom in more;
    var j :| 0 <= j < |more| && more[j] == atom;
  }
}
