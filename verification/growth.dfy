/** The tables a group's compilation fills, and that what was compiled keeps
    its meaning as they grow. */
module Growth {
  import opened Base
  import opened Text
  import opened Glob
  import opened Events
  import opened Rules
  import opened Sharing
  import opened Compiled

  /** The tables at one moment: sources with their literals, predicates, and
      the tests seen. */
  datatype Tables = Tables(sources: seq<Source>, predicates: seq<Pred>, seen: seq<Expr>)

  ghost predicate SourcesGrow(a: seq<Source>, b: seq<Source>) {
    |a| <= |b| && forall s :: 0 <= s < |a| ==>
      a[s].origin == b[s].origin && a[s].cased == b[s].cased && a[s].literals <= b[s].literals
  }

  ghost predicate Grow(a: Tables, b: Tables) {
    SourcesGrow(a.sources, b.sources) && a.predicates <= b.predicates && a.seen <= b.seen
  }

  lemma GrowTransitive(a: Tables, b: Tables, c: Tables)
    requires Grow(a, b) && Grow(b, c)
    ensures Grow(a, c)
  {
  }

  /** A predicate is true of the events a test is. */
  ghost predicate PredMeans(w: World, sources: seq<Source>, pred: Pred, leaf: Expr) {
    forall event :: PredHolds(w, sources, pred, event) <==> Holds(w, false, leaf, event)
  }

  ghost predicate NodeMeans(w: World, tables: Tables, node: Node, expr: Expr) {
    && NodeOk(|tables.predicates|, node)
    && AllSeen(tables.seen, expr)
    && forall event :: NodeHolds(w, tables.sources, tables.predicates, node, event) <==>
         Holds(w, false, Shared(tables.seen, expr), event)
  }

  lemma LiteralTextKept(a: seq<Source>, b: seq<Source>, atom: Atom)
    requires SourcesGrow(a, b) && SourceHas(a, atom)
    ensures SourceHas(b, atom) && LiteralText(b, atom) == LiteralText(a, atom)
  {
    assert a[atom.0].literals <= b[atom.0].literals;
  }

  lemma PredKept(w: World, a: seq<Source>, b: seq<Source>, pred: Pred)
    requires SourcesGrow(a, b) && PredOk(w, a, pred)
    ensures PredOk(w, b, pred)
    ensures forall event :: PredHolds(w, a, pred, event) <==> PredHolds(w, b, pred, event)
  {
    match pred
    case Literal(source, literal, _) => LiteralTextKept(a, b, (source, literal));
    case General(source, required, _) =>
      if required.Some? { LiteralTextKept(a, b, (source, required.value)); }
    case Other(_, _, wanted) =>
      if wanted.Some? {
        assert a[wanted.value.0].origin == b[wanted.value.0].origin
               && a[wanted.value.0].cased == b[wanted.value.0].cased;
        forall l | l in wanted.value.1
          ensures SourceHas(b, (wanted.value.0, l))
          ensures LiteralText(b, (wanted.value.0, l)) == LiteralText(a, (wanted.value.0, l))
        {
          LiteralTextKept(a, b, (wanted.value.0, l));
        }
      }
  }

  lemma {:induction false} NodeKept(w: World, a: Tables, b: Tables, node: Node, event: Value)
    requires Grow(a, b) && TableOk(w, a.sources, a.predicates) && NodeOk(|a.predicates|, node)
    ensures NodeOk(|b.predicates|, node)
    ensures NodeHolds(w, a.sources, a.predicates, node, event) <==> NodeHolds(w, b.sources, b.predicates, node, event)
  {
    match node
    case All(operands) => forall k | 0 <= k < |operands| { NodeKept(w, a, b, operands[k], event); }
    case Any(operands) => forall k | 0 <= k < |operands| { NodeKept(w, a, b, operands[k], event); }
    case No(operand) => NodeKept(w, a, b, operand, event);
    case Test_(index) => PredKept(w, a.sources, b.sources, a.predicates[index]);
  }

  lemma MeaningKept(w: World, a: Tables, b: Tables, node: Node, expr: Expr)
    requires Grow(a, b) && TableOk(w, a.sources, a.predicates) && NodeMeans(w, a, node, expr)
    ensures NodeMeans(w, b, node, expr)
  {
    assert b.seen == a.seen + b.seen[|a.seen|..];
    SharedIsKept(a.seen, b.seen[|a.seen|..], expr);
    forall event { NodeKept(w, a, b, node, event); }
    NodeKept(w, a, b, node, Null);
  }

  // ------------------------------------------------- what a test's leaf asks

  /** The source that a string test is compiled against. */
  function OriginOf(leaf: Expr): Origin
    requires leaf.Keyword? || (leaf.Field? && leaf.test.Str?)
  {
    if leaf.Keyword? then AnyText else Paths(leaf.paths)
  }

  function TextTestOf(leaf: Expr): StringTest
    requires leaf.Keyword? || (leaf.Field? && leaf.test.Str?)
  {
    if leaf.Keyword? then leaf.text else leaf.test.text
  }

  ghost predicate SomeMatches(pattern: seq<Part>, texts: seq<string>) {
    exists t :: t in texts && Glob.Matches(pattern, t)
  }

  /** A string test holds when its pattern matches a text of its source. */
  lemma StringTestReadsSource(w: World, leaf: Expr, event: Value)
    requires leaf.Keyword? || (leaf.Field? && leaf.test.Str?)
    ensures Holds(w, false, leaf, event) <==>
            SomeMatches(TextTestOf(leaf).pattern, TextsOf(w, OriginOf(leaf), TextTestOf(leaf).cased, event))
  {
    hide TextsOf, SomeMatches, StringMatches, Strings, Pool;
    if leaf.Keyword? {
      KeywordReadsTexts(w, leaf.text, event);
    } else {
      FieldReadsTexts(w, leaf.paths, leaf.test.text, event);
    }
  }

  lemma KeywordReadsTexts(w: World, test: StringTest, event: Value)
    ensures (exists s :: s in Strings(event) && StringMatches(w, test, s)) <==>
            SomeMatches(test.pattern, TextsOf(w, AnyText, test.cased, event))
  {
    hide Glob.Matches, Strings, Cased;
    var strings, texts := Strings(event), TextsOf(w, AnyText, test.cased, event);
    if s :| s in strings && StringMatches(w, test, s) {
      var k :| 0 <= k < |strings| && strings[k] == s;
      assert texts[k] in texts && Glob.Matches(test.pattern, texts[k]);
    }
    if SomeMatches(test.pattern, texts) {
      var t :| t in texts && Glob.Matches(test.pattern, t);
      var k :| 0 <= k < |texts| && texts[k] == t;
      assert strings[k] in strings && StringMatches(w, test, strings[k]);
    }
  }

  lemma FieldReadsTexts(w: World, paths: seq<Path>, test: StringTest, event: Value)
    ensures (exists v :: v in Pool(event, paths) && TextOf(v).Some? && StringMatches(w, test, TextOf(v).value)) <==>
            SomeMatches(test.pattern, TextsOf(w, Paths(paths), test.cased, event))
  {
    hide Glob.Matches, Pool, TextsOf, Cased, TextOf;
    var pool, texts := Pool(event, paths), TextsOf(w, Paths(paths), test.cased, event);
    if v :| v in pool && TextOf(v).Some? && StringMatches(w, test, TextOf(v).value) {
      PathTextsArePooled(w, paths, test.cased, event, Cased(w, test.cased, TextOf(v).value));
    }
    if SomeMatches(test.pattern, texts) {
      var t :| t in texts && Glob.Matches(test.pattern, t);
      PathTextsArePooled(w, paths, test.cased, event, t);
      var v :| v in pool && TextOf(v).Some? && Cased(w, test.cased, TextOf(v).value) == t;
      assert StringMatches(w, test, TextOf(v).value);
    }
  }

  /** The shape a pattern is decided by, and its literal, if it has one. */
  function ShapeOf(pattern: seq<Part>): Option<(string, Shape)> {
    if |pattern| == 1 && pattern[0].Literal? then Some((pattern[0].text, Whole))
    else if |pattern| == 3 && pattern[0].AnySequence? && pattern[1].Literal? && pattern[2].AnySequence?
    then Some((pattern[1].text, Anywhere))
    else if |pattern| == 2 && pattern[0].Literal? && pattern[1].AnySequence? then Some((pattern[0].text, AtStart))
    else if |pattern| == 2 && pattern[0].AnySequence? && pattern[1].Literal? then Some((pattern[1].text, AtEnd))
    else None
  }

  /** A pattern with a shape matches a text exactly when its literal stands
      there in that shape. */
  lemma ShapeDecidesPattern(pattern: seq<Part>, t: string)
    requires ShapeOf(pattern).Some?
    ensures Glob.Matches(pattern, t) <==> ShapeHolds(ShapeOf(pattern).value.1, t, ShapeOf(pattern).value.0)
  {
    var (text, shape) := ShapeOf(pattern).value;
    match shape
    case Whole =>
      assert pattern == [Part.Literal(text)];
      EqualsShape(text, t);
    case Anywhere =>
      assert pattern == [AnySequence, Part.Literal(text), AnySequence];
      ContainsShape(text, t);
      assert Contains(t, text) <==> exists at :: 0 <= at <= |t| && OccursAt(t, text, at);
    case AtStart =>
      assert pattern == [Part.Literal(text), AnySequence];
      StartsWithShape(text, t);
    case AtEnd =>
      assert pattern == [AnySequence, Part.Literal(text)];
      EndsWithShape(text, t);
  }

  /** Which literal of a pattern stands for it in the automaton. Any would be sound;
      ties in length go to the last. */
  function LongestLiteral(pattern: seq<Part>): (r: Option<string>)
    ensures r.Some? ==> Part.Literal(r.value) in pattern && r.value != ""
    ensures r.None? ==> forall p :: p in pattern && p.Literal? ==> p.text == ""
    ensures r.Some? ==> forall p :: p in pattern && p.Literal? && p.text != "" ==>
            Utf8Bytes(p.text) <= Utf8Bytes(r.value)
  {
    if pattern == [] then None
    else
      var rest := LongestLiteral(pattern[1..]);
      if pattern[0].Literal? && pattern[0].text != ""
         && (rest.None? || Utf8Bytes(pattern[0].text) > Utf8Bytes(rest.value))
      then Some(pattern[0].text)
      else rest
  }
}
