/** Compiling a class of rules into tables. The invariants here tie every table to
    what the rules mean while all of them still grow. */
module Building {
  import opened Base
  import opened Text
  import opened Glob
  import opened Events
  import Required
  import opened Rules
  import opened Sharing
  import opened Compiled
  import opened Growth
  import opened Waking

  /** Literals of the sources before `s`: the index of its first in the group. */
  function Before(literals: seq<seq<string>>, s: nat): nat
    requires s <= |literals|
  {
    if s == 0 then 0 else Before(literals, s - 1) + |literals[s - 1]|
  }

  function SourceTable(sources: seq<(Origin, bool)>, literals: seq<seq<string>>): (r: seq<Source>)
    requires |sources| == |literals|
    ensures |r| == |sources|
    ensures forall s :: 0 <= s < |r| ==> r[s] == Source(sources[s].0, sources[s].1, literals[s], Before(literals, s))
  {
    seq(|sources|,
        s requires 0 <= s < |sources| => Source(sources[s].0, sources[s].1, literals[s], Before(literals, s)))
  }

  /** The identifiers of literals are theirs: each text is listed once a source. */
  ghost predicate LiteralIds(literals: seq<seq<string>>, ids: map<(nat, string), nat>) {
    && (forall s, l :: 0 <= s < |literals| && 0 <= l < |literals[s]| ==>
          (s, literals[s][l]) in ids && ids[(s, literals[s][l])] == l)
    && (forall s, t :: (s, t) in ids ==>
          s < |literals| && ids[(s, t)] < |literals[s]| && literals[s][ids[(s, t)]] == t)
  }

  lemma SourceAdded(
      sources: seq<(Origin, bool)>, literals: seq<seq<string>>, ids: map<(nat, string), nat>, source: (Origin, bool))
    requires |sources| == |literals| && LiteralIds(literals, ids)
    ensures LiteralIds(literals + [[]], ids)
    ensures SourcesGrow(SourceTable(sources, literals), SourceTable(sources + [source], literals + [[]]))
  {
  }

  lemma GrowsToItself(t: Tables)
    ensures Grow(t, t)
  {
  }

  lemma GrowsBySources(a: Tables, b: Tables)
    requires SourcesGrow(a.sources, b.sources) && b.predicates == a.predicates && b.seen == a.seen
    ensures Grow(a, b)
  {
  }

  lemma LiteralAdded(
    sources: seq<(Origin, bool)>, literals: seq<seq<string>>, ids: map<(nat, string), nat>, source: nat, text: string)
    requires |sources| == |literals| && source < |literals| && LiteralIds(literals, ids) && (source, text) !in ids
    ensures LiteralIds(literals[source := literals[source] + [text]], ids[(source, text) := |literals[source]|])
    ensures SourcesGrow(SourceTable(sources, literals),
            SourceTable(sources, literals[source := literals[source] + [text]]))
  {
    var literals', ids' := literals[source := literals[source] + [text]], ids[(source, text) := |literals[source]|];
    forall s, l | 0 <= s < |literals'| && 0 <= l < |literals'[s]|
      ensures (s, literals'[s][l]) in ids' && ids'[(s, literals'[s][l])] == l
    {
      if s != source || l < |literals[source]| {
        assert literals'[s][l] == literals[s][l] && (s, literals[s][l]) in ids;
      }
    }
    forall s, t | (s, t) in ids'
      ensures s < |literals'| && ids'[(s, t)] < |literals'[s]| && literals'[s][ids'[(s, t)]] == t
    {
      if (s, t) != (source, text) { assert (s, t) in ids; }
    }
  }

  ghost predicate AtomsKnown(predicates: seq<Pred>, atoms: seq<Option<seq<Atom>>>) {
    |atoms| == |predicates| && forall p :: 0 <= p < |atoms| ==> atoms[p] == AtomsOf(predicates[p])
  }

  ghost predicate SeenAreCompiled(w: World, seen: seq<Expr>, ids: map<Expr, nat>) {
    forall l :: 0 <= l < |seen| ==> IsLeaf(seen[l]) && Rules.Compiles(w, seen[l]) && LeafKey(seen[l]) in ids
  }

  /** A serialized test has the predicate of the first test that serializes so. */
  ghost predicate IdsMean(w: World, t: Tables, ids: map<Expr, nat>) {
    forall key :: key in ids ==>
      ids[key] < |t.predicates| && First(t.seen, key).Some?
      && PredMeans(w, t.sources, t.predicates[ids[key]], First(t.seen, key).value)
  }

  /** What was compiled is sound. */
  ghost predicate CompiledOk(w: World, t: Tables, ids: map<Expr, nat>, atoms: seq<Option<seq<Atom>>>) {
    && TableOk(w, t.sources, t.predicates) && AtomsKnown(t.predicates, atoms)
    && SeenAreCompiled(w, t.seen, ids) && IdsMean(w, t, ids)
  }

  lemma CompiledKept(w: World, a: Tables, b: Tables, ids: map<Expr, nat>, atoms: seq<Option<seq<Atom>>>)
    requires CompiledOk(w, a, ids, atoms)
    requires SourcesGrow(a.sources, b.sources) && b.predicates == a.predicates && b.seen == a.seen
    ensures CompiledOk(w, b, ids, atoms)
  {
    forall p | 0 <= p < |a.predicates|
      ensures PredOk(w, b.sources, a.predicates[p])
      ensures forall leaf :: PredMeans(w, a.sources, a.predicates[p], leaf) ==>
              PredMeans(w, b.sources, a.predicates[p], leaf)
    {
      PredKept(w, a.sources, b.sources, a.predicates[p]);
    }
  }

  lemma SeenAgain(w: World, t: Tables, ids: map<Expr, nat>, atoms: seq<Option<seq<Atom>>>, leaf: Expr)
    requires CompiledOk(w, t, ids, atoms) && IsLeaf(leaf) && LeafKey(leaf) in ids
    ensures Rules.Compiles(w, leaf)
    ensures CompiledOk(w, t.(seen := t.seen + [leaf]), ids, atoms)
    ensures First(t.seen + [leaf], LeafKey(leaf)) == First(t.seen, LeafKey(leaf))
  {
    SeenOnceMore(w, t.seen, ids, leaf);
    IdsMeanAgain(w, t, ids, leaf);
    hide SeenAreCompiled, IdsMean, TableOk;
  }

  /** A test written like one seen compiles as that does. */
  lemma SeenOnceMore(w: World, seen: seq<Expr>, ids: map<Expr, nat>, leaf: Expr)
    requires SeenAreCompiled(w, seen, ids) && IsLeaf(leaf) && LeafKey(leaf) in ids && First(seen, LeafKey(leaf)).Some?
    ensures Rules.Compiles(w, leaf) && SeenAreCompiled(w, seen + [leaf], ids)
  {
    var first := First(seen, LeafKey(leaf)).value;
    var l :| 0 <= l < |seen| && seen[l] == first;
    assert Rules.Compiles(w, seen[l]) && IsLeaf(seen[l]);
    WrittenAlikeCompile(w, seen[l], leaf);
    hide Rules.Compiles, LeafKey, IsLeaf, First;
  }

  lemma WrittenAlikeCompile(w: World, a: Expr, b: Expr)
    requires IsLeaf(a) && IsLeaf(b) && LeafKey(a) == LeafKey(b)
    ensures Rules.Compiles(w, a) <==> Rules.Compiles(w, b)
  {
  }

  lemma IdsMeanAgain(w: World, t: Tables, ids: map<Expr, nat>, leaf: Expr)
    requires IdsMean(w, t, ids) && LeafKey(leaf) in ids
    ensures IdsMean(w, t.(seen := t.seen + [leaf]), ids)
    ensures First(t.seen + [leaf], LeafKey(leaf)) == First(t.seen, LeafKey(leaf))
  {
    hide PredMeans, LeafKey, First;
    forall key | key in ids ensures First(t.seen + [leaf], key) == First(t.seen, key) {
      FirstIsKept(t.seen, leaf, key);
    }
  }

  lemma SeenFirst(w: World, t: Tables, ids: map<Expr, nat>, atoms: seq<Option<seq<Atom>>>, leaf: Expr, pred: Pred)
    requires CompiledOk(w, t, ids, atoms) && IsLeaf(leaf) && LeafKey(leaf) !in ids
    requires Rules.Compiles(w, leaf) && PredOk(w, t.sources, pred) && PredMeans(w, t.sources, pred, leaf)
    ensures CompiledOk(w, Tables(t.sources, t.predicates + [pred], t.seen + [leaf]),
                       ids[LeafKey(leaf) := |t.predicates|], atoms + [AtomsOf(pred)])
    ensures First(t.seen + [leaf], LeafKey(leaf)) == Some(leaf)
  {
    NewIsFirst(w, t, ids, leaf);
    SeenMore(w, t.seen, ids, leaf, |t.predicates|);
    IdsMeanMore(w, t, ids, leaf, pred);
    hide IdsMean, SeenAreCompiled, PredOk, First;
  }

  lemma NewIsFirst(w: World, t: Tables, ids: map<Expr, nat>, leaf: Expr)
    requires SeenAreCompiled(w, t.seen, ids) && LeafKey(leaf) !in ids
    ensures First(t.seen, LeafKey(leaf)).None? && First(t.seen + [leaf], LeafKey(leaf)) == Some(leaf)
  {
    assert forall l :: 0 <= l < |t.seen| ==> LeafKey(t.seen[l]) in ids;
    FirstIsKept(t.seen, leaf, LeafKey(leaf));
  }

  lemma SeenMore(w: World, seen: seq<Expr>, ids: map<Expr, nat>, leaf: Expr, id: nat)
    requires SeenAreCompiled(w, seen, ids) && IsLeaf(leaf) && Rules.Compiles(w, leaf)
    ensures SeenAreCompiled(w, seen + [leaf], ids[LeafKey(leaf) := id])
  {
    hide Rules.Compiles, LeafKey, IsLeaf;
  }

  lemma IdsMeanMore(w: World, t: Tables, ids: map<Expr, nat>, leaf: Expr, pred: Pred)
    requires IdsMean(w, t, ids) && LeafKey(leaf) !in ids && First(t.seen + [leaf], LeafKey(leaf)) == Some(leaf)
    requires PredMeans(w, t.sources, pred, leaf)
    ensures IdsMean(w, Tables(t.sources, t.predicates + [pred], t.seen + [leaf]), ids[LeafKey(leaf) := |t.predicates|])
  {
    hide PredMeans, LeafKey, First;
    forall key | key in ids
      ensures First(t.seen + [leaf], key) == First(t.seen, key)
    {
      FirstIsKept(t.seen, leaf, key);
    }
  }

  lemma TestMeansLeaf(w: World, t: Tables, ids: map<Expr, nat>, atoms: seq<Option<seq<Atom>>>, leaf: Expr)
    requires CompiledOk(w, t, ids, atoms) && IsLeaf(leaf) && LeafKey(leaf) in ids
    ensures NodeMeans(w, t, Test_(ids[LeafKey(leaf)]), leaf)
  {
  }

  lemma AllMeans(w: World, t: Tables, nodes: seq<Node>, operands: seq<Expr>)
    requires |nodes| == |operands| && forall k :: 0 <= k < |nodes| ==> NodeMeans(w, t, nodes[k], operands[k])
    ensures NodeMeans(w, t, All(nodes), And(operands))
  {
    var shared := Shared(t.seen, And(operands));
    forall event ensures NodeHolds(w, t.sources, t.predicates, All(nodes), event) <==> Holds(w, false, shared, event) {
      assert forall k :: 0 <= k < |nodes| ==>
        (NodeHolds(w, t.sources, t.predicates, nodes[k], event) <==> Holds(w, false, shared.operands[k], event));
    }
  }

  lemma AnyMeans(w: World, t: Tables, nodes: seq<Node>, operands: seq<Expr>)
    requires |nodes| == |operands| && forall k :: 0 <= k < |nodes| ==> NodeMeans(w, t, nodes[k], operands[k])
    ensures NodeMeans(w, t, Any(nodes), Or(operands))
  {
    var shared := Shared(t.seen, Or(operands));
    forall event ensures NodeHolds(w, t.sources, t.predicates, Any(nodes), event) <==> Holds(w, false, shared, event) {
      assert forall k :: 0 <= k < |nodes| ==>
        (NodeHolds(w, t.sources, t.predicates, nodes[k], event) <==> Holds(w, false, shared.operands[k], event));
    }
  }

  lemma NoMeans(w: World, t: Tables, node: Node, operand: Expr)
    requires NodeMeans(w, t, node, operand)
    ensures NodeMeans(w, t, No(node), Not(operand))
  {
  }

  /** Each node means its operand, which compiles. */
  ghost predicate AllMean(w: World, t: Tables, nodes: seq<Node>, operands: seq<Expr>) {
    && |nodes| == |operands|
    && forall k :: 0 <= k < |nodes| ==> Rules.Compiles(w, operands[k]) && NodeMeans(w, t, nodes[k], operands[k])
  }

  lemma NoNodes(w: World, t: Tables)
    ensures AllMean(w, t, [], []) && Grow(t, t)
  {
  }

  lemma MeantInTurn(w: World, t: Tables, nodes: seq<Node>, operands: seq<Expr>)
    requires AllMean(w, t, nodes, operands)
    ensures |nodes| == |operands|
    ensures forall k :: 0 <= k < |operands| ==> Rules.Compiles(w, operands[k]) && NodeMeans(w, t, nodes[k], operands[k])
  {
  }

  lemma OneMeansMore(w: World, t: Tables, nodes: seq<Node>, operands: seq<Expr>, node: Node, k: nat)
    requires k < |operands| && AllMean(w, t, nodes, operands[..k])
    requires Rules.Compiles(w, operands[k]) && NodeMeans(w, t, node, operands[k])
    ensures AllMean(w, t, nodes + [node], operands[..k + 1])
  {
    hide NodeMeans;
  }

  lemma MeaningsKept(
    w: World, a: Tables, b: Tables, nodes: seq<Node>, operands: seq<Expr>)
    requires Grow(a, b) && TableOk(w, a.sources, a.predicates) && AllMean(w, a, nodes, operands)
    ensures AllMean(w, b, nodes, operands)
  {
    forall k | 0 <= k < |nodes| ensures NodeMeans(w, b, nodes[k], operands[k]) {
      MeaningKept(w, a, b, nodes[k], operands[k]);
    }
  }

  // ------------------------------------------------------- a whole group

  lemma {:induction false} BeforeGrows(literals: seq<seq<string>>, s: nat, t: nat)
    requires s < t <= |literals|
    ensures Before(literals, s) + |literals[s]| <= Before(literals, t)
  {
    if s < t - 1 { BeforeGrows(literals, s, t - 1); }
  }

  lemma TableIsNumbered(sources: seq<(Origin, bool)>, literals: seq<seq<string>>)
    requires |sources| == |literals|
    ensures Numbered(SourceTable(sources, literals), Before(literals, |literals|))
  {
    forall s, t | 0 <= s < t <= |literals| { BeforeGrows(literals, s, t); }
  }

  /** A group that can be evaluated: its predicates are sound, its literals
      numbered apart, and its rules woken by their triggers. */
  ghost predicate GroupOk(w: World, g: Group) {
    && TableOk(w, g.sources, g.predicates)
    && (forall p :: 0 <= p < |g.rules| ==> NodeOk(|g.predicates|, g.rules[p].1))
    && Numbered(g.sources, g.literals) && |g.triggers| == g.literals
    && (forall p :: 0 <= p < |g.rules| ==>
          WokenBy(g.sources, g.triggers, g.untriggered, p, Trigger(g.sources, g.predicates, g.rules[p].1)))
    && (forall p :: p in g.untriggered ==> p < |g.rules|)
    && (forall x, p :: 0 <= x < |g.triggers| && p in g.triggers[x] ==> p < |g.rules|)
  }

  /** A group's rules are `members`, and each is true of the events its
      condition is, its tests shared among the group. */
  ghost predicate GroupMeans(w: World, g: Group, rules: seq<Rule>, members: seq<nat>)
    requires forall m :: 0 <= m < |members| ==> members[m] < |rules|
  {
    |g.rules| == |members| && forall p :: 0 <= p < |members| ==>
      g.rules[p].0 == members[p] &&
      forall event :: NodeHolds(w, g.sources, g.predicates, g.rules[p].1, event) <==>
        Holds(w, false, Shared(LeavesOfRules(rules, members), rules[members[p]].condition), event)
  }

  ghost predicate NodesMean(w: World, t: Tables, nodes: seq<Node>, rules: seq<Rule>, members: seq<nat>)
    requires forall m :: 0 <= m < |members| ==> members[m] < |rules|
  {
    |nodes| == |members| && forall m :: 0 <= m < |nodes| ==> NodeMeans(w, t, nodes[m], rules[members[m]].condition)
  }

  lemma NodesMeanMore(
    w: World, a: Tables, b: Tables, nodes: seq<Node>, node: Node, rules: seq<Rule>, members: seq<nat>, member: nat)
    requires forall m :: 0 <= m < |members| ==> members[m] < |rules|
    requires Grow(a, b) && TableOk(w, a.sources, a.predicates) && NodesMean(w, a, nodes, rules, members)
    requires member < |rules| && NodeMeans(w, b, node, rules[member].condition)
    ensures NodesMean(w, b, nodes + [node], rules, members + [member])
  {
    hide NodeMeans;
    forall m | 0 <= m < |nodes| ensures NodeMeans(w, b, nodes[m], rules[members[m]].condition) {
      MeaningKept(w, a, b, nodes[m], rules[members[m]].condition);
    }
  }

  lemma SameLength(w: World, t: Tables, nodes: seq<Node>, rules: seq<Rule>, members: seq<nat>)
    requires forall m :: 0 <= m < |members| ==> members[m] < |rules|
    requires NodesMean(w, t, nodes, rules, members)
    ensures |nodes| == |members|
  {
  }

  lemma BuiltGroupMeans(w: World, t: Tables, nodes: seq<Node>, rules: seq<Rule>, members: seq<nat>, g: Group)
    requires forall m :: 0 <= m < |members| ==> members[m] < |rules|
    requires NodesMean(w, t, nodes, rules, members) && t.seen == LeavesOfRules(rules, members)
    requires t.sources == g.sources && t.predicates == g.predicates
    requires |g.rules| == |nodes| && forall p :: 0 <= p < |nodes| ==> g.rules[p] == (members[p], nodes[p])
    ensures GroupMeans(w, g, rules, members)
    ensures forall p :: 0 <= p < |g.rules| ==> NodeOk(|g.predicates|, g.rules[p].1)
  {
  }

  // ------------------------------------------- what a new predicate means

  lemma LiteralMeans(w: World, sources: seq<Source>, leaf: Expr, source: nat, literal: nat)
    requires leaf.Keyword? || (leaf.Field? && leaf.test.Str?)
    requires ShapeOf(TextTestOf(leaf).pattern).Some? && SourceHas(sources, (source, literal))
    requires sources[source].origin == OriginOf(leaf) && sources[source].cased == TextTestOf(leaf).cased
    requires LiteralText(sources, (source, literal)) == ShapeOf(TextTestOf(leaf).pattern).value.0
    ensures PredMeans(w, sources, Pred.Literal(source, literal, ShapeOf(TextTestOf(leaf).pattern).value.1), leaf)
  {
    forall event { StringTestReadsSource(w, leaf, event); }
    forall t { ShapeDecidesPattern(TextTestOf(leaf).pattern, t); }
  }

  lemma GeneralMeans(w: World, sources: seq<Source>, leaf: Expr, source: nat, required: Option<nat>)
    requires leaf.Keyword? || (leaf.Field? && leaf.test.Str?)
    requires source < |sources|
    requires sources[source].origin == OriginOf(leaf) && sources[source].cased == TextTestOf(leaf).cased
    ensures PredMeans(w, sources, General(source, required, TextTestOf(leaf).pattern), leaf)
  {
    forall event { StringTestReadsSource(w, leaf, event); }
  }

  /** The required literals, each found in the table, are enough to wait for. */
  lemma LiteralsSuffice(
    w: World, sources: seq<Source>, source: nat, indices: seq<nat>, pattern: string, flags: Flags)
    requires ExpressionsMatch(w) && Required.RequiredLiterals(w.beyond, w.parse(pattern, flags)).Some?
    requires var required := Required.RequiredLiterals(w.beyond, w.parse(pattern, flags)).value;
             |indices| == |required| && forall i :: 0 <= i < |indices| ==>
                 LiteralText(sources, (source, indices[i])) == required[i]
    ensures Suffice(w, sources, source, indices, pattern, flags)
  {
    forall text | w.isMatch(pattern, flags, text)
      ensures exists l :: l in indices && Contains(Fold(w.beyond, text), LiteralText(sources, (source, l)))
    {
      var parsed := w.parse(pattern, flags);
      Required.LiteralsAreRequired(w.look, w.beyond, parsed.value, text);
      var required := Required.RequiredLiterals(w.beyond, parsed).value;
      var k :| 0 <= k < |required| && Contains(Fold(w.beyond, text), required[k]);
      assert indices[k] in indices;
    }
  }

  /** The literals at `indices` of a source are `texts`. */
  ghost predicate AreTexts(sources: seq<Source>, source: nat, indices: seq<nat>, texts: seq<string>) {
    |indices| == |texts| && forall i :: 0 <= i < |indices| ==>
      SourceHas(sources, (source, indices[i])) && LiteralText(sources, (source, indices[i])) == texts[i]
  }

  lemma OneTextMore(
      before: Tables, after: Tables, source: nat, indices: seq<nat>, texts: seq<string>, index: nat,
      literals: seq<string>)
    requires AreTexts(before.sources, source, indices, texts) && Grow(before, after)
    requires source < |after.sources| && after.sources[source].literals == literals && index < |literals|
    ensures AreTexts(after.sources, source, indices + [index], texts + [literals[index]])
  {
    forall i | 0 <= i < |indices|
      ensures SourceHas(after.sources, (source, indices[i]))
              && LiteralText(after.sources, (source, indices[i])) == texts[i]
    {
      LiteralTextKept(before.sources, after.sources, (source, indices[i]));
    }
  }

  class GroupBuilder {
    var sources: seq<(Origin, bool)>
    var literals: seq<seq<string>>
    var literalIds: map<(nat, string), nat>
    var predicates: seq<Pred>
    var predicateIds: map<Expr, nat>
    /** Per predicate, the atoms it may wait for: whenever it is true, one of them
        was found. */
    var atoms: seq<Option<seq<Atom>>>
    ghost var seen: seq<Expr>

    ghost function Filled(): Tables
      requires |sources| == |literals|
      reads this
    {
      Tables(SourceTable(sources, literals), predicates, seen)
    }

    ghost predicate Valid(w: World)
      reads this
    {
      && |sources| == |literals|
      && (forall i, j :: 0 <= i < j < |sources| ==> sources[i] != sources[j])
      && LiteralIds(literals, literalIds)
      && CompiledOk(w, Filled(), predicateIds, atoms)
    }

    constructor (ghost w: World)
      ensures Valid(w) && Filled() == Tables([], [], [])
    {
      sources, literals, literalIds := [], [], map[];
      predicates, predicateIds, atoms, seen := [], map[], [], [];
    }

    method AddSource(ghost w: World, source: (Origin, bool))
      requires Valid(w) && source !in sources
      modifies this`sources, this`literals
      ensures Valid(w) && Grow(old(Filled()), Filled())
      ensures sources == old(sources) + [source] && literals == old(literals) + [[]]
    {
      hide CompiledOk, LiteralIds, SourceTable, SourcesGrow, Grow;
      ghost var before := Filled();
      SourceAdded(sources, literals, literalIds, source);
      sources, literals := sources + [source], literals + [[]];
      CompiledKept(w, before, Filled(), predicateIds, atoms);
      GrowsBySources(before, Filled());
    }

    /** The source of `origin`, added on first sight. */
    method SourceOf(ghost w: World, origin: Origin, cased: bool) returns (index: nat)
      requires Valid(w)
      modifies this
      ensures Valid(w) && Grow(old(Filled()), Filled())
      ensures predicates == old(predicates) && predicateIds == old(predicateIds) && seen == old(seen)
      ensures index < |sources| && sources[index] == (origin, cased)
      ensures literals[..old(|literals|)] == old(literals)
              && (|literals| > old(|literals|) ==> literals[old(|literals|)..] == [[]])
    {
      hide CompiledOk, LiteralIds, Grow;
      index := 0;
      GrowsToItself(Filled());
      while index < |sources|
        invariant index <= |sources| && forall i :: 0 <= i < index ==> sources[i] != (origin, cased)
      {
        if sources[index] == (origin, cased) { return; }
        index := index + 1;
      }
      AddSource(w, (origin, cased));
    }

    /** The literal `text` of a source, added on first sight. */
    method LiteralOf(ghost w: World, source: nat, text: string) returns (index: nat)
      requires Valid(w) && source < |sources|
      modifies this
      ensures Valid(w) && Grow(old(Filled()), Filled())
      ensures sources == old(sources) && predicates == old(predicates) && predicateIds == old(predicateIds)
              && seen == old(seen)
      ensures index < |literals[source]| && literals[source][index] == text
    {
      if (source, text) in literalIds { return literalIds[(source, text)]; }
      ghost var before := Filled();
      index := |literals[source]|;
      LiteralAdded(sources, literals, literalIds, source, text);
      literals := literals[source := literals[source] + [text]];
      literalIds := literalIds[(source, text) := index];
      CompiledKept(w, before, Filled(), predicateIds, atoms);
    }

    /** The compiled form of a wildcard test. Its contract is the test's meaning,
        whichever of the forms was taken. */
    method StringPredicate(ghost w: World, source: nat, ghost leaf: Expr, pattern: seq<Part>)
      returns (pred: Pred, atom: Option<Atom>)
      requires Valid(w) && source < |sources|
      requires (leaf.Keyword? || (leaf.Field? && leaf.test.Str?)) && TextTestOf(leaf).pattern == pattern
      requires sources[source] == (OriginOf(leaf), TextTestOf(leaf).cased)
      modifies this
      ensures Valid(w) && Grow(old(Filled()), Filled())
      ensures predicates == old(predicates) && predicateIds == old(predicateIds) && seen == old(seen)
      ensures PredOk(w, Filled().sources, pred) && PredMeans(w, Filled().sources, pred, leaf)
      ensures AtomsOf(pred) == if atom.Some? then Some([atom.value]) else None
    {
      var shaped := ShapeOf(pattern);
      if shaped.Some? && shaped.value.0 != "" {
        var literal := LiteralOf(w, source, shaped.value.0);
        LiteralMeans(w, Filled().sources, leaf, source, literal);
        return Pred.Literal(source, literal, shaped.value.1), Some((source, literal));
      }
      var longest := LongestLiteral(pattern);
      if longest.Some? {
        var literal := LiteralOf(w, source, longest.value);
        GeneralMeans(w, Filled().sources, leaf, source, Some(literal));
        return General(source, Some(literal), pattern), Some((source, literal));
      }
      GeneralMeans(w, Filled().sources, leaf, source, None);
      return General(source, None, pattern), None;
    }

    /** The literals `texts` of a source, each added on first sight. */
    method LiteralsOf(ghost w: World, source: nat, texts: seq<string>) returns (indices: seq<nat>)
      requires Valid(w) && source < |sources|
      modifies this
      ensures Valid(w) && Grow(old(Filled()), Filled())
      ensures sources == old(sources) && predicates == old(predicates) && predicateIds == old(predicateIds)
              && seen == old(seen)
      ensures AreTexts(Filled().sources, source, indices, texts)
    {
      hide CompiledOk, LiteralIds, SourceHas, LiteralText, SourceTable, Grow;
      indices := [];
      GrowsToItself(Filled());
      for k := 0 to |texts|
        invariant Valid(w) && Grow(old(Filled()), Filled()) && source < |sources|
        invariant sources == old(sources) && predicates == old(predicates) && predicateIds == old(predicateIds)
                  && seen == old(seen)
        invariant |indices| == k && AreTexts(Filled().sources, source, indices, texts[..k])
      {
        ghost var before := Filled();
        var index := LiteralOf(w, source, texts[k]);
        OneTextMore(before, Filled(), source, indices, texts[..k], index, literals[source]);
        assert texts[..k + 1] == texts[..k] + [texts[k]];
        GrowTransitive(old(Filled()), before, Filled());
        indices := indices + [index];
      }
      assert texts[..|texts|] == texts;
    }

    /** An atom for each required literal on the folded source of the paths. If the
        expression matches, one of the atoms is true. */
    method ExpressionLiterals(w: World, paths: seq<Path>, pattern: string, flags: Flags)
      returns (wanted: Option<(nat, seq<nat>)>)
      requires Valid(w) && ExpressionsMatch(w)
      modifies this
      ensures Valid(w) && Grow(old(Filled()), Filled())
      ensures predicates == old(predicates) && predicateIds == old(predicateIds) && seen == old(seen)
      ensures PredOk(w, Filled().sources, Other(paths, Expression(pattern, flags), wanted))
    {
      var required := Required.RequiredLiterals(w.beyond, w.parse(pattern, flags));
      if required.None? { return None; }
      var source := SourceOf(w, Paths(paths), false);
      ghost var between := Filled();
      var indices := LiteralsOf(w, source, required.value);
      GrowTransitive(old(Filled()), between, Filled());
      LiteralsSuffice(w, Filled().sources, source, indices, pattern, flags);
      wanted := Some((source, indices));
    }

    /** A text test's own source, and the predicate on it. */
    method TextPredicate(ghost w: World, leaf: Expr) returns (r: (Pred, Option<seq<Atom>>))
      requires Valid(w) && (leaf.Keyword? || (leaf.Field? && leaf.test.Str?))
      modifies this
      ensures Valid(w) && Grow(old(Filled()), Filled())
      ensures predicates == old(predicates) && predicateIds == old(predicateIds) && seen == old(seen)
      ensures PredOk(w, Filled().sources, r.0) && PredMeans(w, Filled().sources, r.0, leaf) && r.1 == AtomsOf(r.0)
    {
      hide CompiledOk, Grow;
      var test := TextTestOf(leaf);
      var source := SourceOf(w, OriginOf(leaf), test.cased);
      ghost var between := Filled();
      var pred, atom := StringPredicate(w, source, leaf, test.pattern);
      GrowTransitive(old(Filled()), between, Filled());
      return (pred, if atom.Some? then Some([atom.value]) else None);
    }

    /** Compiles a test that shares with none before it. The error is decided by the
        expression alone, so that building a group fails exactly when a condition does
        not compile. */
    method NewPredicate(w: World, leaf: Expr) returns (r: Result<(Pred, Option<seq<Atom>>), string>)
      requires Valid(w) && ExpressionsMatch(w) && IsLeaf(leaf)
      modifies this
      ensures Valid(w) && Grow(old(Filled()), Filled())
      ensures predicates == old(predicates) && predicateIds == old(predicateIds) && seen == old(seen)
      ensures r.Ok? <==> Rules.Compiles(w, leaf)
      ensures r.Ok? ==> PredOk(w, Filled().sources, r.value.0) && PredMeans(w, Filled().sources, r.value.0, leaf)
                        && r.value.1 == AtomsOf(r.value.0)
    {
      hide Grow, CompiledOk, LiteralIds;
      GrowsToItself(Filled());
      if leaf.Keyword? || leaf.test.Str? {
        var text := TextPredicate(w, leaf);
        return Ok(text);
      }
      var paths, test := leaf.paths, leaf.test;
      match test
      case Regex(pattern, flags) =>
        var wanted := ExpressionLiterals(w, paths, pattern, flags);
        if !RegexCompiles(w, pattern, flags) { return Err(pattern); }
        var atom := if wanted.Some? then Some(Paired(wanted.value.0, wanted.value.1)) else None;
        return Ok((Other(paths, Expression(pattern, flags), wanted), atom));
      case _ =>
        return Ok((Other(paths, Plain(test), None), None));
    }

    /** The predicate of a test, created on first sight. */
    method PredicateOf(w: World, leaf: Expr) returns (r: Result<nat, string>)
      requires Valid(w) && ExpressionsMatch(w) && IsLeaf(leaf)
      modifies this
      ensures r.Ok? <==> Rules.Compiles(w, leaf)
      ensures r.Ok? ==> Valid(w) && Grow(old(Filled()), Filled()) && seen == old(seen) + [leaf]
      ensures r.Ok? ==> NodeMeans(w, Filled(), Test_(r.value), leaf)
    {
      hide CompiledOk, LiteralIds, NodeMeans, PredMeans, PredOk;
      var key := LeafKey(leaf);
      if key in predicateIds {
        SeenAgain(w, Filled(), predicateIds, atoms, leaf);
        seen := seen + [leaf];
        TestMeansLeaf(w, Filled(), predicateIds, atoms, leaf);
        return Ok(predicateIds[key]);
      }
      var made := NewPredicate(w, leaf);
      if made.Err? { return Err(made.error); }
      var (pred, atom) := made.value;
      SeenFirst(w, Filled(), predicateIds, atoms, leaf, pred);
      r := Ok(|predicates|);
      predicates, atoms := predicates + [pred], atoms + [atom];
      predicateIds, seen := predicateIds[key := r.value], seen + [leaf];
      TestMeansLeaf(w, Filled(), predicateIds, atoms, leaf);
    }

    /** The compiled form of a condition. */
    method NodeOf(w: World, expr: Expr) returns (r: Result<Node, string>)
      requires Valid(w) && ExpressionsMatch(w)
      modifies this
      ensures r.Ok? <==> Rules.Compiles(w, expr)
      ensures r.Ok? ==> Valid(w) && Grow(old(Filled()), Filled()) && seen == old(seen) + Leaves(expr)
      ensures r.Ok? ==> NodeMeans(w, Filled(), r.value, expr)
      decreases expr, 0
    {
      hide CompiledOk, LiteralIds, NodeMeans;
      match expr
      case And(operands) =>
        var nodes := NodesOf(w, operands);
        if nodes.Err? { return Err(nodes.error); }
        AllMeans(w, Filled(), nodes.value, operands);
        return Ok(All(nodes.value));
      case Or(operands) =>
        var nodes := NodesOf(w, operands);
        if nodes.Err? { return Err(nodes.error); }
        AnyMeans(w, Filled(), nodes.value, operands);
        return Ok(Any(nodes.value));
      case Not(operand) =>
        var node := NodeOf(w, operand);
        if node.Err? { return Err(node.error); }
        NoMeans(w, Filled(), node.value, operand);
        return Ok(No(node.value));
      case _ =>
        var id := PredicateOf(w, expr);
        match id
        case Err(error) => return Err(error);
        case Ok(p) => return Ok(Test_(p));
    }

    method NodesOf(w: World, operands: seq<Expr>) returns (r: Result<seq<Node>, string>)
      requires Valid(w) && ExpressionsMatch(w)
      modifies this
      ensures r.Ok? <==> forall k :: 0 <= k < |operands| ==> Rules.Compiles(w, operands[k])
      ensures r.Ok? ==> Valid(w) && Grow(old(Filled()), Filled()) && seen == old(seen) + LeavesOfAll(operands)
      ensures r.Ok? ==> |r.value| == |operands|
                        && forall k :: 0 <= k < |operands| ==> NodeMeans(w, Filled(), r.value[k], operands[k])
      decreases operands, 0
    {
      hide CompiledOk, LiteralIds, NodeMeans, AllMean, Grow;
      var nodes: seq<Node> := [];
      NoNodes(w, Filled());
      assert operands[..0] == [];
      for k := 0 to |operands|
        invariant Valid(w) && Grow(old(Filled()), Filled()) && seen == old(seen) + LeavesOfAll(operands[..k])
        invariant AllMean(w, Filled(), nodes, operands[..k])
      {
        ghost var before := Filled();
        ValidIsOk(w);
        var made := NodeOf(w, operands[k]);
        if made.Err? { return Err(made.error); }
        MeaningsKept(w, before, Filled(), nodes, operands[..k]);
        GrowTransitive(old(Filled()), before, Filled());
        LeavesOfNext(operands, k);
        OneMeansMore(w, Filled(), nodes, operands, made.value, k);
        nodes := nodes + [made.value];
      }
      assert operands[..|operands|] == operands;
      MeantInTurn(w, Filled(), nodes, operands);
      r := Ok(nodes);
    }

    lemma ValidIsOk(w: World)
      requires Valid(w)
      ensures TableOk(w, Filled().sources, Filled().predicates)
    {
    }

    /** The compiled conditions of `members`, or the first expression among
        them that does not compile. */
    method ConditionsOf(w: World, members: seq<nat>, rules: seq<Rule>) returns (r: Result<seq<Node>, string>)
      requires Valid(w) && ExpressionsMatch(w) && Filled() == Tables([], [], [])
      requires forall m :: 0 <= m < |members| ==> members[m] < |rules|
      modifies this
      ensures r.Ok? <==> forall m :: 0 <= m < |members| ==> Rules.Compiles(w, rules[members[m]].condition)
      ensures r.Ok? ==>
                Valid(w) && seen == LeavesOfRules(rules, members)
                && NodesMean(w, Filled(), r.value, rules, members)
    {
      hide TableOk, AtomsKnown, SeenAreCompiled, IdsMean, LiteralIds, NodeMeans;
      var nodes: seq<Node> := [];
      for m := 0 to |members|
        invariant Valid(w) && seen == LeavesOfRules(rules, members[..m])
        invariant NodesMean(w, Filled(), nodes, rules, members[..m])
        invariant forall j :: 0 <= j < m ==> Rules.Compiles(w, rules[members[j]].condition)
      {
        ghost var before := Filled();
        var made := NodeOf(w, rules[members[m]].condition);
        if made.Err? { return Err(made.error); }
        NodesMeanMore(w, before, Filled(), nodes, made.value, rules, members[..m], members[m]);
        assert members[..m + 1] == members[..m] + [members[m]];
        nodes := nodes + [made.value];
      }
      assert members[..|members|] == members;
      r := Ok(nodes);
    }

    /** A group of the rules `members`. */
    method Build(w: World, class_: Class, members: seq<nat>, rules: seq<Rule>) returns (r: Result<Group, string>)
      requires Valid(w) && ExpressionsMatch(w) && Filled() == Tables([], [], [])
      requires forall m :: 0 <= m < |members| ==> members[m] < |rules|
      modifies this
      ensures r.Ok? <==> forall m :: 0 <= m < |members| ==> Rules.Compiles(w, rules[members[m]].condition)
      ensures r.Ok? ==> r.value.class_ == class_ && GroupOk(w, r.value) && GroupMeans(w, r.value, rules, members)
    {
      hide TableOk, LiteralIds, NodesMean, WokenBy, Numbered;
      var nodes := ConditionsOf(w, members, rules);
      if nodes.Err? { return Err(nodes.error); }
      assert |nodes.value| == |members| by { SameLength(w, Filled(), nodes.value, rules, members); }
      var table, total := SourceTable(sources, literals), Before(literals, |literals|);
      TableIsNumbered(sources, literals);
      var indexed := seq(|members|, k requires 0 <= k < |members| => (members[k], nodes.value[k]));
      var triggers, untriggered := WakeLists(w, table, predicates, indexed, total);
      r := Ok(Group(class_, table, predicates, indexed, triggers, untriggered, total));
      BuiltGroupMeans(w, Filled(), nodes.value, rules, members, r.value);
    }
  }
}
