/** The engine over all classes. It is proved against each condition as it is
    shared, one rule at a time. */
module Engines {
  import opened Base
  import opened Events
  import opened Rules
  import opened Sharing
  import opened Compiled
  import opened Scratches
  import opened Building
  import opened Evaluation

  datatype Engine = Engine(rules: seq<Rule>, groups: seq<Group>)

  // ---------------------------------------------------------------- grouping

  /** The rules of one class condition, ascending. */
  function MembersOf(rules: seq<Rule>, class_: Class): (r: seq<nat>)
    ensures forall k: nat :: k in r <==> k < |rules| && rules[k].class_ == class_
    ensures forall i, j :: 0 <= i < j < |r| ==> r[i] < r[j]
  {
    if rules == [] then []
    else
      var last := |rules| - 1;
      var rest := MembersOf(rules[..last], class_);
      assert forall i :: 0 <= i < |rest| ==> rest[i] in rest;
      rest + if rules[last].class_ == class_ then [last] else []
  }

  /** The condition of a rule as the engine computes it: its tests shared with
      the rules of its class. */
  function SharedCondition(rules: seq<Rule>, k: nat): Expr
    requires k < |rules|
  {
    var members := MembersOf(rules, rules[k].class_);
    assert forall m :: 0 <= m < |members| ==> members[m] in members;
    Shared(LeavesOfRules(rules, members), rules[k].condition)
  }

  /** Whether the engine answers a rule: its class, and its shared condition
      with booleans passed over by expressions. */
  ghost predicate EngineMatches(w: World, rules: seq<Rule>, k: nat, event: Value)
    requires k < |rules|
  {
    HasClass(w, event, rules[k].class_) && Holds(w, false, SharedCondition(rules, k), event)
  }

  ghost predicate GroupOf(w: World, rules: seq<Rule>, g: Group) {
    GroupOk(w, g) && (forall m :: 0 <= m < |MembersOf(rules, g.class_)| ==> MembersOf(rules, g.class_)[m] < |rules|)
    && GroupMeans(w, g, rules, MembersOf(rules, g.class_))
  }

  predicate ClassAmong(groups: seq<Group>, class_: Class) {
    exists i :: 0 <= i < |groups| && groups[i].class_ == class_
  }

  /** Every rule is in the one group of its class. */
  ghost predicate EngineOk(w: World, e: Engine) {
    && (forall i :: 0 <= i < |e.groups| ==> GroupOf(w, e.rules, e.groups[i]))
    && (forall i, j :: 0 <= i < j < |e.groups| ==> e.groups[i].class_ != e.groups[j].class_)
    && (forall k :: 0 <= k < |e.rules| ==> ClassAmong(e.groups, e.rules[k].class_))
  }

  /** Each class condition met among the rules so far, with its rules. */
  ghost predicate Classified(rules: seq<Rule>, classes: seq<(Class, seq<nat>)>) {
    && (forall c :: 0 <= c < |classes| ==> classes[c].1 == MembersOf(rules, classes[c].0))
    && (forall c, d :: 0 <= c < d < |classes| ==> classes[c].0 != classes[d].0)
    && (forall k :: 0 <= k < |rules| ==> exists c :: 0 <= c < |classes| && classes[c].0 == rules[k].class_)
  }

  lemma OneRuleMore(rules: seq<Rule>, rule: Rule, class_: Class)
    ensures MembersOf(rules + [rule], class_)
            == MembersOf(rules, class_) + if rule.class_ == class_ then [|rules|] else []
  {
    assert (rules + [rule])[..|rules|] == rules;
  }

  lemma NoMembers(rules: seq<Rule>, class_: Class)
    requires forall k :: 0 <= k < |rules| ==> rules[k].class_ != class_
    ensures MembersOf(rules, class_) == []
  {
    var members := MembersOf(rules, class_);
    assert forall i :: 0 <= i < |members| ==> members[i] in members;
  }

  method Classify(rules: seq<Rule>, rule: Rule, classes: seq<(Class, seq<nat>)>) returns (r: seq<(Class, seq<nat>)>)
    requires Classified(rules, classes)
    ensures Classified(rules + [rule], r)
  {
    hide MembersOf;
    var at := 0;
    while at < |classes| && classes[at].0 != rule.class_
      invariant at <= |classes| && forall c :: 0 <= c < at ==> classes[c].0 != rule.class_
    {
      at := at + 1;
    }
    forall c | 0 <= c < |classes| { OneRuleMore(rules, rule, classes[c].0); }
    if at < |classes| {
      r := classes[at := (rule.class_, classes[at].1 + [|rules|])];
    } else {
      NoMembers(rules, rule.class_);
      OneRuleMore(rules, rule, rule.class_);
      r := classes + [(rule.class_, [|rules|])];
    }
    assert r[at].0 == rule.class_ && forall c :: 0 <= c < |classes| ==> r[c].0 == classes[c].0;
  }

  method ByClass(rules: seq<Rule>) returns (classes: seq<(Class, seq<nat>)>)
    ensures Classified(rules, classes)
  {
    classes := [];
    for n := 0 to |rules|
      invariant Classified(rules[..n], classes)
    {
      classes := Classify(rules[..n], rules[n], classes);
      assert rules[..n + 1] == rules[..n] + [rules[n]];
    }
    assert rules[..|rules|] == rules;
  }

  /** One group for every class, or an error. Errors are not the engine's own: the
      reference would refuse the same rules. */
  method New(w: World, rules: seq<Rule>) returns (r: Result<Engine, string>)
    requires ExpressionsMatch(w)
    ensures r.Ok? <==> forall k :: 0 <= k < |rules| ==> Rules.Compiles(w, rules[k].condition)
    ensures r.Ok? ==> EngineOk(w, r.value) && r.value.rules == rules
  {
    hide GroupOf, Rules.Compiles, Classified, MembersOf;
    var classes := ByClass(rules);
    var groups: seq<Group> := [];
    for c := 0 to |classes|
      invariant |groups| == c && AreBuilt(w, rules, classes, groups)
      invariant AllCompile(w, rules, classes[..c])
    {
      MembersAreInRange(rules, classes, c);
      var group := BuildGroup(w, rules, classes[c].0, classes[c].1);
      if group.Err? {
        return Err(group.error);
      }
      assert classes[..c + 1] == classes[..c] + [classes[c]];
      groups := groups + [group.value];
    }
    r := Ok(Engine(rules, groups));
    assert classes[..|classes|] == classes;
    AllAreGrouped(w, rules, classes, groups);
  }

  ghost predicate AreBuilt(w: World, rules: seq<Rule>, classes: seq<(Class, seq<nat>)>, groups: seq<Group>) {
    |groups| <= |classes| && forall i :: 0 <= i < |groups| ==>
        groups[i].class_ == classes[i].0 && GroupOf(w, rules, groups[i])
  }

  ghost predicate AllCompile(w: World, rules: seq<Rule>, classes: seq<(Class, seq<nat>)>) {
    forall i :: 0 <= i < |classes| ==> ClassCompiles(w, rules, classes[i].0)
  }

  ghost predicate ClassCompiles(w: World, rules: seq<Rule>, class_: Class) {
    forall m :: m in MembersOf(rules, class_) ==> m < |rules| && Rules.Compiles(w, rules[m].condition)
  }

  lemma MembersAreInRange(rules: seq<Rule>, classes: seq<(Class, seq<nat>)>, c: nat)
    requires Classified(rules, classes) && c < |classes|
    ensures classes[c].1 == MembersOf(rules, classes[c].0)
  {
  }

  lemma AllAreGrouped(w: World, rules: seq<Rule>, classes: seq<(Class, seq<nat>)>, groups: seq<Group>)
    requires Classified(rules, classes) && |groups| == |classes| && AreBuilt(w, rules, classes, groups)
    requires AllCompile(w, rules, classes)
    ensures EngineOk(w, Engine(rules, groups))
    ensures forall k :: 0 <= k < |rules| ==> Rules.Compiles(w, rules[k].condition)
  {
    hide GroupOf, Rules.Compiles;
    forall k | 0 <= k < |rules| ensures ClassAmong(groups, rules[k].class_) && Rules.Compiles(w, rules[k].condition) {
      var c :| 0 <= c < |classes| && classes[c].0 == rules[k].class_;
      assert groups[c].class_ == rules[k].class_ && k in MembersOf(rules, classes[c].0)
             && ClassCompiles(w, rules, classes[c].0);
    }
  }

  /** The group of a class, an error exactly when a rule of it has an expression
      the reference would refuse. */
  method BuildGroup(w: World, rules: seq<Rule>, class_: Class, members: seq<nat>) returns (r: Result<Group, string>)
    requires ExpressionsMatch(w) && members == MembersOf(rules, class_)
    ensures r.Ok? <==> ClassCompiles(w, rules, class_)
    ensures r.Ok? ==> r.value.class_ == class_ && GroupOf(w, rules, r.value)
  {
    hide GroupOk, GroupMeans, Rules.Compiles;
    assert forall m :: 0 <= m < |members| ==> members[m] in members;
    var builder := new GroupBuilder(w);
    r := builder.Build(w, class_, members, rules);
  }

  // ----------------------------------------------------------------- scratch

  class Scratch {
    var groups: seq<GroupScratch>
    ghost var Repr: set<object>

    ghost predicate Valid()
      reads this, Repr
    {
      && this in Repr
      && (forall i :: 0 <= i < |groups| ==> groups[i] in Repr && groups[i].Repr <= Repr && this !in groups[i].Repr)
      && (forall i :: 0 <= i < |groups| ==> groups[i].Idle())
      && (forall i, j :: 0 <= i < j < |groups| ==> groups[i].Repr !! groups[j].Repr)
    }

    /** Sized for `engine`, whichever engine it was made for. */
    predicate Fits(engine: Engine)
      reads this, groups
    {
      |groups| == |engine.groups| && forall i :: 0 <= i < |groups| ==> groups[i].Fits(engine.groups[i])
    }

    constructor (engine: Engine)
      ensures Valid() && Fits(engine) && fresh(Repr)
    {
      groups, Repr := [], {this};
      new;
      Replace(engine);
    }

    /** Replaces the working memory by one that fits `engine`. */
    method Replace(engine: Engine)
      modifies this
      ensures Valid() && Fits(engine) && fresh(Repr - {this})
    {
      groups, Repr := [], {this};
      for i := 0 to |engine.groups|
        invariant |groups| == i && Valid() && fresh(Repr - {this})
        invariant forall j :: 0 <= j < i ==> groups[j].Fits(engine.groups[j])
      {
        var one := new GroupScratch(engine.groups[i]);
        groups, Repr := groups + [one], Repr + one.Repr;
      }
    }
  }

  // --------------------------------------------------------------- matching

  /** Strictly ascending: in order, and each once. */
  predicate Ascending(s: seq<nat>) { forall i, j :: 0 <= i < j < |s| ==> s[i] < s[j] }

  /** What was matched among the first groups: the rules of their classes that
      the engine answers, each once. */
  ghost predicate MatchedAmong(w: World, e: Engine, event: Value, groups: seq<Group>, matched: seq<nat>) {
    NoDuplicates(matched) && forall k: nat :: k in matched <==>
      k < |e.rules| && ClassAmong(groups, e.rules[k].class_) && EngineMatches(w, e.rules, k, event)
  }

  /** What one group adds is its rules that match, none of them matched before. */
  lemma GroupAdds(w: World, e: Engine, event: Value, n: nat, before: seq<nat>, after: seq<nat>, positions: seq<nat>)
    requires EngineOk(w, e) && n < |e.groups| && HasClass(w, event, e.groups[n].class_)
    requires MatchedAmong(w, e, event, e.groups[..n], before)
    requires var g := e.groups[n];
             Adds(g, before, after, positions) && forall p :: 0 <= p < |g.rules| ==>
               (p in positions <==> NodeHolds(w, g.sources, g.predicates, g.rules[p].1, event))
    ensures MatchedAmong(w, e, event, e.groups[..n + 1], after)
  {
    hide GroupOk, NodeHolds, Holds, HasClass, MembersOf, Adds, ClassAmong;
    var g := e.groups[n];
    var members := MembersOf(e.rules, g.class_);
    assert GroupOf(w, e.rules, g);
    assert forall p :: 0 <= p < |members| ==> members[p] in members;
    AmongOneMore(e.groups, n);
    GroupAnswers(w, e, event, n, positions);
    AddsInRange(g, before, after, positions);
    AddsThese(g, before, after, positions);
    hide EngineOk, GroupOf, EngineMatches;
    forall k: nat ensures k in after <==>
      k < |e.rules| && ClassAmong(e.groups[..n + 1], e.rules[k].class_) && EngineMatches(w, e.rules, k, event)
    {
      AddsIfMatches(w, e, event, g, members, positions, k);
    }
  }

  lemma AddsIfMatches(w: World, e: Engine, event: Value, g: Group, members: seq<nat>, positions: seq<nat>, k: nat)
    requires members == MembersOf(e.rules, g.class_)
    requires |g.rules| == |members| && forall p :: 0 <= p < |members| ==>
               g.rules[p].0 == members[p] && members[p] < |e.rules| && e.rules[members[p]].class_ == g.class_
               && (p in positions <==> EngineMatches(w, e.rules, members[p], event))
    requires forall i :: 0 <= i < |positions| ==> positions[i] < |g.rules|
    ensures (exists i :: 0 <= i < |positions| && g.rules[positions[i]].0 == k) <==>
            k < |e.rules| && e.rules[k].class_ == g.class_ && EngineMatches(w, e.rules, k, event)
  {
    hide EngineMatches;
    if i :| 0 <= i < |positions| && g.rules[positions[i]].0 == k { assert positions[i] in positions; }
    if k < |e.rules| && e.rules[k].class_ == g.class_ && EngineMatches(w, e.rules, k, event) {
      assert k in members;
      var p :| 0 <= p < |members| && members[p] == k;
      var i :| 0 <= i < |positions| && positions[i] == p;
    }
  }

  /** The rules at the positions a group adds are those of its class that match. */
  lemma GroupAnswers(w: World, e: Engine, event: Value, n: nat, positions: seq<nat>)
    requires EngineOk(w, e) && n < |e.groups| && HasClass(w, event, e.groups[n].class_)
    requires var g := e.groups[n];
             forall p :: 0 <= p < |g.rules| ==>
               (p in positions <==> NodeHolds(w, g.sources, g.predicates, g.rules[p].1, event))
    ensures var g := e.groups[n];
            var members := MembersOf(e.rules, g.class_);
            |g.rules| == |members| && forall p :: 0 <= p < |members| ==>
              g.rules[p].0 == members[p] && members[p] < |e.rules| && e.rules[members[p]].class_ == g.class_
              && (p in positions <==> EngineMatches(w, e.rules, members[p], event))
  {
    hide GroupOk, NodeHolds, Holds, HasClass;
    var g := e.groups[n];
    var members := MembersOf(e.rules, g.class_);
    assert GroupOf(w, e.rules, g);
    assert forall p :: 0 <= p < |members| ==> members[p] in members;
  }

  lemma AddsInRange(g: Group, before: seq<nat>, after: seq<nat>, positions: seq<nat>)
    requires Adds(g, before, after, positions)
    ensures forall p :: p in positions ==> p < |g.rules|
    ensures forall i :: 0 <= i < |positions| ==> positions[i] < |g.rules|
  {
    assert forall i :: 0 <= i < |positions| ==> positions[i] in positions;
  }

  lemma AddsThese(g: Group, before: seq<nat>, after: seq<nat>, positions: seq<nat>)
    requires Adds(g, before, after, positions) && NoDuplicates(before)
    requires forall p, q :: 0 <= p < q < |g.rules| ==> g.rules[p].0 != g.rules[q].0
    requires forall p :: p in positions ==> p < |g.rules| && g.rules[p].0 !in before
    ensures NoDuplicates(after)
    ensures forall k: nat :: k in after <==>
              k in before || exists i :: 0 <= i < |positions| && g.rules[positions[i]].0 == k
  {
    assert forall i :: 0 <= i < |before| ==> after[i] == before[i];
    forall i, j | 0 <= i < j < |after| ensures after[i] != after[j] {
      if j >= |before| {
        var q := positions[j - |before|];
        assert q in positions && after[j] == g.rules[q].0;
        if i < |before| {
          assert before[i] in before;
        } else {
          var p := positions[i - |before|];
          assert p in positions && p != q && after[i] == g.rules[p].0;
        }
      }
    }
    forall k: nat
      ensures k in after <==> k in before || exists i :: 0 <= i < |positions| && g.rules[positions[i]].0 == k
    {
      if k in after {
        var i :| 0 <= i < |after| && after[i] == k;
        if i >= |before| { assert g.rules[positions[i - |before|]].0 == k; }
      }
      if i :| 0 <= i < |positions| && g.rules[positions[i]].0 == k { assert after[|before| + i] == k; }
      if k in before {
        var i :| 0 <= i < |before| && before[i] == k;
        assert after[i] == k;
      }
    }
  }

  lemma AmongOneMore(groups: seq<Group>, n: nat)
    requires n < |groups|
    requires forall i, j :: 0 <= i < j < |groups| ==> groups[i].class_ != groups[j].class_
    ensures forall class_ :: ClassAmong(groups[..n + 1], class_) <==>
            ClassAmong(groups[..n], class_) || class_ == groups[n].class_
    ensures !ClassAmong(groups[..n], groups[n].class_)
  {
    forall class_
      ensures ClassAmong(groups[..n + 1], class_) <==> ClassAmong(groups[..n], class_) || class_ == groups[n].class_
    {
      if ClassAmong(groups[..n], class_) {
        var i :| 0 <= i < n && groups[..n][i].class_ == class_;
        assert groups[..n + 1][i].class_ == class_;
      }
      assert groups[..n + 1][n] == groups[n];
    }
  }

  /** A group whose class the event lacks has no rule that matches. */
  lemma GroupSkipped(w: World, e: Engine, event: Value, n: nat, matched: seq<nat>)
    requires EngineOk(w, e) && n < |e.groups| && !HasClass(w, event, e.groups[n].class_)
    requires MatchedAmong(w, e, event, e.groups[..n], matched)
    ensures MatchedAmong(w, e, event, e.groups[..n + 1], matched)
  {
    hide GroupOf, Holds, HasClass;
    AmongOneMore(e.groups, n);
  }

  lemma NothingAmong(w: World, e: Engine, event: Value)
    ensures MatchedAmong(w, e, event, e.groups[..0], [])
  {
    hide EngineMatches;
  }

  predicate NatLe(a: nat, b: nat) { a <= b }

  lemma SortedOnceIsAscending(s: seq<nat>)
    requires NoDuplicates(s)
    ensures Ascending(Ordering.Sort(NatLe, s)) && forall k: nat :: k in Ordering.Sort(NatLe, s) <==> k in s
  {
    var sorted := Ordering.Sort(NatLe, s);
    Ordering.SortSorts(NatLe, s);
    forall k: nat ensures k in sorted <==> k in s {
      assert k in multiset(sorted) <==> k in multiset(s);
    }
    CountsAreOne(s);
    forall i, j | 0 <= i < j < |sorted| ensures sorted[i] < sorted[j] {
      assert NatLe(sorted[i], sorted[j]);
      if sorted[i] == sorted[j] {
        TwiceCounts(sorted, i, j);
      }
    }
  }

  lemma {:induction false} CountsAreOne(s: seq<nat>)
    requires NoDuplicates(s)
    ensures forall k: nat :: multiset(s)[k] <= 1
  {
    if s != [] {
      CountsAreOne(s[1..]);
      assert s == [s[0]] + s[1..];
      assert s[0] !in s[1..];
      assert s[0] !in multiset(s[1..]);
    }
  }

  lemma TwiceCounts(s: seq<nat>, i: nat, j: nat)
    requires i < j < |s| && s[i] == s[j]
    ensures multiset(s)[s[i]] >= 2
  {
    assert s == s[..j] + [s[j]] + s[j + 1..];
    assert s[..j][i] == s[i];
    assert s[i] in multiset(s[..j]);
  }

  /** Evaluates one group, or passes it over whole. */
  method MatchGroup(w: World, e: Engine, n: nat, event: Value, work: GroupScratch, before: seq<nat>)
    returns (after: seq<nat>)
    requires AutomataFind(w) && EngineOk(w, e) && n < |e.groups| && work.Idle() && work.Fits(e.groups[n])
    requires MatchedAmong(w, e, event, e.groups[..n], before)
    modifies work, work.texts
    ensures work.Idle() && work.Fits(e.groups[n]) && work.Repr == old(work.Repr)
    ensures MatchedAmong(w, e, event, e.groups[..n + 1], after)
  {
    hide GroupMeans, EngineMatches, HasClass, Adds, NodeHolds, MatchedAmong;
    assert GroupOf(w, e.rules, e.groups[n]);
    if HasClass(w, event, e.groups[n].class_) {
      ghost var positions;
      after, positions := Evaluate(w, e.groups[n], event, work, before);
      GroupAdds(w, e, event, n, before, after, positions);
    } else {
      after := before;
      GroupSkipped(w, e, event, n, before);
    }
  }

  /** All indices that `EngineMatches` holds of, in ascending order and without a
      repeat. The scratch may come from another event or another engine. */
  method MatchesInto(w: World, e: Engine, event: Value, scratch: Scratch) returns (matched: seq<nat>)
    requires AutomataFind(w) && EngineOk(w, e) && scratch.Valid()
    modifies scratch, scratch.Repr
    ensures scratch.Valid() && scratch.Fits(e) && fresh(scratch.Repr - old(scratch.Repr))
    ensures Ascending(matched)
    ensures forall k: nat :: k in matched <==> k < |e.rules| && EngineMatches(w, e.rules, k, event)
  {
    hide GroupOk, GroupOf, EngineMatches, MatchedAmong;
    NothingAmong(w, e, event);
    if !scratch.Fits(e) { scratch.Replace(e); }
    ghost var repr := scratch.Repr;
    ghost var works := scratch.groups;
    matched := [];
    for n := 0 to |e.groups|
      invariant scratch.Valid() && scratch.Fits(e) && scratch.Repr == repr && scratch.groups == works
      invariant MatchedAmong(w, e, event, e.groups[..n], matched)
    {
      matched := MatchNext(w, e, n, event, scratch, matched);
    }
    assert e.groups[..|e.groups|] == e.groups;
    AllAmong(w, e, event, matched);
    matched := Ordering.Sort(NatLe, matched);
  }

  /** The next group, evaluated with its own working memory. */
  method MatchNext(w: World, e: Engine, n: nat, event: Value, scratch: Scratch, before: seq<nat>)
    returns (after: seq<nat>)
    requires AutomataFind(w) && EngineOk(w, e) && n < |e.groups| && scratch.Valid() && scratch.Fits(e)
    requires MatchedAmong(w, e, event, e.groups[..n], before)
    modifies scratch.Repr
    ensures scratch.Valid() && scratch.Fits(e) && scratch.Repr == old(scratch.Repr)
            && scratch.groups == old(scratch.groups)
    ensures MatchedAmong(w, e, event, e.groups[..n + 1], after)
  {
    hide GroupOk, GroupOf, EngineMatches, MatchedAmong;
    after := MatchGroup(w, e, n, event, scratch.groups[n], before);
  }

  /** What every group added is every rule that matches; sorting makes it ascend. */
  lemma AllAmong(w: World, e: Engine, event: Value, matched: seq<nat>)
    requires EngineOk(w, e) && MatchedAmong(w, e, event, e.groups, matched)
    ensures Ascending(Ordering.Sort(NatLe, matched))
    ensures forall k: nat :: k in Ordering.Sort(NatLe, matched) <==>
            k < |e.rules| && EngineMatches(w, e.rules, k, event)
  {
    hide GroupOk, GroupOf, EngineMatches;
    SortedOnceIsAscending(matched);
  }
}
