/** When the engine answers a rule as the reference does: whenever the event
    divides none of its tests. An expression is divided by a boolean that alone
    it accepts, and a test of a number without an end by the numbers that tell
    it from another that serializes alike. */
module Agreement {
  import opened Base
  import opened Events
  import opened Rules
  import opened Sharing
  import opened Engines

  // ------------------------------------------------------------- booleans

  /** Every boolean among the values has its text in a string or a number too. */
  ghost predicate BooleansEchoed(values: seq<Value>) {
    forall v :: v in values && v.Bool? ==> exists o :: o in values && !o.Bool? && TextOf(o) == TextOf(v)
  }

  /** Expressions cannot tell whether booleans are read as text exactly when
      every boolean is echoed: the guard a caller can check. */
  lemma BooleansUnreadExactlyWhenEchoed(values: seq<Value>)
    ensures BooleansEchoed(values) <==>
            forall accepts: string -> bool :: SomeText(accepts, true, values) <==> SomeText(accepts, false, values)
  {
    if BooleansEchoed(values) {
      forall accepts: string -> bool ensures SomeText(accepts, true, values) <==> SomeText(accepts, false, values) {
        if v :| v in values && TextOf(v).Some? && accepts(TextOf(v).value) {
          if v.Bool? {
            var o :| o in values && !o.Bool? && TextOf(o) == TextOf(v);
          }
        }
      }
    }
    if forall accepts: string -> bool :: SomeText(accepts, true, values) <==> SomeText(accepts, false, values) {
      forall v | v in values && v.Bool? ensures exists o :: o in values && !o.Bool? && TextOf(o) == TextOf(v) {
        var text := TextOf(v).value;
        var accepts := (s: string) => s == text;
        assert SomeText(accepts, true, values);
        assert SomeText(accepts, false, values);
      }
    }
  }

  /** If a boolean's text is accepted, so is that of another value. */
  ghost predicate BooleansAddNothing(accepts: string -> bool, values: seq<Value>) {
    (exists v :: v in values && v.Bool? && accepts(TextOf(v).value)) ==>
      exists v :: v in values && !v.Bool? && TextOf(v).Some? && accepts(TextOf(v).value)
  }

  /** One expression cannot tell whether booleans are read as text exactly when
      they add nothing to what it accepts. */
  lemma BooleansUnreadExactly(accepts: string -> bool, values: seq<Value>)
    ensures (SomeText(accepts, true, values) <==> SomeText(accepts, false, values)) <==>
            BooleansAddNothing(accepts, values)
  {
  }

  // ------------------------------------------------- numbers without an end

  const PLUS := Infinite(false)
  const MINUS := Infinite(true)

  predicate IsPair(x: Numeric, y: Numeric, a: Numeric, b: Numeric) { (x == a && y == b) || (x == b && y == a) }

  ghost predicate Reads(w: World, values: seq<Value>, number: Numeric) {
    exists v :: v in values && w.number(v) == Some(number)
  }

  ghost predicate ReadsFinite(w: World, values: seq<Value>) {
    exists v :: v in values && w.number(v).Some? && (w.number(v).value.Integer? || w.number(v).value.Float?)
  }

  /** What the values must read as for two of the bounds without an end to be
      compared with alike. */
  predicate BoundsAgree(op: Comparison, x: Numeric, y: Numeric, finite: bool, plus: bool, minus: bool) {
    match op
    case Less => x == PLUS || y == PLUS ==> !finite && !minus
    case Greater => x == MINUS || y == MINUS ==> !finite && !plus
    case LessOrEqual =>
      && (IsPair(x, y, PLUS, MINUS) ==> minus || (!finite && !plus))
      && (IsPair(x, y, PLUS, NotANumber) ==> !finite && !plus && !minus)
      && (IsPair(x, y, MINUS, NotANumber) ==> !minus)
    case GreaterOrEqual =>
      && (IsPair(x, y, PLUS, MINUS) ==> plus || (!finite && !minus))
      && (IsPair(x, y, MINUS, NotANumber) ==> !finite && !plus && !minus)
      && (IsPair(x, y, PLUS, NotANumber) ==> !plus)
  }

  predicate EqualsAgree(x: Numeric, y: Numeric, plus: bool, minus: bool) {
    && (IsPair(x, y, PLUS, MINUS) ==> (plus <==> minus))
    && (IsPair(x, y, PLUS, NotANumber) ==> !plus)
    && (IsPair(x, y, MINUS, NotANumber) ==> !minus)
  }

  /** The numbers read do not tell two tests that serialize alike apart. */
  ghost predicate NumbersAgree(w: World, a: Test, b: Test, values: seq<Value>) {
    var finite, plus, minus := ReadsFinite(w, values), Reads(w, values, PLUS), Reads(w, values, MINUS);
    a != b ==>
      && (a.Equals? && b.Equals? ==> EqualsAgree(a.number, b.number, plus, minus))
      && (a.Compare? && b.Compare? ==> BoundsAgree(a.op, a.bound, b.bound, finite, plus, minus))
  }

  predicate NoEnd(number: Numeric) { number.Infinite? || number.NotANumber? }

  /** What a comparison with a bound without an end finds among the values. */
  lemma ComparedWithNoEnd(w: World, values: seq<Value>, op: Comparison, bound: Numeric)
    requires NoEnd(bound)
    ensures var finite, plus, minus := ReadsFinite(w, values), Reads(w, values, PLUS), Reads(w, values, MINUS);
            (exists v :: v in values && NumberIs(w, v, op, bound)) <==>
            if bound.NotANumber? then false
            else if op.Less? then bound == PLUS && (finite || minus)
            else if op.Greater? then bound == MINUS && (finite || plus)
            else if op.LessOrEqual? then minus || (bound == PLUS && (finite || plus))
            else plus || (bound == MINUS && (finite || minus))
  {
    forall v | v in values
      ensures NumberIs(w, v, op, bound) ==> ReadsFinite(w, values) || Reads(w, values, PLUS) || Reads(w, values, MINUS)
    {
    }
  }

  lemma EqualToNoEnd(w: World, values: seq<Value>, bound: Numeric)
    requires NoEnd(bound)
    ensures (exists v :: v in values && NumberEquals(w, v, bound)) <==> bound.Infinite? && Reads(w, values, bound)
  {
  }

  /** Tests that serialize alike differ in a bound without an end alone. */
  predicate DifferInTheEnd(a: Test, b: Test) {
    || (a.Equals? && b.Equals? && NoEnd(a.number) && NoEnd(b.number))
    || (a.Compare? && b.Compare? && a.op == b.op && NoEnd(a.bound) && NoEnd(b.bound))
  }

  lemma WrittenAlike(a: Expr, b: Expr)
    requires IsLeaf(a) && IsLeaf(b) && LeafKey(a) == LeafKey(b) && a != b
    ensures a.Field? && b.Field? && a.paths == b.paths && a.test != b.test && DifferInTheEnd(a.test, b.test)
  {
  }

  lemma EndsAgreeExactly(w: World, a: Test, b: Test, values: seq<Value>, event: Value)
    requires DifferInTheEnd(a, b)
    ensures (PlainTest(w, a, values, event) <==> PlainTest(w, b, values, event)) <==> NumbersAgree(w, a, b, values)
  {
    if a.Equals? {
      EqualToNoEnd(w, values, a.number);
      EqualToNoEnd(w, values, b.number);
    } else {
      ComparedWithNoEnd(w, values, a.op, a.bound);
      ComparedWithNoEnd(w, values, b.op, b.bound);
    }
    hide Reads, ReadsFinite, NumberIs, NumberEquals;
  }

  /** Two tests that serialize alike answer alike exactly when the numbers read
      do not tell them apart. */
  lemma WrittenAlikeAgreeExactly(w: World, booleans: bool, a: Expr, b: Expr, event: Value)
    requires IsLeaf(a) && IsLeaf(b) && LeafKey(a) == LeafKey(b)
    ensures (Holds(w, booleans, a, event) <==> Holds(w, booleans, b, event)) <==>
            (a.Field? && b.Field? ==> NumbersAgree(w, a.test, b.test, Pool(event, a.paths)))
  {
    if a != b {
      WrittenAlike(a, b);
      EndsAgreeExactly(w, a.test, b.test, Pool(event, a.paths), event);
      hide NumbersAgree, Pool, LeafKey, PlainTest;
    }
  }

  // -------------------------------------------------------- rule by rule

  /** The tests the engine has seen once it has compiled the class of a rule. */
  function SeenWith(rules: seq<Rule>, k: nat): seq<Expr>
    requires k < |rules|
  {
    var members := MembersOf(rules, rules[k].class_);
    assert forall m :: 0 <= m < |members| ==> members[m] in members;
    LeavesOfRules(rules, members)
  }

  /** On this event a test is answered as the reference answers it: what
      serializes as it does is told from it by no number read, and booleans add
      nothing to what an expression accepts. */
  ghost predicate Undivided(w: World, seen: seq<Expr>, leaf: Expr, event: Value) {
    var first := First(seen, LeafKey(leaf));
    && (first.Some? && leaf.Field? && first.value.Field? ==>
          NumbersAgree(w, first.value.test, leaf.test, Pool(event, leaf.paths)))
    && ExpressionUndivided(w, leaf, event)
  }

  ghost predicate ExpressionUndivided(w: World, leaf: Expr, event: Value) {
    leaf.Field? && leaf.test.Regex? ==>
      BooleansAddNothing(s => w.isMatch(leaf.test.pattern, leaf.test.flags, s), Pool(event, leaf.paths))
  }

  /** Only expressions can tell whether booleans are read as text. */
  lemma ReadAlikeExactly(w: World, leaf: Expr, event: Value)
    requires IsLeaf(leaf)
    ensures (Holds(w, false, leaf, event) <==> Holds(w, true, leaf, event)) <==> ExpressionUndivided(w, leaf, event)
  {
    if leaf.Field? && leaf.test.Regex? {
      BooleansUnreadExactly(s => w.isMatch(leaf.test.pattern, leaf.test.flags, s), Pool(event, leaf.paths));
      hide BooleansAddNothing, SomeText, Pool;
    }
  }

  lemma LeafAgreesExactly(w: World, seen: seq<Expr>, leaf: Expr, event: Value)
    requires IsLeaf(leaf) && forall l :: l in seen ==> IsLeaf(l)
    ensures (Holds(w, false, Shared(seen, leaf), event) <==> Holds(w, true, leaf, event)) <==>
            Undivided(w, seen, leaf, event)
  {
    var shared := Shared(seen, leaf);
    ReadAlikeExactly(w, leaf, event);
    if shared == leaf {
      hide Holds, ExpressionUndivided, Pool;
    } else {
      WrittenAlike(shared, leaf);
      WrittenAlikeAgreeExactly(w, false, shared, leaf, event);
      hide Holds, NumbersAgree, Pool;
    }
  }

  lemma {:induction false} UndividedReadAlike(w: World, seen: seq<Expr>, expr: Expr, event: Value)
    requires forall l :: l in seen ==> IsLeaf(l)
    requires forall leaf :: leaf in Leaves(expr) ==> Undivided(w, seen, leaf, event)
    ensures Holds(w, false, Shared(seen, expr), event) <==> Holds(w, true, expr, event)
    decreases expr, 1
  {
    hide Undivided;
    match expr
    case And(operands) => OperandsReadAlike(w, seen, expr, operands, event);
    case Or(operands) => OperandsReadAlike(w, seen, expr, operands, event);
    case Not(operand) => UndividedReadAlike(w, seen, operand, event);
    case _ =>
      assert expr in Leaves(expr);
      LeafAgreesExactly(w, seen, expr, event);
  }

  lemma {:induction false} OperandsReadAlike(w: World, seen: seq<Expr>, expr: Expr, operands: seq<Expr>, event: Value)
    requires forall l :: l in seen ==> IsLeaf(l)
    requires (expr.And? || expr.Or?) && operands == expr.operands
    requires forall leaf :: leaf in LeavesOfAll(operands) ==> Undivided(w, seen, leaf, event)
    ensures Holds(w, false, Shared(seen, expr), event) <==> Holds(w, true, expr, event)
    decreases expr, 0
  {
    hide Undivided;
    var shared := Shared(seen, expr).operands;
    forall k | 0 <= k < |operands| ensures Holds(w, false, shared[k], event) <==> Holds(w, true, operands[k], event) {
      LeavesOfOperand(operands, k);
      UndividedReadAlike(w, seen, operands[k], event);
    }
  }

  lemma LeavesOfOperand(operands: seq<Expr>, k: nat)
    requires k < |operands|
    ensures forall leaf :: leaf in Leaves(operands[k]) ==> leaf in LeavesOfAll(operands)
  {
    forall leaf | leaf in Leaves(operands[k]) ensures leaf in LeavesOfAll(operands) { InSomeOperand(operands, leaf); }
  }

  /** Whatever is built of some tests is answered alike exactly when each of
      them is undivided. */
  lemma AllBuiltOfTestsAgreeExactly(w: World, seen: seq<Expr>, tests: set<Expr>, event: Value)
    requires forall l :: l in seen || l in tests ==> IsLeaf(l)
    ensures (forall leaf :: leaf in tests ==> Undivided(w, seen, leaf, event)) <==>
            forall expr :: (forall leaf :: leaf in Leaves(expr) ==> leaf in tests) ==>
              (Holds(w, false, Shared(seen, expr), event) <==> Holds(w, true, expr, event))
  {
    hide Undivided, Holds;
    if forall leaf :: leaf in tests ==> Undivided(w, seen, leaf, event) {
      forall expr | forall leaf :: leaf in Leaves(expr) ==> leaf in tests
        ensures Holds(w, false, Shared(seen, expr), event) <==> Holds(w, true, expr, event)
      {
        UndividedReadAlike(w, seen, expr, event);
      }
    } else {
      var leaf :| leaf in tests && !Undivided(w, seen, leaf, event);
      LeafAgreesExactly(w, seen, leaf, event);
      assert Leaves(leaf) == [leaf];
    }
  }

  /** Nothing in a rule's condition is divided on an event. */
  ghost predicate RuleUndivided(w: World, rules: seq<Rule>, k: nat, event: Value)
    requires k < |rules|
  {
    forall leaf :: leaf in Leaves(rules[k].condition) ==> Undivided(w, SeenWith(rules, k), leaf, event)
  }

  /** The engine answers each rule none of whose tests the event divides exactly
      as the reference does, whatever the other rules are. */
  lemma EngineAnswersAsReference(w: World, rules: seq<Rule>, event: Value, matched: seq<nat>)
    requires forall k: nat :: k in matched <==> k < |rules| && EngineMatches(w, rules, k, event)
    ensures forall k: nat :: k < |rules| && RuleUndivided(w, rules, k, event) ==>
              (k in matched <==> ReferenceMatches(w, rules[k], event))
  {
    forall k: nat | k < |rules| && RuleUndivided(w, rules, k, event)
      ensures k in matched <==> ReferenceMatches(w, rules[k], event)
    {
      SeenAreLeaves(rules, k);
      UndividedReadAlike(w, SeenWith(rules, k), rules[k].condition, event);
    }
  }

  lemma SeenAreLeaves(rules: seq<Rule>, k: nat)
    requires k < |rules|
    ensures forall l :: l in SeenWith(rules, k) ==> IsLeaf(l)
    ensures SharedCondition(rules, k) == Shared(SeenWith(rules, k), rules[k].condition)
  {
  }

  /** A rule all of whose tests are the first that serialize so, and that asks
      no expression where a boolean stands alone, is always answered so. */
  lemma WrittenFirstIsUndivided(w: World, rules: seq<Rule>, k: nat, event: Value)
    requires k < |rules| && SharedCondition(rules, k) == rules[k].condition
    requires forall leaf :: leaf in Leaves(rules[k].condition) && leaf.Field? && leaf.test.Regex? ==>
               BooleansEchoed(Pool(event, leaf.paths))
    ensures RuleUndivided(w, rules, k, event)
  {
    SeenAreLeaves(rules, k);
    SharedIsOwn(SeenWith(rules, k), rules[k].condition);
    forall leaf | leaf in Leaves(rules[k].condition) ensures Undivided(w, SeenWith(rules, k), leaf, event) {
      assert IsFirst(SeenWith(rules, k), leaf);
      if leaf.Field? && leaf.test.Regex? {
        var accepts := (s: string) => w.isMatch(leaf.test.pattern, leaf.test.flags, s);
        BooleansUnreadExactlyWhenEchoed(Pool(event, leaf.paths));
        BooleansUnreadExactly(accepts, Pool(event, leaf.paths));
      }
    }
  }

  // ------------------------------------------------------ where they part

  /** Of any rules, one that tests a single thing is answered as the reference
      would, on events of its class, exactly when the event does not divide the
      test. */
  lemma TestsWrittenAlikeAgreeExactly(w: World, rules: seq<Rule>, k: nat, event: Value)
    requires k < |rules| && IsLeaf(rules[k].condition) && HasClass(w, event, rules[k].class_)
    ensures (EngineMatches(w, rules, k, event) <==> ReferenceMatches(w, rules[k], event)) <==>
            Undivided(w, SeenWith(rules, k), rules[k].condition, event)
  {
    hide Holds, Undivided, HasClass;
    SeenAreLeaves(rules, k);
    LeafAgreesExactly(w, SeenWith(rules, k), rules[k].condition, event);
  }

  /** Of two rules of one class, the second's test is answered as the first's if
      they serialize alike. */
  lemma SecondIsAskedAsFirst(a: Expr, b: Expr)
    requires IsLeaf(a) && IsLeaf(b) && LeafKey(a) == LeafKey(b)
    ensures SeenWith([Rule([], a), Rule([], b)], 1) == [a, b] && First([a, b], LeafKey(b)) == Some(a)
  {
    var rules := [Rule([], a), Rule([], b)];
    BothAreMembers(rules);
    LeavesOfBoth(rules, a, b);
    hide MembersOf, LeavesOfRules, LeafKey;
  }

  lemma BothAreMembers(rules: seq<Rule>)
    requires |rules| == 2 && rules[0].class_ == [] && rules[1].class_ == []
    ensures MembersOf(rules, []) == [0, 1]
  {
    assert rules[..1][..0] == [] && MembersOf([], []) == [];
    assert MembersOf(rules[..1], []) == [0];
  }

  lemma {:induction false} LeavesOfBoth(rules: seq<Rule>, a: Expr, b: Expr)
    requires |rules| == 2 && rules[0].condition == a && rules[1].condition == b && IsLeaf(a) && IsLeaf(b)
    ensures LeavesOfRules(rules, [0, 1]) == [a, b]
  {
    hide LeafKey;
    assert [0, 1][..1] == [0] && [0][..0] == [];
    assert LeavesOfRules(rules, [0]) == [a];
  }

  /** What a path of one segment reaches in an object of one member. */
  lemma PoolOfOne(name: string, value: Value)
    requires value.Bool? || value.Number?
    ensures Pool(Object([Member(name, value)]), [[name]]) == [value]
  {
    var event := Object([Member(name, value)]);
    assert [name][1..] == [] && Visit(value, []) == [value];
    assert VisitMember(event.members, [name]) == [value];
    assert VisitAll(event, [[name]]) == [value] by { assert [[name]][1..] == []; }
    assert WithoutNulls([value]) == [value] by { assert [value][1..] == [] && WithoutNulls([]) == []; }
  }

  /** Any number tells the infinities apart as bounds. */
  lemma NumberIsNotBelow(w: World, paths: seq<Path>, five: Value, event: Value)
    requires w.number(five) == Some(Integer(5)) && Pool(event, paths) == [five]
    ensures !Holds(w, true, Field(paths, Compare(Less, MINUS)), event)
    ensures !NumbersAgree(w, Compare(Less, PLUS), Compare(Less, MINUS), Pool(event, paths))
  {
    hide Pool;
    ComparedWithNoEnd(w, [five], Less, MINUS);
    assert five in [five];
  }

  /** Below infinity and below minus infinity are written alike, so a rule
      that asks for the second is answered as the first. */
  lemma InfinitiesAreConfused(w: World, five: Value)
    requires five.Number? && w.number(five) == Some(Integer(5))
    ensures var below := (negative: bool) => Field([["n"]], Compare(Less, Infinite(negative)));
            var rules := [Rule([], below(false)), Rule([], below(true))];
            var event := Object([Member("n", five)]);
            EngineMatches(w, rules, 1, event) && !ReferenceMatches(w, rules[1], event)
  {
    var a, b := Field([["n"]], Compare(Less, Infinite(false))), Field([["n"]], Compare(Less, Infinite(true)));
    var event := Object([Member("n", five)]);
    PoolOfOne("n", five);
    NumberIsNotBelow(w, [["n"]], five, event);
    hide Holds, Pool, SeenWith, First, LeafKey, NumbersAgree;
    SecondIsAskedAsFirst(a, b);
    TestsWrittenAlikeAgreeExactly(w, [Rule([], a), Rule([], b)], 1, event);
  }

  /** A boolean that an expression would match as text, and nothing echoes, is
      matched by the reference and passed over by the engine. */
  lemma BooleanDivides(w: World, pattern: string, flags: Flags)
    requires w.isMatch(pattern, flags, "true")
    ensures var rules := [Rule([], Field([["b"]], Regex(pattern, flags)))];
            var event := Object([Member("b", Bool(true))]);
            ReferenceMatches(w, rules[0], event) && !EngineMatches(w, rules, 0, event)
  {
    var leaf := Field([["b"]], Regex(pattern, flags));
    var rules := [Rule([], leaf)];
    var event := Object([Member("b", Bool(true))]);
    PoolOfOne("b", Bool(true));
    hide Visit, VisitAll, WithoutNulls;
    assert Bool(true) in Pool(event, [["b"]]) && TextOf(Bool(true)) == Some("true");
    TestsWrittenAlikeAgreeExactly(w, rules, 0, event);
  }
}
