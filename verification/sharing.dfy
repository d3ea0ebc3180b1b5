/** Which tests the engine computes as one. A test is shared by the text it
    serializes to, and a number that is not finite serializes to `null`
    whatever it is, so tests that differ only there are taken for one. */
module Sharing {
  import opened Base
  import opened Rules

  function WrittenNumber(number: Numeric): Numeric {
    match number
    case Infinite(_) => NotANumber
    case _ => number
  }

  /** The serialized form of a test on an event, up to its spelling. */
  function LeafKey(leaf: Expr): Expr {
    match leaf
    case Field(paths, Equals(number)) => Field(paths, Equals(WrittenNumber(number)))
    case Field(paths, Compare(op, bound)) => Field(paths, Compare(op, WrittenNumber(bound)))
    case _ => leaf
  }

  predicate IsLeaf(expr: Expr) { expr.Field? || expr.Keyword? }

  /** The tests of a condition in the order they are compiled. */
  function Leaves(expr: Expr): (r: seq<Expr>)
    ensures forall l :: 0 <= l < |r| ==> IsLeaf(r[l])
    decreases expr, 0
  {
    match expr
    case And(operands) => LeavesOfAll(operands)
    case Or(operands) => LeavesOfAll(operands)
    case Not(operand) => Leaves(operand)
    case _ => [expr]
  }

  function LeavesOfAll(operands: seq<Expr>): (r: seq<Expr>)
    ensures forall l :: 0 <= l < |r| ==> IsLeaf(r[l])
    decreases operands, 0
  {
    if operands == [] then [] else Leaves(operands[0]) + LeavesOfAll(operands[1..])
  }

  lemma {:induction false} LeavesOfNext(operands: seq<Expr>, k: nat)
    requires k < |operands|
    ensures LeavesOfAll(operands[..k + 1]) == LeavesOfAll(operands[..k]) + Leaves(operands[k])
  {
    if k == 0 {
      assert operands[..1] == [operands[0]];
      assert LeavesOfAll([operands[0]]) == Leaves(operands[0]) + LeavesOfAll([]);
    } else {
      LeavesOfNext(operands[1..], k - 1);
      assert operands[..k + 1][1..] == operands[1..][..k] && operands[..k][1..] == operands[1..][..k - 1];
    }
  }

  /** The first of `seen` that serializes to `key`. */
  function First(seen: seq<Expr>, key: Expr): (r: Option<Expr>)
    ensures r.Some? ==> r.value in seen && LeafKey(r.value) == key
    ensures r.None? ==> forall l :: 0 <= l < |seen| ==> LeafKey(seen[l]) != key
  {
    if seen == [] then None
    else if LeafKey(seen[0]) == key then Some(seen[0])
    else
      assert seen == [seen[0]] + seen[1..];
      First(seen[1..], key)
  }

  lemma {:induction false} FirstIsKept(seen: seq<Expr>, leaf: Expr, key: Expr)
    ensures First(seen + [leaf], key) ==
            if First(seen, key).Some? then First(seen, key) else if LeafKey(leaf) == key then Some(leaf) else None
  {
    if seen == [] {
      assert [leaf][1..] == [] && seen + [leaf] == [leaf];
    } else {
      FirstIsKept(seen[1..], leaf, key);
      assert (seen + [leaf])[1..] == seen[1..] + [leaf];
    }
  }

  /** The condition as the engine computes it: every test the first one seen
      that serializes as it does. */
  function Shared(seen: seq<Expr>, expr: Expr): Expr {
    match expr
    case And(operands) => And(seq(|operands|, k requires 0 <= k < |operands| => Shared(seen, operands[k])))
    case Or(operands) => Or(seq(|operands|, k requires 0 <= k < |operands| => Shared(seen, operands[k])))
    case Not(operand) => Not(Shared(seen, operand))
    case _ => if First(seen, LeafKey(expr)).Some? then First(seen, LeafKey(expr)).value else expr
  }

  /** No other test that serializes alike was seen before this one. */
  predicate IsFirst(seen: seq<Expr>, leaf: Expr) { First(seen, LeafKey(leaf)) in {None, Some(leaf)} }

  lemma {:induction false} InSomeOperand(operands: seq<Expr>, leaf: Expr)
    ensures leaf in LeavesOfAll(operands) <==> exists k :: 0 <= k < |operands| && leaf in Leaves(operands[k])
  {
    if operands != [] {
      InSomeOperand(operands[1..], leaf);
      assert operands == [operands[0]] + operands[1..];
    }
  }

  /** A condition is computed as it is written exactly when each of its tests is
      the first that serializes so. */
  lemma {:induction false} SharedIsOwn(seen: seq<Expr>, expr: Expr)
    ensures Shared(seen, expr) == expr <==> forall leaf :: leaf in Leaves(expr) ==> IsFirst(seen, leaf)
    decreases expr, 1
  {
    match expr
    case And(operands) => OperandsAreOwn(seen, expr, operands);
    case Or(operands) => OperandsAreOwn(seen, expr, operands);
    case Not(operand) => SharedIsOwn(seen, operand);
    case _ => assert expr in Leaves(expr);
  }

  lemma {:induction false} OperandsAreOwn(seen: seq<Expr>, expr: Expr, operands: seq<Expr>)
    requires (expr.And? || expr.Or?) && operands == expr.operands
    ensures Shared(seen, expr) == expr <==> forall leaf :: leaf in LeavesOfAll(operands) ==> IsFirst(seen, leaf)
    decreases expr, 0
  {
    var shared := Shared(seen, expr).operands;
    assert Shared(seen, expr) == expr <==> shared == operands;
    forall k | 0 <= k < |operands|
      ensures shared[k] == operands[k] <==> forall leaf :: leaf in Leaves(operands[k]) ==> IsFirst(seen, leaf)
    {
      SharedIsOwn(seen, operands[k]);
    }
    forall leaf
      ensures leaf in LeavesOfAll(operands) <==> exists k :: 0 <= k < |operands| && leaf in Leaves(operands[k])
    {
      InSomeOperand(operands, leaf);
    }
  }

  predicate AllSeen(seen: seq<Expr>, expr: Expr) {
    match expr
    case And(operands) => forall k :: 0 <= k < |operands| ==> AllSeen(seen, operands[k])
    case Or(operands) => forall k :: 0 <= k < |operands| ==> AllSeen(seen, operands[k])
    case Not(operand) => AllSeen(seen, operand)
    case _ => First(seen, LeafKey(expr)).Some?
  }

  /** What was seen first stays first. */
  lemma {:induction false} FirstOfMore(seen: seq<Expr>, more: seq<Expr>, key: Expr)
    requires First(seen, key).Some?
    ensures First(seen + more, key) == First(seen, key)
  {
    if more == [] {
      assert seen + more == seen;
    } else {
      FirstOfMore(seen, more[..|more| - 1], key);
      FirstIsKept(seen + more[..|more| - 1], more[|more| - 1], key);
      assert seen + more == (seen + more[..|more| - 1]) + [more[|more| - 1]];
    }
  }

  lemma {:induction false} SharedIsKept(seen: seq<Expr>, more: seq<Expr>, expr: Expr)
    requires AllSeen(seen, expr)
    ensures AllSeen(seen + more, expr) && Shared(seen + more, expr) == Shared(seen, expr)
  {
    match expr
    case And(operands) =>
      forall k | 0 <= k < |operands| { SharedIsKept(seen, more, operands[k]); }
    case Or(operands) =>
      forall k | 0 <= k < |operands| { SharedIsKept(seen, more, operands[k]); }
    case Not(operand) => SharedIsKept(seen, more, operand);
    case _ => FirstOfMore(seen, more, LeafKey(expr));
  }

  /** The conditions of a group's rules, each test after the ones compiled
      before it. */
  function LeavesOfRules(rules: seq<Rule>, members: seq<nat>): (r: seq<Expr>)
    requires forall m :: 0 <= m < |members| ==> members[m] < |rules|
    ensures forall l :: 0 <= l < |r| ==> IsLeaf(r[l])
  {
    if members == [] then []
    else LeavesOfRules(rules, members[..|members| - 1]) + Leaves(rules[members[|members| - 1]].condition)
  }
}
