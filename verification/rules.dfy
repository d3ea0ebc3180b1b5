/** Rules and what they mean, condition by condition: the specification that every
    later form is compared to. */
module Rules {
  import opened Base
  import opened Text
  import opened Glob
  import Regexes
  import opened Events

  // ------------------------------------------------------------------ rules

  /** A number as comparisons see it. Floats are real here, and what is not finite
      has cases of its own. */
  datatype Numeric = Integer(n: int) | Float(x: real) | Infinite(negative: bool) | NotANumber

  datatype Comparison = Less | LessOrEqual | Greater | GreaterOrEqual

  datatype Flags = Flags(caseInsensitive: bool, multiline: bool, dotAll: bool)

  /** A wildcard pattern, its literals already folded unless case matters. */
  datatype StringTest = StringTest(pattern: seq<Part>, cased: bool)

  datatype Test =
    | Str(text: StringTest)
    | Regex(pattern: string, flags: Flags)
    | Cidr(network: string)
    | Exists(expected: bool)
    | IsNull
    | Equals(number: Numeric)
    | Boolean(truth: bool)
    | Compare(op: Comparison, bound: Numeric)
    | FieldRef(others: seq<Path>, cased: bool)

  datatype Expr =
    | And(operands: seq<Expr>)
    | Or(operands: seq<Expr>)
    | Not(operand: Expr)
    | Field(paths: seq<Path>, test: Test)
    | Keyword(text: StringTest)

  datatype ClassValue = IntegerIs(n: int) | StringIs(s: string)

  /** What an event must be for a rule to be asked at all. */
  type Class = seq<(Path, ClassValue)>

  datatype Rule = Rule(class_: Class, condition: Expr)

  // ---------------------------------------------------- foreign libraries

  /** One occurrence an automaton reports: which of its literals, and where. */
  datatype Occurrence = Occurrence(literal: nat, start: nat, end: nat)

  /** What the evaluators ask of libraries. */
  datatype World = World(
    beyond: Beyond,                                       // case folding tables
    look: Regexes.Looks,                                  // assertions of expressions
    parse: (string, Flags) -> Option<Regexes.Hir>,        // a regular expression, parsed
    fits: (string, Flags) -> bool,                        // its compiled size is within the limit
    isMatch: (string, Flags, string) -> bool,             // it matches somewhere in a text
    number: Value -> Option<Numeric>,                     // a value read as a number
    round: int -> real,                                   // an integer as a float
    inNetwork: (string, string) -> bool,                  // a text is an address in a network
    find: (seq<string>, string) -> seq<Occurrence>        // overlapping search for literals
  )

  /** The automaton's contract: every overlapping occurrence of every literal,
      in any order, and nothing else. */
  ghost predicate FindsEvery(literals: seq<string>, text: string, found: seq<Occurrence>) {
    && (forall f :: 0 <= f < |found| ==>
          found[f].literal < |literals| && OccursAt(text, literals[found[f].literal], found[f].start)
          && found[f].end == found[f].start + |literals[found[f].literal]|)
    && (forall l, at: nat :: 0 <= l < |literals| && OccursAt(text, literals[l], at) ==>
          Occurrence(l, at, at + |literals[l]|) in found)
  }

  /** The automata of `w` find what they should. */
  ghost predicate AutomataFind(w: World) {
    forall literals, text :: FindsEvery(literals, text, w.find(literals, text))
  }

  /** The expressions of `w` match where their parsed form does. */
  ghost predicate ExpressionsMatch(w: World) {
    forall pattern, flags, text :: w.isMatch(pattern, flags, text) <==>
      w.parse(pattern, flags).Some? && Regexes.IsMatch(w.look, w.parse(pattern, flags).value, text)
  }

  /** What the libraries promise. */
  ghost predicate Promises(w: World) { AutomataFind(w) && ExpressionsMatch(w) }

  /** Whether a regular expression compiles. */
  predicate RegexCompiles(w: World, pattern: string, flags: Flags) {
    w.parse(pattern, flags).Some? && w.fits(pattern, flags)
  }

  // ------------------------------------------------------- value semantics

  /** The spelling of a scalar, which string tests compare and expressions search.
      */
  function TextOf(value: Value): Option<string> {
    match value
    case String(text) => Some(text)
    case Number(decimal) => Some(decimal)
    case Bool(flag) => Some(if flag then "true" else "false")
    case _ => None
  }

  function WithoutNulls(values: seq<Value>): (r: seq<Value>)
    ensures forall v :: v in r <==> v in values && v != Null
  {
    if values == [] then []
    else if values[0] == Null then WithoutNulls(values[1..])
    else [values[0]] + WithoutNulls(values[1..])
  }

  /** The operand of a field test: everything at its paths but nulls. */
  function Pool(event: Value, paths: seq<Path>): seq<Value> { WithoutNulls(VisitAll(event, paths)) }

  /** `s` as a test compares it. */
  function Cased(w: World, cased: bool, s: string): string { if cased then s else Fold(w.beyond, s) }

  ghost predicate StringMatches(w: World, test: StringTest, s: string) {
    Glob.Matches(test.pattern, Cased(w, test.cased, s))
  }

  function CompareReals(a: real, b: real): int { if a < b then -1 else if a > b then 1 else 0 }

  /** -1, 0, or 1, or nothing where a side is not a number; exact when both
      sides are integers. */
  function CompareNumbers(w: World, left: Numeric, right: Numeric): Option<int> {
    match (left, right)
    case (NotANumber, _) => None
    case (_, NotANumber) => None
    case (Infinite(a), Infinite(b)) => Some(if a == b then 0 else if a then -1 else 1)
    case (Infinite(a), _) => Some(if a then -1 else 1)
    case (_, Infinite(b)) => Some(if b then 1 else -1)
    case (Integer(a), Integer(b)) => Some(if a < b then -1 else if a > b then 1 else 0)
    case (Integer(a), Float(b)) => Some(CompareReals(w.round(a), b))
    case (Float(a), Integer(b)) => Some(CompareReals(a, w.round(b)))
    case (Float(a), Float(b)) => Some(CompareReals(a, b))
  }

  predicate Compares(op: Comparison, ordering: int) {
    match op
    case Less => ordering < 0
    case LessOrEqual => ordering <= 0
    case Greater => ordering > 0
    case GreaterOrEqual => ordering >= 0
  }

  predicate NumberIs(w: World, value: Value, op: Comparison, bound: Numeric) {
    w.number(value).Some? &&
    var ordering := CompareNumbers(w, w.number(value).value, bound);
    ordering.Some? && Compares(op, ordering.value)
  }

  predicate NumberEquals(w: World, value: Value, bound: Numeric) {
    w.number(value).Some? && CompareNumbers(w, w.number(value).value, bound) == Some(0)
  }

  function LowerAscii(s: string): string { Fold(c => c, s) }

  predicate BooleanIs(value: Value, expected: bool) {
    match value
    case Bool(flag) => flag == expected
    case String(text) => LowerAscii(text) == if expected then "true" else "false"
    case _ => false
  }

  predicate SameValue(w: World, left: Value, right: Value, cased: bool) {
    match (TextOf(left), TextOf(right))
    case (Some(a), Some(b)) => Cased(w, cased, a) == Cased(w, cased, b)
    case _ => left == right
  }

  /** A test other than a string's on pooled values. A regular expression is
      not asked here. */
  predicate PlainTest(w: World, test: Test, values: seq<Value>, event: Value)
    requires !test.Str?
  {
    match test
    case Cidr(network) => exists v :: v in values && v.String? && w.inNetwork(network, v.text)
    case Exists(expected) => (values == []) != expected
    case IsNull => values == []
    case Equals(number) => exists v :: v in values && NumberEquals(w, v, number)
    case Boolean(truth) => exists v :: v in values && BooleanIs(v, truth)
    case Compare(op, bound) => exists v :: v in values && NumberIs(w, v, op, bound)
    case FieldRef(others, cased) =>
      exists v, o :: v in values && o in Pool(event, others) && SameValue(w, v, o, cased)
    case Regex(_, _) => false
  }

  /** A test on pooled values. */
  ghost predicate TestValues(w: World, test: Test, values: seq<Value>, event: Value) {
    if test.Str? then exists v :: v in values && TextOf(v).Some? && StringMatches(w, test.text, TextOf(v).value)
    else PlainTest(w, test, values, event)
  }

  /** Whether `accepts` holds of some value's text; of a boolean's only if
      `booleans` are read as text. */
  ghost predicate SomeText(accepts: string -> bool, booleans: bool, values: seq<Value>) {
    exists v :: v in values && TextOf(v).Some? && (booleans || !v.Bool?) && accepts(TextOf(v).value)
  }

  predicate HasClassValue(w: World, event: Value, path: Path, expected: ClassValue) {
    exists i :: 0 <= i < |Visit(event, path)| && IsClassValue(w, Visit(event, path)[i], expected)
  }

  predicate IsClassValue(w: World, value: Value, expected: ClassValue) {
    match expected
    case IntegerIs(n) => value.Number? && w.number(value) == Some(Integer(n))
    case StringIs(s) => value == String(s)
  }

  predicate HasClass(w: World, event: Value, class_: Class) {
    forall k :: 0 <= k < |class_| ==> HasClassValue(w, event, class_[k].0, class_[k].1)
  }

  // ------------------------------------------------------------- evaluation

  /** Whether a condition holds. The reference reads booleans as text under a
      regular expression as under any string test; with `booleans` false they
      are passed over, as the engine does. */
  ghost predicate Holds(w: World, booleans: bool, expr: Expr, event: Value) {
    match expr
    case And(operands) => forall k :: 0 <= k < |operands| ==> Holds(w, booleans, operands[k], event)
    case Or(operands) => exists k :: 0 <= k < |operands| && Holds(w, booleans, operands[k], event)
    case Not(operand) => !Holds(w, booleans, operand, event)
    case Keyword(text) => exists s :: s in Strings(event) && StringMatches(w, text, s)
    case Field(paths, test) =>
      match test
      case Regex(pattern, flags) => SomeText(s => w.isMatch(pattern, flags, s), booleans, Pool(event, paths))
      case _ => TestValues(w, test, Pool(event, paths), event)
  }

  /** The reference evaluator compiles a condition exactly when every regular
      expression in it compiles. */
  predicate Compiles(w: World, expr: Expr) {
    match expr
    case And(operands) => forall k :: 0 <= k < |operands| ==> Compiles(w, operands[k])
    case Or(operands) => forall k :: 0 <= k < |operands| ==> Compiles(w, operands[k])
    case Not(operand) => Compiles(w, operand)
    case Keyword(_) => true
    case Field(_, test) => test.Regex? ==> RegexCompiles(w, test.pattern, test.flags)
  }

  /** Whether `event` matches a rule: the reference's answer. */
  ghost predicate ReferenceMatches(w: World, rule: Rule, event: Value) {
    HasClass(w, event, rule.class_) && Holds(w, true, rule.condition, event)
  }
}
