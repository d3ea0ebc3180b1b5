/** Events as JSON values, and the values a dotted path reaches in one. */
module Events {

  datatype Value =
    | Null
    | Bool(flag: bool)
    | Number(decimal: Decimal)  // a number, as the decimal text it prints as
    | String(text: string)
    | Array(items: seq<Value>)
    | Object(members: seq<Member>)  // in the order they are visited

  datatype Member = Member(name: string, value: Value)

  /** The characters a JSON number prints with. */
  predicate InDecimal(c: char) {
    '0' <= c <= '9' || c == '+' || c == '-' || c == '.' || c == 'e'
  }

  /** A number's text. */
  type Decimal = s: string | forall i :: 0 <= i < |s| ==> InDecimal(s[i])

  /** A path's segments. */
  type Path = seq<string>

  /** The values at a path. Arrays are looked through wherever they stand, so that
      none is ever a result. */
  function Visit(value: Value, path: Path): (r: seq<Value>)
    ensures forall i :: 0 <= i < |r| ==> !r[i].Array?
    decreases value, 0
  {
    match value
    case Array(items) => VisitEach(items, path)
    case Object(members) => if path == [] then [value] else VisitMember(members, path)
    case _ => if path == [] then [value] else []
  }

  function VisitEach(items: seq<Value>, path: Path): (r: seq<Value>)
    ensures forall i :: 0 <= i < |r| ==> !r[i].Array?
    decreases items, 0
  {
    if items == [] then [] else Visit(items[0], path) + VisitEach(items[1..], path)
  }

  function VisitMember(members: seq<Member>, path: Path): (r: seq<Value>)
    requires path != []
    ensures forall i :: 0 <= i < |r| ==> !r[i].Array?
    decreases members, 0
  {
    if members == [] then []
    else if members[0].name == path[0] then Visit(members[0].value, path[1..])
    else VisitMember(members[1..], path)
  }

  /** What any of several paths reaches. */
  function VisitAll(value: Value, paths: seq<Path>): (r: seq<Value>)
    ensures forall i :: 0 <= i < |r| ==> !r[i].Array?
  {
    if paths == [] then [] else Visit(value, paths[0]) + VisitAll(value, paths[1..])
  }

  /** What keywords are searched in: the string leaves of an event at any depth. */
  function Strings(value: Value): seq<string>
    decreases value, 0
  {
    match value
    case String(text) => [text]
    case Array(items) => StringsOfEach(items)
    case Object(members) => StringsOfMembers(members)
    case _ => []
  }

  function StringsOfEach(items: seq<Value>): seq<string>
    decreases items, 0
  {
    if items == [] then [] else Strings(items[0]) + StringsOfEach(items[1..])
  }

  function StringsOfMembers(members: seq<Member>): seq<string>
    decreases members, 0
  {
    if members == [] then [] else Strings(members[0].value) + StringsOfMembers(members[1..])
  }
}
