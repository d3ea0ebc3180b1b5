/** Paths into a decoded record, where a member's own name may hold dots: the
    search for the value a path names, and how a path stands to an object. */
module SourcePaths {
  import opened Base
  import opened Decimals
  import opened Trees

  datatype SourcePath = SourcePath(text: string, segments: seq<string>)

  /** Segments as one name. */
  function Joined(segments: seq<string>): string {
    if segments == [] then ""
    else if |segments| == 1 then segments[0]
    else Joined(segments[..|segments| - 1]) + "." + segments[|segments| - 1]
  }

  /** What the segments lead to: in an object, by the shortest name they begin
      with that leads anywhere. */
  function Find(value: Json, segments: seq<string>): Option<Json>
    decreases |segments|, |segments| + 1
  {
    if segments == [] then Some(value)
    else if value.Array? then
      match Parse(CodesOf(segments[0]))
      case Some(index) => if index < |value.items| then Find(value.items[index], segments[1..]) else None
      case None => None
    else if value.Object? then FindMember(value.members, segments, 1)
    else None
  }

  /** The same among members, by names of `n` segments and more. */
  function FindMember(members: map<string, Json>, segments: seq<string>, n: nat): Option<Json>
    requires n >= 1
    decreases |segments|, if n <= |segments| then |segments| + 1 - n else 0
  {
    if n > |segments| then None
    else
      var name := Joined(segments[..n]);
      var found := if name in members then Find(members[name], segments[n..]) else None;
      if found.Some? then found else FindMember(members, segments, n + 1)
  }

  /** The search, by a name that grows. */
  method FindValue(value: Json, segments: seq<string>) returns (r: Option<Json>)
    ensures r == Find(value, segments)
    decreases |segments|
  {
    if segments == [] { return Some(value); }
    if value.Array? {
      var index := Parse(CodesOf(segments[0]));
      if index.None? || index.value >= |value.items| { return None; }
      r := FindValue(value.items[index.value], segments[1..]);
      return;
    }
    if !value.Object? { return None; }
    var name := "";
    for n := 0 to |segments|
      invariant name == Joined(segments[..n])
      invariant Find(value, segments) == FindMember(value.members, segments, n + 1)
    {
      assert segments[..n + 1][..n] == segments[..n];
      if n > 0 { name := name + "."; }
      name := name + segments[n];
      assert segments[..1] == [segments[0]];
      assert name == Joined(segments[..n + 1]);
      if name in value.members {
        r := FindValue(value.members[name], segments[n + 1..]);
        if r.Some? { return; }
      }
    }
    return None;
  }

  // ------------------------------------------------------------------ readings

  /** A reading of the segments, as the number of them in each name, that leads to
      `found`. An element is named by one. */
  ghost predicate LeadsBy(value: Json, segments: seq<string>, cuts: seq<nat>, found: Json)
    decreases |segments|
  {
    if segments == [] then cuts == [] && found == value
    else
      && cuts != [] && 1 <= cuts[0] <= |segments|
      && (if value.Array? then
            var index := Parse(CodesOf(segments[0]));
            cuts[0] == 1 && index.Some? && index.value < |value.items|
            && LeadsBy(value.items[index.value], segments[1..], cuts[1..], found)
          else
            && value.Object? && Joined(segments[..cuts[0]]) in value.members
            && LeadsBy(value.members[Joined(segments[..cuts[0]])], segments[cuts[0]..], cuts[1..], found))
  }

  /** One reading has the shorter name where they first differ, or they do not. */
  predicate NotAfter(a: seq<nat>, b: seq<nat>) {
    a == [] || (b != [] && (a[0] < b[0] || (a[0] == b[0] && NotAfter(a[1..], b[1..]))))
  }

  /** No reading that leads anywhere comes before this one. */
  ghost predicate IsFirstReading(value: Json, segments: seq<string>, cuts: seq<nat>) {
    forall others, found :: LeadsBy(value, segments, others, found) ==> NotAfter(cuts, others)
  }

  /** Of the readings that lead anywhere, the first leads to `found`. */
  ghost predicate FirstLeadsTo(value: Json, segments: seq<string>, found: Json) {
    exists cuts :: LeadsBy(value, segments, cuts, found) && IsFirstReading(value, segments, cuts)
  }

  lemma {:induction false} NotAfterEachOther(a: seq<nat>, b: seq<nat>)
    requires NotAfter(a, b) && NotAfter(b, a)
    ensures a == b
  {
    if a != [] && b != [] {
      NotAfterEachOther(a[1..], b[1..]);
      assert a == [a[0]] + a[1..] && b == [b[0]] + b[1..];
    }
  }

  lemma {:induction false} LeadsToOne(value: Json, segments: seq<string>, cuts: seq<nat>, a: Json, b: Json)
    requires LeadsBy(value, segments, cuts, a) && LeadsBy(value, segments, cuts, b)
    ensures a == b
    decreases |segments|
  {
    hide Joined, Parse, CodesOf;
    if segments != [] {
      if value.Array? {
        LeadsToOne(value.items[Parse(CodesOf(segments[0])).value], segments[1..], cuts[1..], a, b);
      } else {
        LeadsToOne(value.members[Joined(segments[..cuts[0]])], segments[cuts[0]..], cuts[1..], a, b);
      }
    }
  }

  /** What is found is led to by a reading that none comes before. */
  lemma {:induction false} FoundByFirst(value: Json, segments: seq<string>) returns (cuts: seq<nat>)
    requires Find(value, segments).Some?
    ensures LeadsBy(value, segments, cuts, Find(value, segments).value) && IsFirstReading(value, segments, cuts)
    decreases |segments|, |segments| + 1
  {
    hide Joined, Parse, CodesOf;
    if segments == [] {
      cuts := [];
    } else if value.Array? {
      var item := value.items[Parse(CodesOf(segments[0])).value];
      var rest := FoundByFirst(item, segments[1..]);
      cuts := [1] + rest;
      forall others, found | LeadsBy(value, segments, others, found) ensures NotAfter(cuts, others) {
        assert LeadsBy(item, segments[1..], others[1..], found);
        assert cuts[1..] == rest;
      }
    } else {
      cuts := FoundByName(value, segments, 1);
    }
  }

  /** The same of the names of `n` segments and more. */
  lemma {:induction false} FoundByName(value: Json, segments: seq<string>, n: nat) returns (cuts: seq<nat>)
    requires value.Object? && segments != [] && n >= 1 && FindMember(value.members, segments, n).Some?
    ensures LeadsBy(value, segments, cuts, FindMember(value.members, segments, n).value) && cuts[0] >= n
    ensures forall others, found :: LeadsBy(value, segments, others, found) && others[0] >= n ==> NotAfter(cuts, others)
    decreases |segments|, if n <= |segments| then |segments| + 1 - n else 0
  {
    hide Joined;
    var name := Joined(segments[..n]);
    if name in value.members && Find(value.members[name], segments[n..]).Some? {
      var rest := FoundByFirst(value.members[name], segments[n..]);
      cuts := [n] + rest;
      assert cuts[1..] == rest;
    } else {
      cuts := FoundByName(value, segments, n + 1);
      forall others, found | LeadsBy(value, segments, others, found) && others[0] >= n ensures others[0] > n {
        if others[0] == n { LeadingIsFound(value.members[name], segments[n..], others[1..], found); }
      }
    }
  }

  lemma {:induction false} LeadingIsFound(value: Json, segments: seq<string>, cuts: seq<nat>, found: Json)
    requires LeadsBy(value, segments, cuts, found)
    ensures Find(value, segments).Some?
    decreases |segments|, 0
  {
    hide Joined, Parse, CodesOf;
    if segments != [] {
      if value.Array? {
        LeadingIsFound(value.items[Parse(CodesOf(segments[0])).value], segments[1..], cuts[1..], found);
      } else {
        LeadingIsFound(value.members[Joined(segments[..cuts[0]])], segments[cuts[0]..], cuts[1..], found);
        NamedIsFound(value.members, segments, 1, cuts[0]);
      }
    }
  }

  lemma {:induction false} NamedIsFound(members: map<string, Json>, segments: seq<string>, n: nat, m: nat)
    requires 1 <= n <= m <= |segments| && Joined(segments[..m]) in members
    requires Find(members[Joined(segments[..m])], segments[m..]).Some?
    ensures FindMember(members, segments, n).Some?
    decreases m - n
  {
    hide Joined;
    if n < m { NamedIsFound(members, segments, n + 1, m); }
  }

  /** The search finds what the first reading leads to, the one with the shortest
      names, and finds nothing exactly when no reading leads anywhere. */
  lemma FindsWhatLeads(value: Json, segments: seq<string>)
    ensures Find(value, segments).Some? <==> exists cuts, found :: LeadsBy(value, segments, cuts, found)
    ensures forall found :: Find(value, segments) == Some(found) <==> FirstLeadsTo(value, segments, found)
  {
    hide Find, LeadsBy;
    if Find(value, segments).Some? {
      var first := FoundByFirst(value, segments);
      assert LeadsBy(value, segments, first, Find(value, segments).value);
    }
    if cuts, found :| LeadsBy(value, segments, cuts, found) { LeadingIsFound(value, segments, cuts, found); }
    forall found ensures Find(value, segments) == Some(found) <==> FirstLeadsTo(value, segments, found) {
      if cuts :| LeadsBy(value, segments, cuts, found) && IsFirstReading(value, segments, cuts) {
        LeadingIsFound(value, segments, cuts, found);
        var first := FoundByFirst(value, segments);
        NotAfterEachOther(cuts, first);
        LeadsToOne(value, segments, cuts, found, Find(value, segments).value);
      }
    }
  }

  // ----------------------------------------------------------- paths and objects

  /** The name that a path has within an object, if it lies in it. */
  function MemberOf(path: SourcePath, object_: SourcePath): Option<string> {
    if |path.segments| > |object_.segments| && path.segments[..|object_.segments|] == object_.segments then
      Some(Joined(path.segments[|object_.segments|..]))
    else None
  }

  /** What a value is kept as that did not convert: its name in the first object
      it lies in, or its whole path. */
  function NameFor(objects: seq<SourcePath>, path: SourcePath): string {
    if objects == [] then path.text
    else match MemberOf(path, objects[0])
      case Some(name) => name
      case None => NameFor(objects[1..], path)
  }

  /** A reading goes on through an object by a name of its own. */
  lemma {:induction false} LeadsFurther(
      value: Json, s: seq<string>, cuts: seq<nat>, t: seq<string>, members: map<string, Json>)
    requires LeadsBy(value, s, cuts, Object(members)) && t != [] && Joined(t) in members
    ensures LeadsBy(value, s + t, cuts + [|t|], members[Joined(t)])
    decreases |s|
  {
    hide Joined, Parse, CodesOf;
    var all, more := s + t, cuts + [|t|];
    if s == [] {
      assert all == t && more == [|t|] && t[..|t|] == t && t[|t|..] == [] && more[1..] == [];
    } else {
      var n := cuts[0];
      assert more[1..] == cuts[1..] + [|t|] && all[..n] == s[..n] && all[n..] == s[n..] + t && all[0] == s[0];
      assert all[1..] == s[1..] + t;
      if value.Array? {
        LeadsFurther(value.items[Parse(CodesOf(s[0])).value], s[1..], cuts[1..], t, members);
      } else {
        LeadsFurther(value.members[Joined(s[..n])], s[n..], cuts[1..], t, members);
      }
    }
  }

  /** A path that names a member of an object has a reading that leads to it: that
      of the object, and the member's name. */
  lemma NamedIsLedTo(record: Json, object_: SourcePath, members: map<string, Json>, path: SourcePath, key: string)
    returns (cuts: seq<nat>)
    requires Find(record, object_.segments) == Some(Object(members)) && key in members
    requires MemberOf(path, object_) == Some(key)
    ensures LeadsBy(record, path.segments, cuts, members[key])
  {
    var first := FoundByFirst(record, object_.segments);
    var t := path.segments[|object_.segments|..];
    assert path.segments == object_.segments + t;
    LeadsFurther(record, object_.segments, first, t, members);
    cuts := first + [|t|];
  }
}
