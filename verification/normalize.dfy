/** Compiling the targets of a definition's fields, and writing the fields of a
    record. */
module Normalizing {
  import opened Base
  import opened Decimals
  import opened Trees
  import opened SourcePaths

  /** A target's segments, as its dotted path is split: some, none empty. */
  type Target = segments: seq<string> | segments != [] && forall i :: 0 <= i < |segments| ==> segments[i] != ""
    witness ["x"]

  // ---------------------------------------------------------------- overlaps

  ghost predicate NoOverlap(targets: seq<Target>) {
    forall i, j :: 0 <= i < j < |targets| ==> !(targets[i] <= targets[j]) && !(targets[j] <= targets[i])
  }

  /** The first two targets that overlap, if any do. */
  method CheckOverlaps(targets: seq<Target>) returns (r: Option<(nat, nat)>)
    ensures r.None? <==> NoOverlap(targets)
    ensures r.Some? ==> r.value.0 < r.value.1 < |targets|
                        && (targets[r.value.0] <= targets[r.value.1] || targets[r.value.1] <= targets[r.value.0])
  {
    for i := 0 to |targets|
      invariant forall a, b :: 0 <= a < i && a < b < |targets| ==>
                !(targets[a] <= targets[b]) && !(targets[b] <= targets[a])
    {
      for j := i + 1 to |targets|
        invariant forall b :: i < b < j ==> !(targets[i] <= targets[b]) && !(targets[b] <= targets[i])
      {
        if targets[i] <= targets[j] || targets[j] <= targets[i] { return Some((i, j)); }
      }
    }
    return None;
  }

  // ---------------------------------------------------------- attribute paths

  /** What the schema says of an attribute's path. */
  datatype Schema = Schema(isArray: string -> bool, isFreeForm: string -> bool)

  datatype PathError = NotAnArray(attribute: string) | WithinArray

  predicate IsIndex(segment: string) { AllDigits(CodesOf(segment)) }

  /** The attribute that the first segments name, without the indexes. */
  function NamedUpTo(segments: seq<string>, n: nat): string
    requires n <= |segments|
  {
    if n == 0 then ""
    else
      var named, segment := NamedUpTo(segments, n - 1), segments[n - 1];
      if IsIndex(segment) && named != "" then named
      else if named == "" then segment
      else named + "." + segment
  }

  /** An index at `i` follows an array, and a name there that goes on by name is
      no array, unless it takes anything. */
  predicate SegmentOk(schema: Schema, segments: seq<string>, i: nat)
    requires i < |segments|
  {
    if IsIndex(segments[i]) && NamedUpTo(segments, i) != "" then schema.isArray(NamedUpTo(segments, i))
    else
      var named := NamedUpTo(segments, i + 1);
      i + 1 < |segments| && !IsIndex(segments[i + 1]) ==> !(schema.isArray(named) && !schema.isFreeForm(named))
  }

  ghost predicate Accepted(schema: Schema, segments: seq<string>) {
    forall i :: 0 <= i < |segments| ==> SegmentOk(schema, segments, i)
  }

  /** The prefix under which a target's next segment is looked up, built segment by
      segment, or what refuses it. */
  method AttributePath(schema: Schema, segments: Target) returns (r: Result<string, PathError>)
    ensures r.Ok? <==> Accepted(schema, segments)
    ensures r.Ok? ==> r.value == NamedUpTo(segments, |segments|)
  {
    var named := "";
    for position := 0 to |segments|
      invariant named == NamedUpTo(segments, position)
      invariant forall i :: 0 <= i < position ==> SegmentOk(schema, segments, i)
    {
      var segment := segments[position];
      if IsIndex(segment) && named != "" {
        if !schema.isArray(named) {
          assert !SegmentOk(schema, segments, position);
          return Err(NotAnArray(named));
        }
      } else {
        named := if named == "" then segment else named + "." + segment;
        var continues := position + 1 < |segments| && !IsIndex(segments[position + 1]);
        if continues && schema.isArray(named) && !schema.isFreeForm(named) {
          assert !SegmentOk(schema, segments, position);
          return Err(WithinArray);
        }
      }
    }
    return Ok(named);
  }

  // ------------------------------------------------------- what is accepted

  /** An index is written in the one way a number is. */
  predicate IsCanonical(segment: string) {
    && (IsIndex(segment) <==> Parse(CodesOf(segment)).Some?)
    && (Parse(CodesOf(segment)).Some? ==> CodesOf(segment) == Decimal(Parse(CodesOf(segment)).value))
  }

  ghost predicate AllCanonical(target: Target) { forall i :: 0 <= i < |target| ==> IsCanonical(target[i]) }

  lemma SameCodes(a: string, b: string)
    requires CodesOf(a) == CodesOf(b)
    ensures a == b
  {
    assert |a| == |b|;
    forall i | 0 <= i < |a| ensures a[i] == b[i] { assert CodesOf(a)[i] == CodesOf(b)[i]; }
  }

  lemma CanonicalStepsDiffer(a: string, b: string)
    requires IsCanonical(a) && IsCanonical(b) && a != b
    ensures StepOf(a) != StepOf(b)
  {
    if StepOf(a) == StepOf(b) && StepOf(a).Index? { SameCodes(a, b); }
  }

  lemma {:induction false} AlikeAt(p: seq<Step>, q: seq<Step>, k: nat)
    requires k < |p| && k < |q| && p[..k] == q[..k] && p[k] != q[k] && p[k].Index? == q[k].Index?
    ensures PartsAlike(p, q)
  {
    if k > 0 {
      assert p[0] == p[..k][0] && q[0] == q[..k][0];
      assert p[1..][..k - 1] == p[..k][1..] && q[1..][..k - 1] == q[..k][1..];
      AlikeAt(p[1..], q[1..], k - 1);
    }
  }

  lemma {:induction false} FirstDifference<T>(a: seq<T>, b: seq<T>) returns (k: nat)
    requires !(a <= b) && !(b <= a)
    ensures k < |a| && k < |b| && a[..k] == b[..k] && a[k] != b[k]
  {
    if a[0] != b[0] {
      k := 0;
    } else {
      assert a == [a[0]] + a[1..] && b == [b[0]] + b[1..];
      k := FirstDifference(a[1..], b[1..]);
      k := k + 1;
      assert a[..k] == [a[0]] + a[1..][..k - 1] && b[..k] == [b[0]] + b[1..][..k - 1];
    }
  }

  lemma {:induction false} NamedAlike(a: Target, b: Target, k: nat, n: nat)
    requires n <= k <= |a| && k <= |b| && a[..k] == b[..k]
    ensures NamedUpTo(a, n) == NamedUpTo(b, n) && (n > 0 ==> NamedUpTo(a, n) != "")
  {
    if n > 0 {
      NamedAlike(a, b, k, n - 1);
      assert a[n - 1] == a[..k][n - 1] && b[n - 1] == b[..k][n - 1];
    }
  }

  /** No attribute that is an array takes anything. */
  ghost predicate NoFreeArrays(schema: Schema) {
    forall named: string :: schema.isArray(named) ==> !schema.isFreeForm(named)
  }

  lemma NoTwoIndexes(a: Target, k: nat)
    requires AllCanonical(a) && Fits(PathOf(a)) && 1 < k < |a| && IsIndex(a[k])
    ensures !IsIndex(a[k - 1])
  {
    hide IsIndex;
    assert IsCanonical(a[k]) && IsCanonical(a[k - 1]);
    assert PathOf(a)[k] == StepOf(a[k]) && PathOf(a)[k - 1] == StepOf(a[k - 1]);
  }

  lemma NotIndexAgainstName(schema: Schema, a: Target, b: Target, k: nat)
    requires NoFreeArrays(schema) && Accepted(schema, a) && Accepted(schema, b)
    requires AllCanonical(a) && AllCanonical(b) && Fits(PathOf(a))
    requires 0 < k < |a| && k < |b| && a[..k] == b[..k]
    ensures !(IsIndex(a[k]) && !IsIndex(b[k]))
  {
    NamedAlike(a, b, k, k);
    NamedAlike(a, b, k, k - 1);
    assert a[k - 1] == a[..k][k - 1] && b[k - 1] == b[..k][k - 1];
    assert SegmentOk(schema, a, k) && SegmentOk(schema, b, k - 1);
    if k > 1 && IsIndex(a[k]) { NoTwoIndexes(a, k); }
    hide Fits, PathOf, AllCanonical, IsIndex, Accepted;
  }

  /** Two targets that a definition may have do not interfere, if their indexes
      are canonical and no index follows an index. */
  lemma AcceptedTargetsPart(schema: Schema, a: Target, b: Target)
    requires NoFreeArrays(schema) && Accepted(schema, a) && Accepted(schema, b)
    requires AllCanonical(a) && AllCanonical(b) && Fits(PathOf(a)) && Fits(PathOf(b))
    requires !(a <= b) && !(b <= a)
    ensures PartsAlike(PathOf(a), PathOf(b))
  {
    hide Fits, Accepted, SegmentOk, NoFreeArrays, PartsAlike, AllCanonical, IsIndex;
    var k := FirstDifference(a, b);
    SameStepsUpTo(a, b, k);
    StepsPartAlike(schema, a, b, k);
    AlikeAt(PathOf(a), PathOf(b), k);
  }

  lemma SameStepsUpTo(a: Target, b: Target, k: nat)
    requires k < |a| && k < |b| && a[..k] == b[..k]
    ensures k < |PathOf(a)| && k < |PathOf(b)| && PathOf(a)[..k] == PathOf(b)[..k]
  {
    hide StepOf;
    var p, q := PathOf(a), PathOf(b);
    forall i | 0 <= i < k ensures p[i] == q[i] {
      assert a[i] == a[..k][i] && b[i] == b[..k][i];
    }
  }

  lemma StepsPartAlike(schema: Schema, a: Target, b: Target, k: nat)
    requires NoFreeArrays(schema) && Accepted(schema, a) && Accepted(schema, b)
    requires AllCanonical(a) && AllCanonical(b) && Fits(PathOf(a)) && Fits(PathOf(b))
    requires k < |a| && k < |b| && a[..k] == b[..k] && a[k] != b[k]
    ensures PathOf(a)[k] != PathOf(b)[k] && PathOf(a)[k].Index? == PathOf(b)[k].Index?
  {
    hide Fits, Accepted, SegmentOk, NoFreeArrays, IsIndex;
    if k > 0 {
      NotIndexAgainstName(schema, a, b, k);
      NotIndexAgainstName(schema, b, a, k);
      CanonicalStepsDiffer(a[k], b[k]);
      assert IsCanonical(a[k]) && IsCanonical(b[k]);
    }
  }

  // ----------------------------------------------------------------- writing

  /** Where a field's value comes from. What is converted may stay among the
      unmapped as well. */
  datatype Source =
    | Constant(value: Json)
    | Found(path: SourcePath, keeps: bool, convert: Json -> Result<Json, string>)

  datatype FieldOf = FieldOf(target: Target, source: Source)

  datatype Effect = Writes(value: Json) | Skips | Fails(reason: string)

  /** What a record gives at a path: what is absent, null, or nil is nothing. */
  function GivenAt(path: SourcePath, record: Json, nil: seq<Json>): Option<Json> {
    var found := Find(record, path.segments);
    if found.Some? && !found.value.Null? && found.value !in nil then found else None
  }

  /** What a field does with a record. */
  function EffectOf(source: Source, record: Json, nil: seq<Json>): Effect {
    match source
    case Constant(value) => Writes(value)
    case Found(path, _, convert) =>
      match GivenAt(path, record, nil)
      case None => Skips
      case Some(found) =>
        match convert(found)
        case Ok(value) => Writes(value)
        case Err(reason) => Fails(reason)
  }

  /** The writes of fields, in order. */
  function WritesOf(fields: seq<FieldOf>, record: Json, nil: seq<Json>): seq<Field> {
    if fields == [] then []
    else
      var last := fields[|fields| - 1];
      WritesOf(fields[..|fields| - 1], record, nil)
      + match EffectOf(last.source, record, nil)
        case Writes(value) => [Field(PathOf(last.target), value)]
        case _ => []
  }

  /** The targets not written, each with the reason. */
  function IssuesOf(fields: seq<FieldOf>, record: Json, nil: seq<Json>): seq<(Target, string)> {
    if fields == [] then []
    else
      var last := fields[|fields| - 1];
      IssuesOf(fields[..|fields| - 1], record, nil)
      + match EffectOf(last.source, record, nil)
        case Fails(reason) => [(last.target, reason)]
        case _ => []
  }

  /** What was given and did not convert, as it is kept. */
  function FailedOf(fields: seq<FieldOf>, objects: seq<SourcePath>, record: Json, nil: seq<Json>): map<string, Json> {
    if fields == [] then map[]
    else
      var last, rest := fields[|fields| - 1], FailedOf(fields[..|fields| - 1], objects, record, nil);
      if Failing(last, record, nil) then
        rest[NameFor(objects, last.source.path) := GivenAt(last.source.path, record, nil).value]
      else rest
  }

  predicate Failing(field: FieldOf, record: Json, nil: seq<Json>) {
    field.source.Found? && GivenAt(field.source.path, record, nil).Some? && EffectOf(field.source, record, nil).Fails?
  }

  /** The paths whose values are used up. */
  function ConsumedOf(fields: seq<FieldOf>, record: Json, nil: seq<Json>): seq<SourcePath> {
    if fields == [] then []
    else
      var last := fields[|fields| - 1].source;
      ConsumedOf(fields[..|fields| - 1], record, nil)
      + if last.Found? && GivenAt(last.path, record, nil).Some? && !last.keeps then [last.path] else []
  }

  /** An event being written. */
  class Event {
    var members: map<string, Json>

    constructor (members: map<string, Json>)
      ensures this.members == members
    {
      this.members := members;
    }

    /** Writes a value at a target's segments. */
    method Set(segments: seq<string>, value: Json)
      modifies this
      ensures segments == [] ==> members == old(members)
      ensures segments != [] ==> Object(members) == SetWithin(Object(old(members)), PathOf(segments), value)
    {
      if segments == [] { return; }
      var first, rest := segments[0], segments[1..];
      assert PathOf(segments)[1..] == StepsOf(rest);
      if rest == [] {
        members := members[first := value];
        return;
      }
      var member := if first in members then members[first] else Null;
      members := members[first := SetWithin(member, StepsOf(rest), value)];
    }

    /** Writes the fields that have a value, and returns which did not convert,
        what is kept of those, and which paths are used up. */
    method WriteFields(fields: seq<FieldOf>, objects: seq<SourcePath>, record: Json, nil: seq<Json>)
      returns (issues: seq<(Target, string)>, kept: map<string, Json>, consumed: seq<SourcePath>)
      modifies this
      ensures Object(members) == Written(Object(old(members)), WritesOf(fields, record, nil))
      ensures issues == IssuesOf(fields, record, nil)
      ensures kept == FailedOf(fields, objects, record, nil) && consumed == ConsumedOf(fields, record, nil)
    {
      hide SetWithin, Written, WritesOf, IssuesOf, PathOf, FailedOf, ConsumedOf, Find, NameFor;
      issues, kept, consumed := [], map[], [];
      NothingWritten(Object(members), record, nil);
      NothingKept(objects, record, nil);
      for i := 0 to |fields|
        invariant Object(members) == Written(Object(old(members)), WritesOf(fields[..i], record, nil))
        invariant issues == IssuesOf(fields[..i], record, nil)
        invariant kept == FailedOf(fields[..i], objects, record, nil)
        invariant consumed == ConsumedOf(fields[..i], record, nil)
      {
        var field := fields[i];
        FieldsOneMore(Object(old(members)), fields, record, nil, i);
        KeptOneMore(fields, objects, record, nil, i);
        match field.source
        case Constant(value) => Set(field.target, value);
        case Found(path, keeps, convert) =>
          var found := FindValue(record, path.segments);
          if found.Some? && !found.value.Null? && found.value !in nil {
            if !keeps { consumed := consumed + [path]; }
            match convert(found.value)
            case Ok(value) => Set(field.target, value);
            case Err(reason) =>
              issues := issues + [(field.target, reason)];
              kept := kept[NameFor(objects, path) := found.value];
          }
      }
      assert fields[..|fields|] == fields;
    }
  }

  lemma NothingKept(objects: seq<SourcePath>, record: Json, nil: seq<Json>)
    ensures FailedOf([], objects, record, nil) == map[] && ConsumedOf([], record, nil) == []
  {
  }

  lemma KeptOneMore(fields: seq<FieldOf>, objects: seq<SourcePath>, record: Json, nil: seq<Json>, i: nat)
    requires i < |fields|
    ensures FailedOf(fields[..i + 1], objects, record, nil) ==
            if Failing(fields[i], record, nil) then
              FailedOf(fields[..i], objects, record, nil)[
                NameFor(objects, fields[i].source.path) := GivenAt(fields[i].source.path, record, nil).value]
            else FailedOf(fields[..i], objects, record, nil)
    ensures var source := fields[i].source;
            ConsumedOf(fields[..i + 1], record, nil) ==
            ConsumedOf(fields[..i], record, nil)
            + if source.Found? && GivenAt(source.path, record, nil).Some? && !source.keeps then [source.path] else []
  {
    hide GivenAt, EffectOf, NameFor;
    assert fields[..i + 1][..i] == fields[..i];
  }

  lemma NothingWritten(root: Json, record: Json, nil: seq<Json>)
    ensures Written(root, WritesOf([], record, nil)) == root && IssuesOf([], record, nil) == []
  {
  }

  lemma FieldsOneMore(root: Json, fields: seq<FieldOf>, record: Json, nil: seq<Json>, i: nat)
    requires i < |fields|
    ensures var effect, path := EffectOf(fields[i].source, record, nil), PathOf(fields[i].target);
            && Written(root, WritesOf(fields[..i + 1], record, nil))
               == (var before := Written(root, WritesOf(fields[..i], record, nil));
                   if effect.Writes? then SetWithin(before, path, effect.value) else before)
            && IssuesOf(fields[..i + 1], record, nil)
               == IssuesOf(fields[..i], record, nil) + if effect.Fails? then [(fields[i].target, effect.reason)] else []
  {
    hide SetWithin, EffectOf;
    assert fields[..i + 1][..i] == fields[..i];
    var writes := WritesOf(fields[..i], record, nil);
    var effect, path := EffectOf(fields[i].source, record, nil), PathOf(fields[i].target);
    if effect.Writes? { assert (writes + [Field(path, effect.value)])[..|writes|] == writes; }
    assert writes + [] == writes;
  }

  // --------------------------------------------------- what an event then holds

  ghost predicate DefinitionOk(schema: Schema, fields: seq<FieldOf>) {
    && NoFreeArrays(schema)
    && (forall i :: 0 <= i < |fields| ==>
          Accepted(schema, fields[i].target) && AllCanonical(fields[i].target) && Fits(PathOf(fields[i].target)))
    && (forall i, j :: 0 <= i < j < |fields| ==>
          !(fields[i].target <= fields[j].target) && !(fields[j].target <= fields[i].target))
  }

  lemma {:induction false} WritesAreOfFields(fields: seq<FieldOf>, record: Json, nil: seq<Json>, n: nat)
    returns (i: nat)
    requires n < |WritesOf(fields, record, nil)|
    ensures i < |fields| && EffectOf(fields[i].source, record, nil) == Writes(WritesOf(fields, record, nil)[n].value)
    ensures WritesOf(fields, record, nil)[n].path == PathOf(fields[i].target)
    ensures n == |WritesOf(fields[..i], record, nil)|
  {
    var rest := fields[..|fields| - 1];
    if n < |WritesOf(rest, record, nil)| {
      i := WritesAreOfFields(rest, record, nil, n);
      assert rest[..i] == fields[..i];
    } else {
      i := |fields| - 1;
    }
  }

  lemma {:induction false} FieldIsWritten(fields: seq<FieldOf>, record: Json, nil: seq<Json>, i: nat, value: Json)
    requires i < |fields| && EffectOf(fields[i].source, record, nil) == Writes(value)
    ensures var n := |WritesOf(fields[..i], record, nil)|;
            n < |WritesOf(fields, record, nil)|
                && WritesOf(fields, record, nil)[n] == Field(PathOf(fields[i].target), value)
  {
    var rest := fields[..|fields| - 1];
    if i == |fields| - 1 {
      assert fields[..i] == rest;
    } else {
      FieldIsWritten(rest, record, nil, i, value);
      assert rest[..i] == fields[..i];
    }
  }

  lemma WritesKeepApart(schema: Schema, fields: seq<FieldOf>, record: Json, nil: seq<Json>)
    requires DefinitionOk(schema, fields)
    ensures KeepApart(WritesOf(fields, record, nil))
  {
    hide PartsAlike, Fits, Accepted, NoFreeArrays, AllCanonical;
    var writes := WritesOf(fields, record, nil);
    forall m, n | 0 <= m < |writes| && 0 <= n < |writes| && m != n ensures PartsAlike(writes[m].path, writes[n].path) {
      var i := WritesAreOfFields(fields, record, nil, m);
      var j := WritesAreOfFields(fields, record, nil, n);
      if i < j {
        AcceptedTargetsPart(schema, fields[i].target, fields[j].target);
      } else {
        AcceptedTargetsPart(schema, fields[j].target, fields[i].target);
        PartsIsSymmetric(writes[n].path, writes[m].path);
      }
    }
  }

  /** In the event of a record, every field that has a value reads it back at its
      target, whatever the record and the other fields. */
  lemma EveryTargetReadsBack(
      schema: Schema, fields: seq<FieldOf>, record: Json, nil: seq<Json>, start: map<string, Json>, i: nat, value: Json)
    requires DefinitionOk(schema, fields) && i < |fields| && EffectOf(fields[i].source, record, nil) == Writes(value)
    requires forall k :: 0 <= k < |fields| ==> fields[k].target[0] !in start
    ensures Read(Written(Object(start), WritesOf(fields, record, nil)), PathOf(fields[i].target)) == Some(value)
  {
    var writes := WritesOf(fields, record, nil);
    WritesKeepApart(schema, fields, record, nil);
    FieldIsWritten(fields, record, nil, i, value);
    forall n | 0 <= n < |writes| ensures IsClear(Object(start), writes[n].path) {
      var k := WritesAreOfFields(fields, record, nil, n);
      StartIsClear(start, fields[k].target);
    }
    EveryFieldReadsBack(Object(start), writes, |WritesOf(fields[..i], record, nil)|);
  }

  lemma StartIsClear(start: map<string, Json>, target: Target)
    requires target[0] !in start && Fits(PathOf(target))
    ensures IsClear(Object(start), PathOf(target))
  {
    FitsOn(PathOf(target));
    NewIsClear(PathOf(target)[1..]);
  }

  // ----------------------------------------------- what else a definition may have

  const SPELLED: Target := ["a", "0", "x"]
  const SPELLED_AGAIN: Target := ["a", "00", "x"]

  lemma SpellingsAreOnePath()
    ensures PathOf(SPELLED) == PathOf(SPELLED_AGAIN) && Fits(PathOf(SPELLED))
    ensures IsIndex("0") && IsIndex("00") && !IsIndex("x") && !IsIndex("a")
  {
    assert CodesOf("0") == [48] && CodesOf("00") == [48, 48] && CodesOf("x")[0] == 120 && CodesOf("a")[0] == 97;
    assert ValueOf([48][..0]) == 0 && ValueOf([48]) == 0 && [48, 48][..1] == [48] && ValueOf([48, 48]) == 0;
    assert StepOf("0") == Index(0) && StepOf("00") == Index(0) && StepOf("x") == Name("x");
  }

  lemma SpellingsAreAccepted(schema: Schema)
    requires schema.isArray("a") && !schema.isArray("a.x")
    ensures Accepted(schema, SPELLED) && Accepted(schema, SPELLED_AGAIN) && NoOverlap([SPELLED, SPELLED_AGAIN])
  {
    SpellingsAreOnePath();
    hide IsIndex;
    assert NamedUpTo(SPELLED, 1) == "a" == NamedUpTo(SPELLED_AGAIN, 1);
    assert NamedUpTo(SPELLED, 2) == "a" == NamedUpTo(SPELLED_AGAIN, 2);
    assert SPELLED[1] != SPELLED_AGAIN[1] by { assert |SPELLED[1]| != |SPELLED_AGAIN[1]|; }
  }

  lemma LaterOverwrites(path: seq<Step>, v: Json, w: Json)
    requires Fits(path) && path != [] && path[0].Name?
    ensures Read(Written(Object(map[]), [Field(path, v), Field(path, w)]), path) == Some(w)
  {
    var fields := [Field(path, v), Field(path, w)];
    NewIsClear(path);
    hide SetWithin, Read, Fits;
    assert fields[..1] == [Field(path, v)] && fields[..1][..0] == [];
    assert Written(Object(map[]), fields[..1][..0]) == Object(map[]);
    assert Written(Object(map[]), fields[..1]) == SetWithin(Object(map[]), path, v);
    TwiceIsClear(Object(map[]), path, v);
    ReadsBackExactlyWhenClear(Written(Object(map[]), fields[..1]), path, w);
  }

  /** One element may be named in two ways: both targets are accepted, and what
      the first writes is lost. */
  lemma TwoSpellingsCollide(schema: Schema, v: Json, w: Json)
    requires schema.isArray("a") && !schema.isArray("a.x")
    ensures Accepted(schema, SPELLED) && Accepted(schema, SPELLED_AGAIN) && NoOverlap([SPELLED, SPELLED_AGAIN])
    ensures Read(Written(Object(map[]), [Field(PathOf(SPELLED), v), Field(PathOf(SPELLED_AGAIN), w)]),
            PathOf(SPELLED)) == Some(w)
  {
    SpellingsAreOnePath();
    SpellingsAreAccepted(schema);
    LaterOverwrites(PathOf(SPELLED), v, w);
  }

  lemma {:induction false} TwiceIsClear(slot: Json, p: seq<Step>, value: Json)
    requires IsClear(slot, p)
    ensures IsClear(SetWithin(slot, p, value), p)
    decreases |p|
  {
    if p != [] {
      match p[0]
      case Index(index) =>
        TwiceIsClear(if slot.Array? && index < |slot.items| then slot.items[index] else Object(map[]), p[1..], value);
      case Name(name) =>
        TwiceIsClear(if slot.Object? && name in slot.members then slot.members[name] else Null, p[1..], value);
    }
  }

  /** An index after an index is accepted after an array, and what is written
      there is always lost. */
  lemma IndexAfterIndexIsLost(schema: Schema, value: Json)
    requires schema.isArray("a")
    ensures var p: Target := ["a", "0", "0"];
            Accepted(schema, p) && Read(SetWithin(Object(map[]), PathOf(p), value), PathOf(p)) == None
  {
    var p: Target := ["a", "0", "0"];
    assert CodesOf("0") == [48] && ValueOf([48][..0]) == 0 && ValueOf([48]) == 0;
    assert StepOf("0") == Index(0) && IsIndex("0");
    assert !IsIndex("a") by { assert CodesOf("a")[0] == 97; }
    assert NamedUpTo(p, 1) == "a" && NamedUpTo(p, 2) == "a";
    assert PathOf(p)[1] == Index(0) && PathOf(p)[2] == Index(0);
    assert !Fits(PathOf(p));
    NewIsClear(PathOf(p));
    ReadsBackExactlyWhenClear(Object(map[]), PathOf(p), value);
  }
}
