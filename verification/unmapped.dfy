/** What an event keeps of a record beside its fields: the values that did not
    convert, and the members that no field uses up. Nothing is said to be
    dropped; here, exactly what is. */
module Unmapped {
  import opened Base
  import opened Trees
  import opened SourcePaths
  import opened Normalizing

  type Kept = map<string, Json>

  /** A map's keys in the order it is visited in, whatever that is. */
  ghost predicate Visits(keys: seq<string>, members: map<string, Json>) {
    && (forall key :: key in keys <==> key in members)
    && (forall i, j :: 0 <= i < j < |keys| ==> keys[i] != keys[j])
  }

  type Visiting = map<string, Json> -> seq<string>

  ghost predicate VisitsAll(visit: Visiting) { forall members :: Visits(visit(members), members) }

  function Qualified(object_: SourcePath, key: string): string { object_.text + "." + key }

  /** A member kept by its name, or if that is taken by its path, or if both are
      not at all. */
  function Keep(kept: Kept, object_: SourcePath, key: string, member: Json): Kept {
    var name := if key in kept then Qualified(object_, key) else key;
    if name in kept then kept else kept[name := member]
  }

  /** Some path used up names the member. */
  predicate IsNamed(consumed: seq<SourcePath>, object_: SourcePath, key: string) {
    exists i :: 0 <= i < |consumed| && MemberOf(consumed[i], object_) == Some(key)
  }

  predicate IsKeepable(consumed: seq<SourcePath>, object_: SourcePath, key: string, member: Json) {
    !member.Null? && !IsNamed(consumed, object_, key)
  }

  function KeepMembers(
      kept: Kept, object_: SourcePath, members: map<string, Json>, keys: seq<string>, consumed: seq<SourcePath>): Kept
    requires forall key :: key in keys ==> key in members
  {
    if keys == [] then kept
    else
      var last, rest := keys[|keys| - 1], KeepMembers(kept, object_, members, keys[..|keys| - 1], consumed);
      if IsKeepable(consumed, object_, last, members[last]) then Keep(rest, object_, last, members[last]) else rest
  }

  /** The members of the object at a path; none if there is no object. */
  function MembersAt(record: Json, object_: SourcePath): map<string, Json> {
    var found := Find(record, object_.segments);
    if found.Some? && found.value.Object? then found.value.members else map[]
  }

  ghost function KeepObjects(
      kept: Kept, objects: seq<SourcePath>, record: Json, visit: Visiting, consumed: seq<SourcePath>): Kept
    requires VisitsAll(visit)
  {
    if objects == [] then kept
    else
      var last := objects[|objects| - 1];
      var members := MembersAt(record, last);
      assert Visits(visit(members), members);
      KeepMembers(KeepObjects(kept, objects[..|objects| - 1], record, visit, consumed), last, members,
          visit(members), consumed)
  }

  // ---------------------------------------------------------------- the loops

  /** The loop over one object's members. */
  method KeepEach(
      start: Kept, object_: SourcePath, members: map<string, Json>, keys: seq<string>, consumed: seq<SourcePath>)
    returns (kept: Kept)
    requires forall key :: key in keys ==> key in members
    ensures kept == KeepMembers(start, object_, members, keys, consumed)
  {
    hide IsKeepable, Keep;
    kept := start;
    for i := 0 to |keys|
      invariant kept == KeepMembers(start, object_, members, keys[..i], consumed)
    {
      assert keys[..i + 1][..i] == keys[..i];
      if IsKeepable(consumed, object_, keys[i], members[keys[i]]) {
        kept := Keep(kept, object_, keys[i], members[keys[i]]);
      }
    }
    assert keys[..|keys|] == keys;
  }

  /** The loop over the objects whose members are kept. */
  method KeepAll(start: Kept, objects: seq<SourcePath>, record: Json, visit: Visiting, consumed: seq<SourcePath>)
    returns (kept: Kept)
    requires VisitsAll(visit)
    ensures kept == KeepObjects(start, objects, record, visit, consumed)
  {
    hide KeepObjects, KeepMembers, Find;
    kept := start;
    NoObjectsKept(start, record, visit, consumed);
    assert objects[..0] == [];
    for i := 0 to |objects|
      invariant kept == KeepObjects(start, objects[..i], record, visit, consumed)
    {
      var found := FindValue(record, objects[i].segments);
      var members := if found.Some? && found.value.Object? then found.value.members else map[];
      assert members == MembersAt(record, objects[i]) && Visits(visit(members), members);
      ObjectsOneMore(start, objects, record, visit, consumed, i);
      kept := KeepEach(kept, objects[i], members, visit(members), consumed);
    }
    assert objects[..|objects|] == objects;
  }

  lemma NoObjectsKept(start: Kept, record: Json, visit: Visiting, consumed: seq<SourcePath>)
    requires VisitsAll(visit)
    ensures KeepObjects(start, [], record, visit, consumed) == start
  {
  }

  lemma ObjectsOneMore(
      start: Kept, objects: seq<SourcePath>, record: Json, visit: Visiting, consumed: seq<SourcePath>, i: nat)
    requires VisitsAll(visit) && i < |objects|
    ensures var members := MembersAt(record, objects[i]);
            && Visits(visit(members), members)
            && KeepObjects(start, objects[..i + 1], record, visit, consumed)
               == KeepMembers(KeepObjects(start, objects[..i], record, visit, consumed), objects[i], members,
                              visit(members), consumed)
  {
    hide MembersAt, KeepMembers;
    var members := MembersAt(record, objects[i]);
    assert Visits(visit(members), members);
    assert objects[..i + 1][..i] == objects[..i];
  }

  function WithMember(root: Json, name: string, value: Json): Json {
    if root.Object? then Object(root.members[name := value]) else root
  }

  /** All that a record leaves beside its fields. */
  ghost function RestOf(
      fields: seq<FieldOf>, objects: seq<SourcePath>, record: Json, nil: seq<Json>, visit: Visiting): Kept
    requires VisitsAll(visit)
  {
    KeepObjects(FailedOf(fields, objects, record, nil), objects, record, visit, ConsumedOf(fields, record, nil))
  }

  /** The event of a record. */
  ghost function EventOf(
      start: map<string, Json>, fields: seq<FieldOf>, objects: seq<SourcePath>, record: Json, nil: seq<Json>,
      visit: Visiting)
    : Json
    requires VisitsAll(visit)
  {
    var written, rest :=
        Written(Object(start), WritesOf(fields, record, nil)), RestOf(fields, objects, record, nil, visit);
    if rest == map[] then written else WithMember(written, "unmapped", Object(rest))
  }

  method Normalize(
      event: Event, fields: seq<FieldOf>, objects: seq<SourcePath>, record: Json, nil: seq<Json>, visit: Visiting)
    returns (issues: seq<(Target, string)>)
    requires VisitsAll(visit)
    modifies event
    ensures Object(event.members) == EventOf(old(event.members), fields, objects, record, nil, visit)
    ensures issues == IssuesOf(fields, record, nil)
  {
    hide Written, WritesOf, KeepObjects, FailedOf, ConsumedOf, IssuesOf;
    var failed, consumed;
    issues, failed, consumed := event.WriteFields(fields, objects, record, nil);
    var kept := KeepAll(failed, objects, record, visit, consumed);
    if kept != map[] { event.members := event.members["unmapped" := Object(kept)]; }
  }

  // ------------------------------------------------------ which members are kept

  /** A member is kept by one of its names. */
  predicate IsKept(kept: Kept, object_: SourcePath, key: string, member: Json) {
    || (key in kept && kept[key] == member)
    || (Qualified(object_, key) in kept && kept[Qualified(object_, key)] == member)
  }

  /** Both of its names are taken by other values. */
  predicate IsCrowdedOut(kept: Kept, object_: SourcePath, key: string, member: Json) {
    && key in kept && kept[key] != member
    && Qualified(object_, key) in kept && kept[Qualified(object_, key)] != member
  }

  predicate Within(a: Kept, b: Kept) { forall name :: name in a ==> name in b && a[name] == b[name] }

  lemma {:induction false} MembersKeepOthers(
      kept: Kept, object_: SourcePath, members: map<string, Json>, keys: seq<string>, n: nat, consumed: seq<SourcePath>)
    requires n <= |keys| && forall key :: key in keys ==> key in members
    ensures Within(KeepMembers(kept, object_, members, keys[..n], consumed),
            KeepMembers(kept, object_, members, keys, consumed))
    decreases |keys|
  {
    hide IsKeepable;
    if n == |keys| {
      assert keys[..n] == keys;
    } else {
      var rest := keys[..|keys| - 1];
      MembersKeepOthers(kept, object_, members, rest, n, consumed);
      assert rest[..n] == keys[..n];
    }
  }

  /** What is kept stays, under the name it was kept by. */
  lemma {:induction false} ObjectsKeepOthers(
      kept: Kept, objects: seq<SourcePath>, n: nat, record: Json, visit: Visiting, consumed: seq<SourcePath>)
    requires n <= |objects| && VisitsAll(visit)
    ensures Within(KeepObjects(kept, objects[..n], record, visit, consumed),
            KeepObjects(kept, objects, record, visit, consumed))
    decreases |objects|
  {
    hide KeepMembers, MembersAt;
    if n == |objects| {
      assert objects[..n] == objects;
    } else {
      var rest := objects[..|objects| - 1];
      ObjectsKeepOthers(kept, rest, n, record, visit, consumed);
      assert rest[..n] == objects[..n];
      var last := objects[|objects| - 1];
      var members := MembersAt(record, last);
      assert Visits(visit(members), members);
      var before := KeepObjects(kept, rest, record, visit, consumed);
      MembersKeepOthers(before, last, members, visit(members), 0, consumed);
      assert visit(members)[..0] == [];
      assert KeepMembers(before, last, members, [], consumed) == before
             by { NoMembersKept(before, last, members, consumed); }
    }
  }

  lemma NoMembersKept(kept: Kept, object_: SourcePath, members: map<string, Json>, consumed: seq<SourcePath>)
    ensures KeepMembers(kept, object_, members, [], consumed) == kept
  {
  }

  /** What is kept when the turn of a member comes. */
  ghost function BeforeTurn(
      start: Kept, objects: seq<SourcePath>, record: Json, visit: Visiting, consumed: seq<SourcePath>, o: nat,
      k: nat): Kept
    requires VisitsAll(visit) && o < |objects| && k < |visit(MembersAt(record, objects[o]))|
  {
    var members := MembersAt(record, objects[o]);
    assert Visits(visit(members), members);
    KeepMembers(KeepObjects(start, objects[..o], record, visit, consumed), objects[o], members, visit(members)[..k],
        consumed)
  }

  /** Of a listed object, a member that no path used up names is kept exactly
      unless both of its names are taken by other values when its turn comes. */
  lemma MemberIsKeptExactly(
      start: Kept, objects: seq<SourcePath>, record: Json, visit: Visiting, consumed: seq<SourcePath>, o: nat, k: nat)
    requires VisitsAll(visit) && o < |objects| && k < |visit(MembersAt(record, objects[o]))|
    requires var members := MembersAt(record, objects[o]);
             var key := visit(members)[k];
             key in members && IsKeepable(consumed, objects[o], key, members[key])
    ensures var members := MembersAt(record, objects[o]);
            var key := visit(members)[k];
            IsKept(KeepObjects(start, objects, record, visit, consumed), objects[o], key, members[key]) <==>
            !IsCrowdedOut(BeforeTurn(start, objects, record, visit, consumed, o, k), objects[o], key, members[key])
  {
    var members := MembersAt(record, objects[o]);
    var keys := visit(members);
    var before := BeforeTurn(start, objects, record, visit, consumed, o, k);
    var upTo := KeepObjects(start, objects[..o], record, visit, consumed);
    var all := KeepObjects(start, objects[..o + 1], record, visit, consumed);
    var final := KeepObjects(start, objects, record, visit, consumed);
    hide KeepObjects, MembersAt, Within, Keep, IsKeepable;
    ObjectsOneMore(start, objects, record, visit, consumed, o);
    TurnOfMember(upTo, objects[o], members, keys, k, consumed);
    ObjectsKeepOthers(start, objects, o + 1, record, visit, consumed);
    hide KeepMembers, BeforeTurn;
    WithinBoth(Keep(before, objects[o], keys[k], members[keys[k]]), all, final);
    TurnIsKept(before, Keep(before, objects[o], keys[k], members[keys[k]]), final, objects[o], keys[k],
        members[keys[k]]);
  }

  lemma WithinBoth(a: Kept, b: Kept, c: Kept)
    requires Within(a, b) && Within(b, c)
    ensures Within(a, c)
  {
  }

  lemma TurnOfMember(
      upTo: Kept, object_: SourcePath, members: map<string, Json>, keys: seq<string>, k: nat, consumed: seq<SourcePath>)
    requires k < |keys| && (forall key :: key in keys ==> key in members)
    requires IsKeepable(consumed, object_, keys[k], members[keys[k]])
    ensures Within(Keep(KeepMembers(upTo, object_, members, keys[..k], consumed), object_, keys[k], members[keys[k]]),
                   KeepMembers(upTo, object_, members, keys, consumed))
  {
    hide Within, Keep, IsKeepable;
    assert keys[..k + 1][..k] == keys[..k];
    MembersKeepOthers(upTo, object_, members, keys, k + 1, consumed);
  }

  lemma TurnIsKept(before: Kept, after: Kept, final: Kept, object_: SourcePath, key: string, member: Json)
    requires after == Keep(before, object_, key, member) && Within(after, final)
    ensures IsKept(final, object_, key, member) <==> !IsCrowdedOut(before, object_, key, member)
  {
    hide Qualified;
  }

  // ------------------------------------------------- when nothing is crowded out

  /** A member whose turn comes. */
  predicate Claims(objects: seq<SourcePath>, record: Json, consumed: seq<SourcePath>, o: nat, key: string) {
    && o < |objects| && key in MembersAt(record, objects[o])
    && IsKeepable(consumed, objects[o], key, MembersAt(record, objects[o])[key])
  }

  /** No member's path is another's name, or what a failed value is kept as. */
  ghost predicate PathsAreFree(start: Kept, objects: seq<SourcePath>, record: Json, consumed: seq<SourcePath>) {
    forall o: nat, key :: Claims(objects, record, consumed, o, key) ==>
      && Qualified(objects[o], key) !in start
      && forall p: nat, other :: Claims(objects, record, consumed, p, other) ==>
           && Qualified(objects[o], key) != other
           && (Qualified(objects[o], key) == Qualified(objects[p], other) ==>
                 MembersAt(record, objects[o])[key] == MembersAt(record, objects[p])[other])
  }

  /** A name is that of a failed value, or one of a member's, with its value. */
  ghost predicate IsOf(
      name: string, value: Json, start: Kept, objects: seq<SourcePath>, record: Json, consumed: seq<SourcePath>)
  {
    || (name in start && start[name] == value)
    || exists o: nat, key :: Claims(objects, record, consumed, o, key) && MembersAt(record, objects[o])[key] == value
                        && (name == key || name == Qualified(objects[o], key))
  }

  ghost predicate AreOf(
      kept: Kept, start: Kept, objects: seq<SourcePath>, record: Json, consumed: seq<SourcePath>)
  {
    forall name :: name in kept ==> IsOf(name, kept[name], start, objects, record, consumed)
  }

  lemma {:induction false} MembersAreOf(
      kept: Kept, start: Kept, objects: seq<SourcePath>, record: Json, consumed: seq<SourcePath>, o: nat,
      keys: seq<string>)
    requires o < |objects| && AreOf(kept, start, objects, record, consumed)
    requires forall key :: key in keys ==> key in MembersAt(record, objects[o])
    ensures AreOf(KeepMembers(kept, objects[o], MembersAt(record, objects[o]), keys, consumed), start, objects,
            record, consumed)
  {
    if keys != [] {
      var last, members := keys[|keys| - 1], MembersAt(record, objects[o]);
      var rest := KeepMembers(kept, objects[o], members, keys[..|keys| - 1], consumed);
      MembersAreOf(kept, start, objects, record, consumed, o, keys[..|keys| - 1]);
      hide KeepMembers, MembersAt, Qualified, IsKeepable;
      if IsKeepable(consumed, objects[o], last, members[last]) {
        assert Claims(objects, record, consumed, o, last);
        OneMoreIsOf(rest, start, objects, record, consumed, o, last);
      }
    }
  }

  lemma OneMoreIsOf(
      rest: Kept, start: Kept, objects: seq<SourcePath>, record: Json, consumed: seq<SourcePath>, o: nat, key: string)
    requires AreOf(rest, start, objects, record, consumed) && Claims(objects, record, consumed, o, key)
    ensures AreOf(Keep(rest, objects[o], key, MembersAt(record, objects[o])[key]), start, objects, record, consumed)
  {
    hide MembersAt, Qualified, IsKeepable;
    var member := MembersAt(record, objects[o])[key];
    assert IsOf(key, member, start, objects, record, consumed);
    assert IsOf(Qualified(objects[o], key), member, start, objects, record, consumed);
    hide IsOf;
  }

  lemma {:induction false} AllAreOf(
      start: Kept, objects: seq<SourcePath>, record: Json, visit: Visiting, consumed: seq<SourcePath>, n: nat)
    requires VisitsAll(visit) && n <= |objects|
    ensures AreOf(KeepObjects(start, objects[..n], record, visit, consumed), start, objects, record, consumed)
  {
    if n > 0 {
      AllAreOf(start, objects, record, visit, consumed, n - 1);
      assert objects[..n][..n - 1] == objects[..n - 1];
      var members := MembersAt(record, objects[n - 1]);
      assert Visits(visit(members), members);
      hide AreOf, KeepMembers, MembersAt;
      MembersAreOf(KeepObjects(start, objects[..n - 1], record, visit, consumed), start, objects, record, consumed,
          n - 1, visit(members));
    }
  }

  /** If no member's path is also a name, every member that no path used up names
      is kept. */
  lemma AllMembersAreKept(
      start: Kept, objects: seq<SourcePath>, record: Json, visit: Visiting, consumed: seq<SourcePath>, o: nat,
      key: string)
    requires VisitsAll(visit) && PathsAreFree(start, objects, record, consumed)
    requires Claims(objects, record, consumed, o, key)
    ensures IsKept(KeepObjects(start, objects, record, visit, consumed), objects[o], key,
            MembersAt(record, objects[o])[key])
  {
    var members := MembersAt(record, objects[o]);
    assert Visits(visit(members), members);
    var k :| 0 <= k < |visit(members)| && visit(members)[k] == key;
    AllAreOf(start, objects, record, visit, consumed, o);
    MembersAreOf(KeepObjects(start, objects[..o], record, visit, consumed), start, objects, record, consumed, o,
        visit(members)[..k]);
    var before := BeforeTurn(start, objects, record, visit, consumed, o, k);
    MemberIsKeptExactly(start, objects, record, visit, consumed, o, k);
    hide KeepObjects, KeepMembers, MembersAt, BeforeTurn, Qualified, IsKeepable, IsKept;
    var path := Qualified(objects[o], key);
    assert path in before ==> IsOf(path, before[path], start, objects, record, consumed);
  }

  // ------------------------------------------------- values that did not convert

  function NameOf(objects: seq<SourcePath>, field: FieldOf): string {
    if field.source.Found? then NameFor(objects, field.source.path) else ""
  }

  function GivenTo(field: FieldOf, record: Json, nil: seq<Json>): Json {
    if field.source.Found? && GivenAt(field.source.path, record, nil).Some? then
      GivenAt(field.source.path, record, nil).value
    else Null
  }

  /** The last of the fields of one name that did not convert. */
  ghost predicate IsLastFailure(
      fields: seq<FieldOf>, objects: seq<SourcePath>, record: Json, nil: seq<Json>, name: string, j: nat)
  {
    && j < |fields| && Failing(fields[j], record, nil) && NameOf(objects, fields[j]) == name
    && forall m :: j < m < |fields| && Failing(fields[m], record, nil) ==> NameOf(objects, fields[m]) != name
  }

  lemma {:induction false} HasLastFailure(
      fields: seq<FieldOf>, objects: seq<SourcePath>, record: Json, nil: seq<Json>, i: nat)
    returns (j: nat)
    requires i < |fields| && Failing(fields[i], record, nil)
    ensures IsLastFailure(fields, objects, record, nil, NameOf(objects, fields[i]), j)
    decreases |fields| - i
  {
    hide Failing, NameOf;
    if m: nat :| i < m < |fields| && Failing(fields[m], record, nil)
                 && NameOf(objects, fields[m]) == NameOf(objects, fields[i]) {
      j := HasLastFailure(fields, objects, record, nil, m);
    } else {
      j := i;
    }
  }

  lemma {:induction false} LastFailureIsKept(
      fields: seq<FieldOf>, objects: seq<SourcePath>, record: Json, nil: seq<Json>, name: string, j: nat)
    requires IsLastFailure(fields, objects, record, nil, name, j)
    ensures var failed := FailedOf(fields, objects, record, nil);
            name in failed && failed[name] == GivenTo(fields[j], record, nil)
  {
    hide NameFor, GivenAt, EffectOf;
    var n := |fields| - 1;
    if j < n {
      assert forall m :: 0 <= m < n ==> fields[..n][m] == fields[m];
      LastFailureIsKept(fields[..n], objects, record, nil, name, j);
    }
  }

  /** A value that did not convert is kept to the end exactly when the last one of
      its name is equal to it. */
  lemma FailedIsKeptExactly(
      fields: seq<FieldOf>, objects: seq<SourcePath>, record: Json, nil: seq<Json>, visit: Visiting, i: nat, j: nat)
    requires VisitsAll(visit) && i < |fields| && Failing(fields[i], record, nil)
    requires IsLastFailure(fields, objects, record, nil, NameOf(objects, fields[i]), j)
    ensures var rest, name := RestOf(fields, objects, record, nil, visit), NameOf(objects, fields[i]);
            && name in rest
            && (rest[name] == GivenTo(fields[i], record, nil) <==>
                GivenTo(fields[j], record, nil) == GivenTo(fields[i], record, nil))
  {
    hide KeepObjects, NameOf, GivenTo, Failing, FailedOf, ConsumedOf;
    LastFailureIsKept(fields, objects, record, nil, NameOf(objects, fields[i]), j);
    FailedStay(fields, objects, record, nil, visit);
  }

  lemma FailedStay(
      fields: seq<FieldOf>, objects: seq<SourcePath>, record: Json, nil: seq<Json>, visit: Visiting)
    requires VisitsAll(visit)
    ensures Within(FailedOf(fields, objects, record, nil), RestOf(fields, objects, record, nil, visit))
  {
    hide KeepObjects, FailedOf, ConsumedOf, Within;
    var failed := FailedOf(fields, objects, record, nil);
    ObjectsKeepOthers(failed, objects, 0, record, visit, ConsumedOf(fields, record, nil));
    assert objects[..0] == [];
    NoObjectsKept(failed, record, visit, ConsumedOf(fields, record, nil));
  }

  /** The value of every field that did not convert is kept, by the field's name. */
  ghost predicate FailedAreKept(
      kept: Kept, fields: seq<FieldOf>, objects: seq<SourcePath>, record: Json, nil: seq<Json>)
  {
    forall i :: 0 <= i < |fields| && Failing(fields[i], record, nil) ==>
      NameOf(objects, fields[i]) in kept && kept[NameOf(objects, fields[i])] == GivenTo(fields[i], record, nil)
  }

  /** Fields that do not convert and have one name are given one value. */
  ghost predicate NamesAgree(fields: seq<FieldOf>, objects: seq<SourcePath>, record: Json, nil: seq<Json>) {
    forall i, j :: 0 <= i < |fields| && 0 <= j < |fields|
                   && Failing(fields[i], record, nil) && Failing(fields[j], record, nil)
                   && NameOf(objects, fields[i]) == NameOf(objects, fields[j]) ==>
      GivenTo(fields[i], record, nil) == GivenTo(fields[j], record, nil)
  }

  /** All values that did not convert are kept exactly when no two of them that
      differ have one name. */
  lemma FailedAreKeptExactly(
      fields: seq<FieldOf>, objects: seq<SourcePath>, record: Json, nil: seq<Json>, visit: Visiting)
    requires VisitsAll(visit)
    ensures FailedAreKept(RestOf(fields, objects, record, nil, visit), fields, objects, record, nil) <==>
            NamesAgree(fields, objects, record, nil)
  {
    hide RestOf, NameOf, GivenTo, Failing;
    var rest := RestOf(fields, objects, record, nil, visit);
    if NamesAgree(fields, objects, record, nil) {
      forall i | 0 <= i < |fields| && Failing(fields[i], record, nil)
        ensures NameOf(objects, fields[i]) in rest
                && rest[NameOf(objects, fields[i])] == GivenTo(fields[i], record, nil)
      {
        var j := HasLastFailure(fields, objects, record, nil, i);
        FailedIsKeptExactly(fields, objects, record, nil, visit, i, j);
      }
    }
  }

  // --------------------------------------------------- which members are saved

  /** A field whose path names a member is given it, and has it: converted, where
      the path is used up, or not, and kept by the field's name. What only a field
      that keeps its source converts is to be kept as written besides. */
  ghost predicate Saves(
      rest: Kept, fields: seq<FieldOf>, objects: seq<SourcePath>, record: Json, nil: seq<Json>, i: nat,
      object_: SourcePath, key: string, member: Json)
  {
    && i < |fields| && fields[i].source.Found? && MemberOf(fields[i].source.path, object_) == Some(key)
    && GivenAt(fields[i].source.path, record, nil) == Some(member)
    && var name := NameOf(objects, fields[i]);
       if EffectOf(fields[i].source, record, nil).Writes? then !fields[i].source.keeps
       else name in rest && rest[name] == member
  }

  /** A member is saved: kept by one of its names, if no path used up names it, or
      with a field whose path does. An equal value kept for another member does
      not count. */
  ghost predicate IsSaved(
      rest: Kept, fields: seq<FieldOf>, objects: seq<SourcePath>, record: Json, nil: seq<Json>, object_: SourcePath,
      key: string, member: Json)
  {
    || (!IsNamed(ConsumedOf(fields, record, nil), object_, key) && IsKept(rest, object_, key, member))
    || exists i: nat :: Saves(rest, fields, objects, record, nil, i, object_, key, member)
  }

  /** Before any of it is written: the first reading of the field's path leads to
      the member, which converts, or is equal to the last failure of its name. */
  ghost predicate WillSave(
      fields: seq<FieldOf>, objects: seq<SourcePath>, record: Json, nil: seq<Json>, i: nat, object_: SourcePath,
      key: string, member: Json)
  {
    && i < |fields| && fields[i].source.Found? && MemberOf(fields[i].source.path, object_) == Some(key)
    && FirstLeadsTo(record, fields[i].source.path.segments, member) && member !in nil
    && if fields[i].source.convert(member).Ok? then !fields[i].source.keeps
       else exists j: nat :: IsLastFailure(fields, objects, record, nil, NameOf(objects, fields[i]), j)
                             && GivenTo(fields[j], record, nil) == member
  }

  lemma SavesExactly(
      fields: seq<FieldOf>, objects: seq<SourcePath>, record: Json, nil: seq<Json>, visit: Visiting, i: nat,
      object_: SourcePath, key: string, member: Json)
    requires VisitsAll(visit) && !member.Null?
    ensures Saves(RestOf(fields, objects, record, nil, visit), fields, objects, record, nil, i, object_, key, member)
            <==> WillSave(fields, objects, record, nil, i, object_, key, member)
  {
    hide RestOf, Find, FirstLeadsTo, MemberOf, NameFor, IsLastFailure;
    if i < |fields| && fields[i].source.Found? {
      var source := fields[i].source;
      FindsWhatLeads(record, source.path.segments);
      assert GivenAt(source.path, record, nil) == Some(member) <==>
             FirstLeadsTo(record, source.path.segments, member) && member !in nil;
      if GivenAt(source.path, record, nil) == Some(member) && source.convert(member).Err? {
        assert Failing(fields[i], record, nil) && GivenTo(fields[i], record, nil) == member;
        hide GivenAt, EffectOf, Failing, GivenTo;
        FailureSavesExactly(fields, objects, record, nil, visit, i, member);
      }
    }
  }

  lemma FailureSavesExactly(
      fields: seq<FieldOf>, objects: seq<SourcePath>, record: Json, nil: seq<Json>, visit: Visiting, i: nat,
      member: Json)
    requires VisitsAll(visit) && i < |fields| && Failing(fields[i], record, nil)
    requires GivenTo(fields[i], record, nil) == member
    ensures var rest, name := RestOf(fields, objects, record, nil, visit), NameOf(objects, fields[i]);
            name in rest && rest[name] == member <==>
            exists j: nat :: IsLastFailure(fields, objects, record, nil, name, j)
                             && GivenTo(fields[j], record, nil) == member
  {
    hide RestOf, NameOf, GivenTo, Failing;
    var last := HasLastFailure(fields, objects, record, nil, i);
    FailedIsKeptExactly(fields, objects, record, nil, visit, i, last);
    if j: nat :| IsLastFailure(fields, objects, record, nil, NameOf(objects, fields[i]), j)
                 && GivenTo(fields[j], record, nil) == member {
      FailedIsKeptExactly(fields, objects, record, nil, visit, i, j);
    }
  }

  /** Of a listed object, a member that is not null is saved exactly when no path
      used up names it and one of its names is free at its turn, or the first
      reading of a field's path leads to it and the field converts it or fails
      with it last. */
  lemma MemberIsSavedExactly(
      fields: seq<FieldOf>, objects: seq<SourcePath>, record: Json, nil: seq<Json>, visit: Visiting, o: nat, k: nat)
    requires VisitsAll(visit) && o < |objects| && k < |visit(MembersAt(record, objects[o]))|
    requires var members := MembersAt(record, objects[o]);
             var key := visit(members)[k];
             key in members && !members[key].Null?
    ensures var consumed, failed := ConsumedOf(fields, record, nil), FailedOf(fields, objects, record, nil);
            var members := MembersAt(record, objects[o]);
            var key := visit(members)[k];
            var rest := RestOf(fields, objects, record, nil, visit);
            IsSaved(rest, fields, objects, record, nil, objects[o], key, members[key]) <==>
            || (!IsNamed(consumed, objects[o], key)
                && !IsCrowdedOut(BeforeTurn(failed, objects, record, visit, consumed, o, k), objects[o], key,
                                 members[key]))
            || exists i: nat :: WillSave(fields, objects, record, nil, i, objects[o], key, members[key])
  {
    hide KeepObjects, MembersAt, FailedOf, ConsumedOf, Find, Saves, WillSave, IsKept, IsCrowdedOut, IsNamed, BeforeTurn;
    var consumed, failed := ConsumedOf(fields, record, nil), FailedOf(fields, objects, record, nil);
    var members := MembersAt(record, objects[o]);
    var key := visit(members)[k];
    if !IsNamed(consumed, objects[o], key) { MemberIsKeptExactly(failed, objects, record, visit, consumed, o, k); }
    var rest := RestOf(fields, objects, record, nil, visit);
    forall i: nat
      ensures Saves(rest, fields, objects, record, nil, i, objects[o], key, members[key]) <==>
              WillSave(fields, objects, record, nil, i, objects[o], key, members[key])
    {
      SavesExactly(fields, objects, record, nil, visit, i, objects[o], key, members[key]);
    }
  }

  // --------------------------------------------------- when nothing is dropped

  /** A path has one reading: whatever leads anywhere leads to one value. */
  ghost predicate IsReadOneWay(record: Json, path: SourcePath) {
    forall a, x, b, y :: LeadsBy(record, path.segments, a, x) && LeadsBy(record, path.segments, b, y) ==> x == y
  }

  /** A path that names a member reads it exactly when its first reading leads to
      it, as it does if there is one reading. */
  lemma NamedIsGiven(record: Json, object_: SourcePath, path: SourcePath, key: string)
    requires key in MembersAt(record, object_) && MemberOf(path, object_) == Some(key)
    ensures Find(record, path.segments).Some?
    ensures Find(record, path.segments) == Some(MembersAt(record, object_)[key]) <==>
            FirstLeadsTo(record, path.segments, MembersAt(record, object_)[key])
    ensures IsReadOneWay(record, path) ==> FirstLeadsTo(record, path.segments, MembersAt(record, object_)[key])
  {
    hide Find, LeadsBy, MemberOf;
    var members := MembersAt(record, object_);
    var through := NamedIsLedTo(record, object_, members, path, key);
    LeadingIsFound(record, path.segments, through, members[key]);
    FindsWhatLeads(record, path.segments);
    var first := FoundByFirst(record, path.segments);
    assert LeadsBy(record, path.segments, through, members[key]);
    assert LeadsBy(record, path.segments, first, Find(record, path.segments).value);
  }

  lemma {:induction false} ConsumedIsOfField(fields: seq<FieldOf>, record: Json, nil: seq<Json>, c: nat)
    returns (i: nat)
    requires c < |ConsumedOf(fields, record, nil)|
    ensures i < |fields| && fields[i].source.Found? && !fields[i].source.keeps
    ensures fields[i].source.path == ConsumedOf(fields, record, nil)[c]
            && GivenAt(fields[i].source.path, record, nil).Some?
  {
    hide GivenAt;
    var n := |fields| - 1;
    if c < |ConsumedOf(fields[..n], record, nil)| {
      i := ConsumedIsOfField(fields[..n], record, nil, c);
    } else {
      i := n;
    }
  }

  /** Every path used up that names the member reads it first. */
  ghost predicate IsReadWhereNamed(
      record: Json, consumed: seq<SourcePath>, object_: SourcePath, key: string, member: Json) {
    forall c :: 0 <= c < |consumed| && MemberOf(consumed[c], object_) == Some(key) ==>
      FirstLeadsTo(record, consumed[c].segments, member)
  }

  /** Every member of a listed object is saved where no member's path is also a
      name, no two different failures have one name, and the member is read by the
      paths used up that name it. */
  lemma NothingIsDropped(
      fields: seq<FieldOf>, objects: seq<SourcePath>, record: Json, nil: seq<Json>, visit: Visiting, o: nat,
      key: string)
    requires VisitsAll(visit) && o < |objects| && key in MembersAt(record, objects[o])
    requires !MembersAt(record, objects[o])[key].Null?
    requires PathsAreFree(FailedOf(fields, objects, record, nil), objects, record, ConsumedOf(fields, record, nil))
    requires NamesAgree(fields, objects, record, nil)
    requires IsReadWhereNamed(record, ConsumedOf(fields, record, nil), objects[o], key,
             MembersAt(record, objects[o])[key])
    ensures IsSaved(RestOf(fields, objects, record, nil, visit), fields, objects, record, nil, objects[o], key,
                    MembersAt(record, objects[o])[key])
  {
    hide KeepObjects, MembersAt, PathsAreFree, FailedOf, ConsumedOf, Find, Saves, WillSave, FirstLeadsTo;
    var consumed, member := ConsumedOf(fields, record, nil), MembersAt(record, objects[o])[key];
    if IsNamed(consumed, objects[o], key) {
      var c: nat :| c < |consumed| && MemberOf(consumed[c], objects[o]) == Some(key);
      var i := ConsumedIsOfField(fields, record, nil, c);
      NamedIsSaved(fields, objects, record, nil, i, objects[o], key, member);
      SavesExactly(fields, objects, record, nil, visit, i, objects[o], key, member);
    } else {
      AllMembersAreKept(FailedOf(fields, objects, record, nil), objects, record, visit, consumed, o, key);
    }
  }

  lemma NamedIsSaved(
      fields: seq<FieldOf>, objects: seq<SourcePath>, record: Json, nil: seq<Json>, i: nat, object_: SourcePath,
      key: string, member: Json)
    requires i < |fields| && fields[i].source.Found? && !fields[i].source.keeps
    requires GivenAt(fields[i].source.path, record, nil).Some? && NamesAgree(fields, objects, record, nil)
    requires MemberOf(fields[i].source.path, object_) == Some(key)
    requires FirstLeadsTo(record, fields[i].source.path.segments, member)
    ensures WillSave(fields, objects, record, nil, i, object_, key, member)
  {
    hide Find, FirstLeadsTo, MemberOf, NameFor;
    FindsWhatLeads(record, fields[i].source.path.segments);
    if fields[i].source.convert(member).Err? {
      assert Failing(fields[i], record, nil) && GivenTo(fields[i], record, nil) == member;
      var j := HasLastFailure(fields, objects, record, nil, i);
      hide GivenTo, Failing, NameOf;
    }
  }

  // --------------------------------------------------- both, read from the event

  lemma {:induction false} WrittenIsObject(start: map<string, Json>, fields: seq<FieldOf>, record: Json, nil: seq<Json>)
    ensures Written(Object(start), WritesOf(fields, record, nil)).Object?
  {
    if fields != [] {
      var n := |fields| - 1;
      WrittenIsObject(start, fields[..n], record, nil);
      assert fields[..n + 1] == fields;
      FieldsOneMore(Object(start), fields, record, nil, n);
    }
  }

  /** An event has what it keeps under `unmapped`, and its fields as they were
      written. */
  lemma EventHasBoth(
      start: map<string, Json>, fields: seq<FieldOf>, objects: seq<SourcePath>, record: Json, nil: seq<Json>,
      visit: Visiting, name: string, target: Target)
    requires VisitsAll(visit)
    ensures var event, rest :=
            EventOf(start, fields, objects, record, nil, visit), RestOf(fields, objects, record, nil, visit);
            && (name in rest ==> Read(event, [Name("unmapped"), Name(name)]) == Some(rest[name]))
            && (target[0] != "unmapped" ==>
                  Read(event, PathOf(target))
                      == Read(Written(Object(start), WritesOf(fields, record, nil)), PathOf(target)))
  {
    WrittenIsObject(start, fields, record, nil);
    hide Written, WritesOf, RestOf;
    var rest := RestOf(fields, objects, record, nil, visit);
    var path := [Name("unmapped"), Name(name)];
    assert path[1..] == [Name(name)] && path[1..][1..] == [];
    if name in rest {
      assert Read(rest[name], []) == Some(rest[name]);
      assert Read(Object(rest), [Name(name)]) == Some(rest[name]);
    }
  }

  /** The event has a member: under `unmapped` by one of its names, or with a field
      whose path names it, converted at its target or kept by its name. */
  ghost predicate IsInEvent(
      event: Json, fields: seq<FieldOf>, objects: seq<SourcePath>, record: Json, nil: seq<Json>, object_: SourcePath,
      key: string, member: Json)
  {
    || Read(event, [Name("unmapped"), Name(key)]) == Some(member)
    || Read(event, [Name("unmapped"), Name(Qualified(object_, key))]) == Some(member)
    || exists i: nat :: HasMember(event, fields, objects, record, nil, i, object_, key, member)
  }

  ghost predicate HasMember(
      event: Json, fields: seq<FieldOf>, objects: seq<SourcePath>, record: Json, nil: seq<Json>, i: nat,
      object_: SourcePath, key: string, member: Json)
  {
    && i < |fields| && fields[i].source.Found? && MemberOf(fields[i].source.path, object_) == Some(key)
    && GivenAt(fields[i].source.path, record, nil) == Some(member)
    && match EffectOf(fields[i].source, record, nil)
       case Writes(value) => Read(event, PathOf(fields[i].target)) == Some(value)
       case Fails(_) => Read(event, [Name("unmapped"), Name(NameOf(objects, fields[i]))]) == Some(member)
       case Skips => false
  }

  /** What is saved is read from the event, in a definition whose targets keep out
      of each other's way. */
  lemma SavedIsInEvent(
      schema: Schema, start: map<string, Json>, fields: seq<FieldOf>, objects: seq<SourcePath>, record: Json,
      nil: seq<Json>, visit: Visiting, object_: SourcePath, key: string, member: Json)
    requires VisitsAll(visit) && DefinitionOk(schema, fields)
    requires forall i :: 0 <= i < |fields| ==> fields[i].target[0] !in start && fields[i].target[0] != "unmapped"
    requires IsSaved(RestOf(fields, objects, record, nil, visit), fields, objects, record, nil, object_, key, member)
    ensures IsInEvent(EventOf(start, fields, objects, record, nil, visit), fields, objects, record, nil, object_, key,
                      member)
  {
    hide EventOf, RestOf, WritesOf, Written, DefinitionOk, Read, PathOf, ConsumedOf, GivenAt, EffectOf, NameOf,
         MemberOf,
         Qualified;
    var rest := RestOf(fields, objects, record, nil, visit);
    var any: Target := ["any"];
    if i: nat :| Saves(rest, fields, objects, record, nil, i, object_, key, member) {
      EventHasBoth(start, fields, objects, record, nil, visit, NameOf(objects, fields[i]), fields[i].target);
      SavesHasMember(schema, start, fields, objects, record, nil, visit, i, object_, key, member);
    } else {
      EventHasBoth(start, fields, objects, record, nil, visit, key, any);
      EventHasBoth(start, fields, objects, record, nil, visit, Qualified(object_, key), any);
    }
  }

  lemma SavesHasMember(
      schema: Schema, start: map<string, Json>, fields: seq<FieldOf>, objects: seq<SourcePath>, record: Json,
      nil: seq<Json>, visit: Visiting, i: nat, object_: SourcePath, key: string, member: Json)
    requires VisitsAll(visit) && DefinitionOk(schema, fields)
    requires forall k :: 0 <= k < |fields| ==> fields[k].target[0] !in start && fields[k].target[0] != "unmapped"
    requires Saves(RestOf(fields, objects, record, nil, visit), fields, objects, record, nil, i, object_, key, member)
    ensures HasMember(EventOf(start, fields, objects, record, nil, visit), fields, objects, record, nil, i, object_,
                      key, member)
  {
    EventHasBoth(start, fields, objects, record, nil, visit, NameOf(objects, fields[i]), fields[i].target);
    var effect := EffectOf(fields[i].source, record, nil);
    if effect.Writes? { EveryTargetReadsBack(schema, fields, record, nil, start, i, effect.value); }
    hide EventOf, RestOf, WritesOf, Written, DefinitionOk, Read, PathOf, GivenAt, NameOf, MemberOf;
  }

  // ----------------------------------------------------------------- witnesses

  const A := SourcePath("a", ["a"])
  const X := SourcePath("x", ["x"])

  lemma OneSegment(members: map<string, Json>, name: string)
    ensures Find(Object(members), [name]) == if name in members then Some(members[name]) else None
  {
    assert [name][..1] == [name] && [name][1..] == [];
    assert Joined([name]) == name;
    assert FindMember(members, [name], 2) == None;
    if name in members { assert Find(members[name], []) == Some(members[name]); }
    assert FindMember(members, [name], 1) == if name in members then Some(members[name]) else None;
  }

  /** One listed object has `k` and a name that is the path of another's `k`:
      the other's is dropped. */
  lemma MemberIsDropped(visit: Visiting, one: Json, two: Json, three: Json)
    requires VisitsAll(visit) && !one.Null? && !two.Null? && !three.Null?
    requires three != one && three != two
    ensures var record := Object(map["a" := Object(map["k" := one, "x.k" := two]), "x" := Object(map["k" := three])]);
            var rest := RestOf([], [A, X], record, [], visit);
            MembersAt(record, X) == map["k" := three] && !IsKept(rest, X, "k", three)
  {
    var first, second := map["k" := one, "x.k" := two], map["k" := three];
    var record := Object(map["a" := Object(first), "x" := Object(second)]);
    OneSegment(record.members, "a");
    OneSegment(record.members, "x");
    hide Find;
    assert MembersAt(record, A) == first && MembersAt(record, X) == second;
    assert Visits(visit(first), first) && Visits(visit(second), second);
    assert "k" in visit(second);
    var k :| 0 <= k < |visit(second)| && visit(second)[k] == "k";
    KeepsFirst(visit, record, first);
    hide KeepObjects, MembersAt;
    assert [A, X][..1] == [A];
    MembersKeepOthers(first, X, second, visit(second)[..k], 0, []);
    assert visit(second)[..k][..0] == [];
    NoMembersKept(first, X, second, []);
    assert Qualified(X, "k") == "x.k";
    MemberIsKeptExactly(map[], [A, X], record, visit, [], 1, k);
  }

  lemma KeepsFirst(visit: Visiting, record: Json, members: map<string, Json>)
    requires VisitsAll(visit) && MembersAt(record, A) == members
    requires forall key :: key in members ==> !members[key].Null?
    ensures KeepObjects(map[], [A], record, visit, []) == members
  {
    hide MembersAt;
    assert Visits(visit(members), members);
    assert [A][..1] == [A] && [A][..0] == [];
    ObjectsOneMore(map[], [A], record, visit, [], 0);
    NoObjectsKept(map[], record, visit, []);
    DistinctAreKept(A, members, visit(members));
    hide KeepObjects;
    assert (map key | key in visit(members) :: members[key]) == members;
  }

  lemma {:induction false} DistinctAreKept(object_: SourcePath, members: map<string, Json>, keys: seq<string>)
    requires forall key :: key in keys ==> key in members && !members[key].Null?
    requires forall i, j :: 0 <= i < j < |keys| ==> keys[i] != keys[j]
    ensures KeepMembers(map[], object_, members, keys, []) == map key | key in keys :: members[key]
  {
    if keys != [] {
      var rest, last := keys[..|keys| - 1], keys[|keys| - 1];
      assert keys == rest + [last];
      DistinctAreKept(object_, members, rest);
      assert last !in rest;
    }
  }

  lemma ShortestIsFound(members: map<string, Json>, name: string, rest: seq<string>)
    requires name in members && Find(members[name], rest).Some?
    ensures Find(Object(members), [name] + rest) == Find(members[name], rest)
  {
    var all := [name] + rest;
    assert all[..1] == [name] && all[1..] == rest && Joined([name]) == name;
    assert FindMember(members, all, 1) == Find(members[name], rest);
  }

  const ABC := SourcePath("a.b.c", ["a", "b", "c"])

  lemma ReadsTheShorter(members: map<string, Json>, one: Json)
    requires "b" in members && members["b"] == Object(map["c" := one])
    ensures Find(Object(map["a" := Object(members)]), ABC.segments) == Some(one)
    ensures MembersAt(Object(map["a" := Object(members)]), A) == members
    ensures MemberOf(ABC, A) == Some("b.c")
  {
    OneSegment(map["a" := Object(members)], "a");
    OneSegment(map["c" := one], "c");
    ShortestIsFound(members, "b", ["c"]);
    assert ["b"] + ["c"] == ["b", "c"];
    ShortestIsFound(map["a" := Object(members)], "a", ["b", "c"]);
    assert ["a"] + ["b", "c"] == ABC.segments;
    assert ABC.segments[..1] == ["a"] && ABC.segments[1..] == ["b", "c"];
    assert ["b", "c"][..1] == ["b"] && Joined(["b"]) == "b" && Joined(["b", "c"]) == "b.c";
  }

  /** A path reads one value and names another besides: the other is dropped. */
  lemma OtherReadingIsDropped(visit: Visiting, one: Json, two: Json, convert: Json -> Result<Json, string>)
    requires VisitsAll(visit) && !one.Null? && one != two && !two.Null?
    ensures var members := map["b" := Object(map["c" := one]), "b.c" := two];
            var record, fields := Object(map["a" := Object(members)]), [FieldOf(["d"], Found(ABC, false, convert))];
            && MembersAt(record, A) == members && ConsumedOf(fields, record, []) == [ABC]
            && !IsKept(RestOf(fields, [A], record, [], visit), A, "b.c", two)
            && !IsSaved(RestOf(fields, [A], record, [], visit), fields, [A], record, [], A, "b.c", two)
  {
    var members := map["b" := Object(map["c" := one]), "b.c" := two];
    var record, fields := Object(map["a" := Object(members)]), [FieldOf(["d"], Found(ABC, false, convert))];
    hide Find, MembersAt, MemberOf, FailedOf, ConsumedOf, KeepObjects, Claims, IsOf, IsKept;
    ReadsTheShorter(members, one);
    OneIsGiven(fields, record, one);
    var start := FailedOf(fields, [A], record, []);
    assert [A][..1] == [A] && [ABC][0] == ABC;
    AllAreOf(start, [A], record, visit, [ABC], 1);
    var rest := RestOf(fields, [A], record, [], visit);
    OnlyOthersAreKept(rest, start, record, members, one, two);
    hide AreOf, RestOf;
    NotSavedIfNotGiven(rest, fields, [A], record, A, "b.c", two);
  }

  lemma NotSavedIfNotGiven(
      rest: Kept, fields: seq<FieldOf>, objects: seq<SourcePath>, record: Json, object_: SourcePath, key: string,
      member: Json)
    requires !IsKept(rest, object_, key, member)
    requires forall i :: 0 <= i < |fields| && fields[i].source.Found? ==>
               MemberOf(fields[i].source.path, object_).None?
                   || Find(record, fields[i].source.path.segments) != Some(member)
    ensures !IsSaved(rest, fields, objects, record, [], object_, key, member)
  {
    hide IsKept, ConsumedOf, EffectOf, NameOf, MemberOf, Find;
  }

  lemma OnlyOthersAreKept(
      rest: Kept, start: Kept, record: Json, members: map<string, Json>, one: Json, two: Json)
    requires AreOf(rest, start, [A], record, [ABC]) && start in {map[], map["b.c" := one]} && one != two
    requires MembersAt(record, A) == members && members.Keys == {"b", "b.c"} && MemberOf(ABC, A) == Some("b.c")
    ensures !IsKept(rest, A, "b.c", two)
  {
    hide MembersAt, MemberOf;
    assert [ABC][0] == ABC && IsNamed([ABC], A, "b.c");
    assert forall o: nat, key :: Claims([A], record, [ABC], o, key) ==> o == 0 && key == "b";
    hide Claims, IsKeepable;
    forall name | name in rest ensures name in {"b", "a.b"} || (name == "b.c" && rest[name] == one) {
      assert IsOf(name, rest[name], start, [A], record, [ABC]);
      assert Qualified(A, "b") == "a.b";
    }
    hide IsOf, AreOf;
    assert Qualified(A, "b.c") == "a.b.c" && |"a.b.c"| == 5 && |"b"| == 1 && |"a.b"| == |"b.c"| == 3;
    assert "a.b"[0] != "b.c"[0];
  }

  lemma OneIsGiven(fields: seq<FieldOf>, record: Json, one: Json)
    requires |fields| == 1 && fields[0].source.Found? && fields[0].source.path == ABC && !fields[0].source.keeps
    requires Find(record, ABC.segments) == Some(one) && !one.Null? && MemberOf(ABC, A) == Some("b.c")
    ensures ConsumedOf(fields, record, []) == [ABC]
    ensures FailedOf(fields, [A], record, []) in {map[], map["b.c" := one]}
  {
    hide Find, MemberOf;
    assert fields[..0] == [];
    assert NameFor([A], ABC) == "b.c";
  }

  const AB := SourcePath("a.b", ["a", "b"])
  const B := SourcePath("b", ["b"])

  lemma ReadsBoth(one: Json, two: Json)
    ensures var record := Object(map["a" := Object(map["b" := one]), "b" := two]);
            && Find(record, AB.segments) == Some(one) && Find(record, B.segments) == Some(two)
            && MembersAt(record, A) == map["b" := one]
    ensures MemberOf(AB, A) == Some("b") && MemberOf(B, A) == None
    ensures NameFor([A], AB) == NameFor([A], B) == "b"
  {
    var members := map["a" := Object(map["b" := one]), "b" := two];
    OneSegment(map["b" := one], "b");
    ShortestIsFound(members, "a", ["b"]);
    assert ["a"] + ["b"] == AB.segments;
    OneSegment(members, "b");
    OneSegment(members, "a");
    assert AB.segments[..1] == ["a"] && AB.segments[1..] == ["b"] && Joined(["b"]) == "b";
    assert [A][1..] == [];
  }

  /** Two values that do not convert and have one name: the first is dropped, though
      names and paths are apart and both are read where they are named. */
  lemma FirstFailureIsDropped(visit: Visiting, one: Json, two: Json, convert: Json -> Result<Json, string>)
    requires VisitsAll(visit) && !one.Null? && !two.Null? && one != two
    requires convert(one).Err? && convert(two).Err?
    ensures var record := Object(map["a" := Object(map["b" := one]), "b" := two]);
            var fields := [FieldOf(["d"], Found(AB, false, convert)), FieldOf(["e"], Found(B, false, convert))];
            var rest := RestOf(fields, [A], record, [], visit);
            && MembersAt(record, A) == map["b" := one] && ConsumedOf(fields, record, []) == [AB, B]
            && PathsAreFree(FailedOf(fields, [A], record, []), [A], record, [AB, B])
            && IsReadWhereNamed(record, [AB, B], A, "b", one)
            && !FailedAreKept(rest, fields, [A], record, [])
            && !IsSaved(rest, fields, [A], record, [], A, "b", one)
  {
    var record := Object(map["a" := Object(map["b" := one]), "b" := two]);
    var fields := [FieldOf(["d"], Found(AB, false, convert)), FieldOf(["e"], Found(B, false, convert))];
    hide Find, FirstLeadsTo, NameFor, MemberOf, MembersAt, RestOf, Saves, FailedAreKept, FailedOf, ConsumedOf,
         PathsAreFree, IsReadWhereNamed, IsNamed;
    ReadsBoth(one, two);
    FindsWhatLeads(record, AB.segments);
    BothAreUsedUp(fields, record);
    NoneClaims(record, map["b" := one], FailedOf(fields, [A], record, []));
    BothReadTheirs(record, one);
    FirstIsNotKept(visit, record, fields, one, two);
  }

  lemma BothReadTheirs(record: Json, one: Json)
    requires FirstLeadsTo(record, AB.segments, one) && MemberOf(B, A) == None
    ensures IsReadWhereNamed(record, [AB, B], A, "b", one)
  {
    hide FirstLeadsTo, MemberOf;
  }

  lemma NoneClaims(record: Json, members: map<string, Json>, start: Kept)
    requires MembersAt(record, A) == members && members.Keys == {"b"} && MemberOf(AB, A) == Some("b")
    ensures IsNamed([AB, B], A, "b") && PathsAreFree(start, [A], record, [AB, B])
  {
    hide MembersAt, MemberOf;
    assert [AB, B][0] == AB;
    assert IsNamed([AB, B], A, "b");
    assert forall o: nat, key :: !Claims([A], record, [AB, B], o, key);
  }

  lemma FirstIsNotKept(visit: Visiting, record: Json, fields: seq<FieldOf>, one: Json, two: Json)
    requires VisitsAll(visit) && !one.Null? && !two.Null? && one != two
    requires |fields| == 2 && (forall i :: 0 <= i < 2 ==> fields[i].source.Found? && !fields[i].source.keeps)
    requires fields[0].source.path == AB && fields[0].source.convert(one).Err?
    requires fields[1].source.path == B && fields[1].source.convert(two).Err?
    requires Find(record, AB.segments) == Some(one) && Find(record, B.segments) == Some(two)
    requires NameFor([A], AB) == NameFor([A], B) == "b" && MemberOf(B, A) == None
    ensures var rest := RestOf(fields, [A], record, [], visit);
            && !FailedAreKept(rest, fields, [A], record, [])
            && forall i: nat :: !Saves(rest, fields, [A], record, [], i, A, "b", one)
  {
    hide Find, NameFor, MemberOf, RestOf;
    assert Failing(fields[0], record, []) && Failing(fields[1], record, []);
    assert IsLastFailure(fields, [A], record, [], "b", 1);
    FailedIsKeptExactly(fields, [A], record, [], visit, 0, 1);
    assert NameOf([A], fields[0]) == "b" && GivenTo(fields[0], record, []) == one;
    hide IsLastFailure;
  }

  lemma BothAreUsedUp(fields: seq<FieldOf>, record: Json)
    requires |fields| == 2 && (forall i :: 0 <= i < 2 ==> fields[i].source.Found? && !fields[i].source.keeps)
    requires fields[0].source.path == AB && fields[1].source.path == B
    requires GivenAt(AB, record, []).Some? && GivenAt(B, record, []).Some?
    ensures ConsumedOf(fields, record, []) == [AB, B]
  {
    hide GivenAt;
    assert fields[..1][..0] == [] && ConsumedOf([], record, []) == [];
    assert ConsumedOf(fields[..1], record, []) == [AB];
  }
}
