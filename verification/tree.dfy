/** Writing an event tree: values at paths into nested objects and arrays, and
    when a write keeps out of the way of another. */
module Trees {
  import opened Base
  import opened Decimals

  datatype Json =
    | Null
    | Bool(value: bool)
    | Number(number: int)
    | Text(text: string)
    | Array(items: seq<Json>)
    | Object(members: map<string, Json>)

  /** A step of a path: a member's name, or an element's index. */
  datatype Step = Name(name: string) | Index(index: nat)

  function CodesOf(segment: string): (r: seq<int>)
    ensures |r| == |segment| && forall i :: 0 <= i < |r| ==> r[i] == segment[i] as int
  {
    seq(|segment|, i requires 0 <= i < |segment| => segment[i] as int)
  }

  /** A segment that reads as a number is an index. */
  function StepOf(segment: string): Step {
    match Parse(CodesOf(segment))
    case Some(n) => Index(n)
    case None => Name(segment)
  }

  function StepsOf(segments: seq<string>): (r: seq<Step>)
    ensures |r| == |segments| && forall i :: 0 <= i < |r| ==> r[i] == StepOf(segments[i])
  {
    seq(|segments|, i requires 0 <= i < |segments| => StepOf(segments[i]))
  }

  /** A target's path: the first segment is a name whatever it reads as. */
  function PathOf(segments: seq<string>): seq<Step>
    requires segments != []
  {
    [Name(segments[0])] + StepsOf(segments[1..])
  }

  // --------------------------------------------------------- writing and reading

  /** Elements up to an index, the new ones empty objects. */
  function Resized(items: seq<Json>, index: nat): (r: seq<Json>)
    ensures |r| > index && |r| >= |items|
    ensures forall i :: 0 <= i < |r| ==> r[i] == if i < |items| then items[i] else Object(map[])
  {
    if |items| <= index then items + seq(index + 1 - |items|, _ => Object(map[])) else items
  }

  /** A value written below a slot, creating objects and arrays on the way; a
      slot of another kind is left as it is. */
  function SetWithin(slot: Json, path: seq<Step>, value: Json): Json
    decreases |path|
  {
    if path == [] then value
    else
      match path[0]
      case Index(index) =>
        var held := if slot.Null? then Array([]) else slot;
        if !held.Array? then slot
        else
          var items := Resized(held.items, index);
          Array(items[index := SetWithin(items[index], path[1..], value)])
      case Name(name) =>
        var held := if slot.Null? then Object(map[]) else slot;
        if !held.Object? then slot
        else
          var member := if name in held.members then held.members[name] else Null;
          Object(held.members[name := SetWithin(member, path[1..], value)])
  }

  /** The value at a path. */
  function Read(root: Json, path: seq<Step>): Option<Json> {
    if path == [] then Some(root)
    else
      match path[0]
      case Index(index) =>
        if root.Array? && index < |root.items| then Read(root.items[index], path[1..]) else None
      case Name(name) =>
        if root.Object? && name in root.members then Read(root.members[name], path[1..]) else None
  }

  // ------------------------------------------------------------- one write

  /** Nothing of another kind stands in the way. */
  predicate IsClear(slot: Json, path: seq<Step>)
    decreases |path|
  {
    path == []
    || match path[0]
       case Index(index) =>
         (slot.Null? || slot.Array?)
         && IsClear(if slot.Array? && index < |slot.items| then slot.items[index] else Object(map[]), path[1..])
       case Name(name) =>
         (slot.Null? || slot.Object?)
         && IsClear(if slot.Object? && name in slot.members then slot.members[name] else Null, path[1..])
  }

  /** A write reads back exactly when its way is clear; otherwise nothing is
      read there. */
  lemma {:induction false} ReadsBackExactlyWhenClear(slot: Json, path: seq<Step>, value: Json)
    ensures Read(SetWithin(slot, path, value), path) == if IsClear(slot, path) then Some(value) else None
    decreases |path|
  {
    if path != [] {
      match path[0]
      case Index(index) =>
        var held := if slot.Null? then Array([]) else slot;
        if held.Array? { ReadsBackExactlyWhenClear(Resized(held.items, index)[index], path[1..], value); }
      case Name(name) =>
        var held := if slot.Null? then Object(map[]) else slot;
        if held.Object? {
          ReadsBackExactlyWhenClear(if name in held.members then held.members[name] else Null, path[1..], value);
        }
    }
  }

  /** No index follows an index. */
  predicate Fits(path: seq<Step>) { forall i :: 0 <= i < |path| - 1 && path[i].Index? ==> path[i + 1].Name? }

  lemma FitsOn(path: seq<Step>)
    requires path != []
    ensures Fits(path) <==> Fits(path[1..]) && (path[0].Index? && |path| > 1 ==> path[1].Name?)
  {
    if Fits(path) {
      forall i | 0 <= i < |path[1..]| - 1 && path[1..][i].Index? ensures path[1..][i + 1].Name? {
        assert path[i + 1].Index?;
      }
    } else {
      var i :| 0 <= i < |path| - 1 && path[i].Index? && !path[i + 1].Name?;
      if i > 0 { assert path[1..][i - 1].Index? && !path[1..][i].Name?; }
    }
  }

  /** Where nothing was written, the way is clear exactly when no index follows
      an index: elements are made objects. */
  lemma {:induction false} NewIsClear(path: seq<Step>)
    ensures IsClear(Null, path) <==> Fits(path)
    ensures IsClear(Object(map[]), path) <==> Fits(path) && (path != [] ==> path[0].Name?)
  {
    if path != [] {
      FitsOn(path);
      NewIsClear(path[1..]);
    }
  }

  // ---------------------------------------------------------------- two writes

  /** Neither path leads into the other. */
  predicate Parts(p: seq<Step>, q: seq<Step>) {
    p != [] && q != [] && (p[0] != q[0] || Parts(p[1..], q[1..]))
  }

  /** And where they part, both go on by name or both by index. */
  predicate PartsAlike(p: seq<Step>, q: seq<Step>) {
    p != [] && q != [] && (if p[0] == q[0] then PartsAlike(p[1..], q[1..]) else p[0].Index? == q[0].Index?)
  }

  /** A write leaves what is read at any path that parts from its own. */
  lemma {:induction false} WriteLeavesOthers(slot: Json, p: seq<Step>, value: Json, q: seq<Step>)
    requires Parts(p, q) && Read(slot, q).Some?
    ensures Read(SetWithin(slot, p, value), q) == Read(slot, q)
  {
    if p[0] == q[0] {
      match p[0]
      case Index(index) => WriteLeavesOthers(slot.items[index], p[1..], value, q[1..]);
      case Name(name) => WriteLeavesOthers(slot.members[name], p[1..], value, q[1..]);
    }
  }

  /** A write leaves clear any way that parts alike from its own. */
  lemma {:induction false} WriteLeavesClear(slot: Json, p: seq<Step>, value: Json, q: seq<Step>)
    requires PartsAlike(p, q) && IsClear(slot, q)
    ensures IsClear(SetWithin(slot, p, value), q)
    decreases |p|
  {
    if p[0] == q[0] {
      match p[0]
      case Index(index) =>
        var item := if slot.Array? && index < |slot.items| then slot.items[index] else Object(map[]);
        WriteLeavesClear(item, p[1..], value, q[1..]);
      case Name(name) =>
        var member := if slot.Object? && name in slot.members then slot.members[name] else Null;
        WriteLeavesClear(member, p[1..], value, q[1..]);
    } else if p[0].Index? {
      var held := if slot.Null? then Array([]) else slot;
      var after := SetWithin(slot, p, value);
      var at := q[0].index;
      assert after.Array? && at != p[0].index;
      assert at < |after.items| ==>
        after.items[at] == if at < |held.items| then held.items[at] else Object(map[]);
    }
  }

  lemma {:induction false} PartsIsSymmetric(p: seq<Step>, q: seq<Step>)
    ensures PartsAlike(p, q) ==> Parts(p, q) && PartsAlike(q, p)
  {
    if p != [] && q != [] && p[0] == q[0] { PartsIsSymmetric(p[1..], q[1..]); }
  }

  // ---------------------------------------------------------------- all writes

  datatype Field = Field(path: seq<Step>, value: Json)

  /** The fields written in turn. */
  function Written(root: Json, fields: seq<Field>): Json {
    if fields == [] then root
    else
      var last := fields[|fields| - 1];
      SetWithin(Written(root, fields[..|fields| - 1]), last.path, last.value)
  }

  ghost predicate KeepApart(fields: seq<Field>) {
    forall i, j :: 0 <= i < |fields| && 0 <= j < |fields| && i != j ==> PartsAlike(fields[i].path, fields[j].path)
  }

  lemma {:induction false} WaysStayClear(root: Json, fields: seq<Field>, q: seq<Step>)
    requires forall i :: 0 <= i < |fields| ==> PartsAlike(fields[i].path, q)
    requires IsClear(root, q)
    ensures IsClear(Written(root, fields), q)
  {
    if fields != [] {
      var rest, last := fields[..|fields| - 1], fields[|fields| - 1];
      WaysStayClear(root, rest, q);
      WriteLeavesClear(Written(root, rest), last.path, last.value, q);
    }
  }

  /** After all fields are written, each reads back its own value. */
  lemma {:induction false} EveryFieldReadsBack(root: Json, fields: seq<Field>, n: nat)
    requires KeepApart(fields) && n < |fields|
    requires forall i :: 0 <= i < |fields| ==> IsClear(root, fields[i].path)
    ensures Read(Written(root, fields), fields[n].path) == Some(fields[n].value)
  {
    var rest, last := fields[..|fields| - 1], fields[|fields| - 1];
    if n == |fields| - 1 {
      WaysStayClear(root, rest, last.path);
      ReadsBackExactlyWhenClear(Written(root, rest), last.path, last.value);
    } else {
      EveryFieldReadsBack(root, rest, n);
      PartsIsSymmetric(last.path, fields[n].path);
      WriteLeavesOthers(Written(root, rest), last.path, last.value, fields[n].path);
    }
  }

  /** A write whose path leads out of a value that is neither an object nor an
      array, or into a slot of the other kind, is lost. */
  lemma {:induction false} NotAlikeIsBlocked(slot: Json, p: seq<Step>, value: Json, q: seq<Step>)
    requires IsClear(slot, p) && value.Bool? && !PartsAlike(p, q) && !(q <= p)
    ensures !IsClear(SetWithin(slot, p, value), q)
    decreases |p|
  {
    if p != [] {
      if p[0] == q[0] {
        assert q[1..] <= p[1..] ==> q <= p by { assert p == [p[0]] + p[1..] && q == [q[0]] + q[1..]; }
        match p[0]
        case Index(index) =>
          var held := if slot.Null? then Array([]) else slot;
          NotAlikeIsBlocked(Resized(held.items, index)[index], p[1..], value, q[1..]);
        case Name(name) =>
          var member := if slot.Object? && name in slot.members then slot.members[name] else Null;
          NotAlikeIsBlocked(member, p[1..], value, q[1..]);
      }
    }
  }

  lemma {:induction false} PrefixOverwrites(slot: Json, p: seq<Step>, q: seq<Step>)
    requires q <= p && IsClear(slot, q)
    ensures Read(SetWithin(slot, q, Null), p) == if p == q then Some(Null) else None
    decreases |p|
  {
    if q != [] {
      match q[0]
      case Index(index) =>
        var held := if slot.Null? then Array([]) else slot;
        PrefixOverwrites(Resized(held.items, index)[index], p[1..], q[1..]);
      case Name(name) =>
        PrefixOverwrites(if slot.Object? && name in slot.members then slot.members[name] else Null, p[1..], q[1..]);
    }
  }

  /** An event with two fields written. */
  function BothWritten(p: seq<Step>, v: Json, q: seq<Step>, w: Json): Json {
    SetWithin(SetWithin(Object(map[]), p, v), q, w)
  }

  /** Two fields of an event, whatever their values, both read back. */
  ghost predicate BothReadBack(p: seq<Step>, q: seq<Step>) {
    forall v: Json, w: Json ::
      Read(BothWritten(p, v, q, w), p) == Some(v) && Read(BothWritten(p, v, q, w), q) == Some(w)
  }

  /** Two targets keep out of each other's way, whatever is written, exactly when
      their paths part, both by name or both by index. */
  lemma TargetsKeepApartExactly(p: seq<Step>, q: seq<Step>)
    requires p != [] && q != [] && p[0].Name? && q[0].Name? && Fits(p) && Fits(q)
    ensures BothReadBack(p, q) <==> PartsAlike(p, q)
  {
    hide PartsAlike, Fits;
    if PartsAlike(p, q) {
      forall v: Json, w: Json
        ensures Read(BothWritten(p, v, q, w), p) == Some(v) && Read(BothWritten(p, v, q, w), q) == Some(w)
      {
        AlikeKeepApart(p, v, q, w);
      }
    } else {
      NotAlikeInterferes(p, q);
      assert !(Read(BothWritten(p, Bool(true), q, Null), p) == Some(Bool(true))
               && Read(BothWritten(p, Bool(true), q, Null), q) == Some(Null));
    }
  }

  lemma AlikeKeepApart(p: seq<Step>, v: Json, q: seq<Step>, w: Json)
    requires p != [] && q != [] && p[0].Name? && q[0].Name? && Fits(p) && Fits(q) && PartsAlike(p, q)
    ensures Read(BothWritten(p, v, q, w), p) == Some(v) && Read(BothWritten(p, v, q, w), q) == Some(w)
  {
    var empty := Object(map[]);
    NewIsClear(p);
    NewIsClear(q);
    hide SetWithin, Read, IsClear, PartsAlike, Parts, Fits;
    PartsIsSymmetric(p, q);
    PartsIsSymmetric(q, p);
    var first := SetWithin(empty, p, v);
    ReadsBackExactlyWhenClear(empty, p, v);
    WriteLeavesClear(empty, p, v, q);
    ReadsBackExactlyWhenClear(first, q, w);
    WriteLeavesOthers(first, q, w, p);
  }

  lemma NotAlikeInterferes(p: seq<Step>, q: seq<Step>)
    requires p != [] && q != [] && p[0].Name? && q[0].Name? && Fits(p) && Fits(q) && !PartsAlike(p, q)
    ensures Read(BothWritten(p, Bool(true), q, Null), p) != Some(Bool(true))
            || Read(BothWritten(p, Bool(true), q, Null), q) != Some(Null)
  {
    NewIsClear(p);
    hide SetWithin, Read, IsClear, PartsAlike;
    var first := SetWithin(Object(map[]), p, Bool(true));
    ReadsBackExactlyWhenClear(first, q, Null);
    if q <= p {
      if IsClear(first, q) { PrefixOverwrites(first, p, q); }
    } else {
      NotAlikeIsBlocked(Object(map[]), p, Bool(true), q);
    }
  }
}
