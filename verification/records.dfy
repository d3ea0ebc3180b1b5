/** What a snapshot of context holds: records, the identifiers and the ranges
    they are found by, and what a plain scan of all of them finds. */
module Records {
  import opened Base
  import opened Ordering
  import opened Addresses

  datatype Kind = Network | Asset | Identity | Group | List

  datatype IdKind = AddressId | Host | Mac | Uid | User | Email | GroupId

  datatype Id = Id(kind: IdKind, value: string)

  /** A CIDR range, with its base masked (`RangeOk`). */
  datatype Range = Range(network: Address, length: nat)

  predicate RangeOk(range: Range) { InFamily(range.network) && Canonical(range.network, range.length) }

  /** The only range of its width that can contain an address, which is why lengths
      can be tried in turn. */
  function HoldingRange(address: Address, length: nat): Range
    requires length <= Width(address)
  {
    Range(Masked(address, length), length)
  }

  /** A record of context. Its payload plays no part in finding it and is left out.
      */
  datatype Record = Record(
    kind: Kind, ids: seq<Id>, ranges: seq<Range>, scope: Option<string>, validFrom: Option<int>,
    validUntil: Option<int>)

  /** The point in scope and time that a lookup is made from. */
  datatype Query = Query(scope: Option<string>, at: int)

  predicate InScope(r: Record, q: Query) { r.scope.None? || r.scope == q.scope }

  /** The record is valid at the point asked for: its scope fits and the time is
      between its two. */
  predicate HoldsAt(r: Record, q: Query) {
    InScope(r, q) && (r.validFrom.Some? ==> r.validFrom.value <= q.at)
        && (r.validUntil.Some? ==> q.at < r.validUntil.value)
  }

  /** Whether it stopped holding before. */
  predicate HasEnded(r: Record, q: Query) { InScope(r, q) && r.validUntil.Some? && r.validUntil.value <= q.at }

  datatype Source = Source(version: string, records: seq<Record>)

  datatype Named = Named(name: string, source: Source)

  /** All sources, kept sorted so that two snapshots with the same contents are
      equal. */
  type Sources = seq<Named>

  predicate NameLt(a: string, b: string) { StringLe(a, b) && a != b }

  ghost predicate SourcesOk(sources: Sources) {
    forall i, j :: 0 <= i < j < |sources| ==> NameLt(sources[i].name, sources[j].name)
  }

  /** What each source holds. */
  function Contents(sources: Sources): map<string, Source> {
    if sources == [] then map[] else Contents(sources[1..])[sources[0].name := sources[0].source]
  }

  /** Insertion into the sorted sources, replacing whatever had the name. */
  function Put(sources: Sources, name: string, source: Source): Sources {
    if sources == [] || (sources[0].name != name && StringLe(name, sources[0].name)) then
      [Named(name, source)] + sources
    else if sources[0].name == name then [Named(name, source)] + sources[1..]
    else [sources[0]] + Put(sources[1..], name, source)
  }

  /** The sources without one. */
  function Dropped(sources: Sources, name: string): Sources {
    if sources == [] then []
    else (if sources[0].name == name then [] else [sources[0]]) + Dropped(sources[1..], name)
  }

  lemma {:induction false} NamesAre(sources: Sources)
    ensures forall n :: n in Contents(sources) <==> exists i :: 0 <= i < |sources| && sources[i].name == n
  {
    if sources != [] {
      NamesAre(sources[1..]);
      forall n ensures n in Contents(sources) <==> exists i :: 0 <= i < |sources| && sources[i].name == n {
        if i :| 0 <= i < |sources| && sources[i].name == n {
          if i > 0 { assert sources[1..][i - 1].name == n; }
        }
        if n in Contents(sources[1..]) {
          var i :| 0 <= i < |sources[1..]| && sources[1..][i].name == n;
          assert sources[i + 1].name == n;
        }
      }
    }
  }

  lemma NamesCompare(a: string, b: string)
    ensures NameLt(a, b) || a == b || NameLt(b, a)
    ensures !(NameLt(a, b) && NameLt(b, a))
  {
    StringOrder();
  }

  lemma NamesFollow(a: string, b: string, c: string)
    requires NameLt(a, b) && NameLt(b, c)
    ensures NameLt(a, c)
  {
    StringOrder();
  }

  ghost predicate AllAfter(name: string, sources: Sources) {
    forall i :: 0 <= i < |sources| ==> NameLt(name, sources[i].name)
  }

  lemma RestIsAfter(sources: Sources)
    requires SourcesOk(sources) && sources != []
    ensures SourcesOk(sources[1..]) && AllAfter(sources[0].name, sources[1..])
    ensures sources[0].name !in Contents(sources[1..])
  {
    hide NameLt;
    forall i | 0 <= i < |sources[1..]| ensures NameLt(sources[0].name, sources[1..][i].name) {
      assert sources[1..][i] == sources[i + 1];
    }
    NamesAre(sources[1..]);
    if sources[0].name in Contents(sources[1..]) {
      var k :| 0 <= k < |sources[1..]| && sources[1..][k].name == sources[0].name;
      NamesCompare(sources[0].name, sources[1..][k].name);
    }
  }

  lemma FirstGoesBefore(n: Named, rest: Sources)
    requires SourcesOk(rest) && AllAfter(n.name, rest)
    ensures SourcesOk([n] + rest)
    ensures Contents([n] + rest) == Contents(rest)[n.name := n.source]
  {
    hide NameLt;
    var all := [n] + rest;
    assert all[1..] == rest;
    forall i, j | 0 <= i < j < |all| ensures NameLt(all[i].name, all[j].name) {
      assert all[j] == rest[j - 1];
      if i > 0 { assert all[i] == rest[i - 1]; }
    }
  }

  lemma {:induction false} PutIs(sources: Sources, name: string, source: Source)
    requires SourcesOk(sources)
    ensures SourcesOk(Put(sources, name, source))
    ensures Contents(Put(sources, name, source)) == Contents(sources)[name := source]
    ensures forall other :: AllAfter(other, sources) && NameLt(other, name) ==>
            AllAfter(other, Put(sources, name, source))
  {
    hide NameLt, SourcesOk;
    if sources == [] {
      FirstGoesBefore(Named(name, source), []);
      assert [Named(name, source)] + sources == [Named(name, source)];
    } else {
      RestIsAfter(sources);
      NamesCompare(name, sources[0].name);
      var rest := sources[1..];
      if sources[0].name == name {
        FirstGoesBefore(Named(name, source), rest);
      } else if StringLe(name, sources[0].name) {
        assert NameLt(name, sources[0].name) by { IsBefore(name, sources[0].name); }
        forall i | 0 <= i < |sources| ensures NameLt(name, sources[i].name) {
          if i > 0 { NamesFollow(name, sources[0].name, sources[i].name); }
        }
        FirstGoesBefore(Named(name, source), sources);
      } else {
        assert NameLt(sources[0].name, name) by { IsNotBefore(name, sources[0].name); }
        PutIs(rest, name, source);
        FirstGoesBefore(sources[0], Put(rest, name, source));
        assert sources == [sources[0]] + rest;
      }
    }
  }

  lemma IsBefore(a: string, b: string)
    requires StringLe(a, b) && a != b
    ensures NameLt(a, b)
  {
  }

  lemma IsNotBefore(a: string, b: string)
    requires !StringLe(a, b)
    ensures NameLt(b, a)
  {
    StringOrder();
  }

  lemma AllAfterParts(other: string, n: Named, rest: Sources)
    ensures AllAfter(other, [n] + rest) <==> NameLt(other, n.name) && AllAfter(other, rest)
  {
    hide NameLt;
    var all := [n] + rest;
    assert all[0] == n && all[1..] == rest;
    if AllAfter(other, all) {
      forall i | 0 <= i < |rest| ensures NameLt(other, rest[i].name) { assert all[i + 1] == rest[i]; }
    }
  }

  lemma {:induction false} DroppedAfter(sources: Sources, name: string, other: string)
    requires AllAfter(other, sources)
    ensures AllAfter(other, Dropped(sources, name))
  {
    if sources != [] {
      hide NameLt, AllAfter;
      var rest := sources[1..];
      assert sources == [sources[0]] + rest;
      AllAfterParts(other, sources[0], rest);
      DroppedAfter(rest, name, other);
      AllAfterParts(other, sources[0], Dropped(rest, name));
      assert [] + Dropped(rest, name) == Dropped(rest, name);
    }
  }

  lemma {:induction false} DroppedIs(sources: Sources, name: string)
    requires SourcesOk(sources)
    ensures SourcesOk(Dropped(sources, name))
    ensures Contents(Dropped(sources, name)) == Contents(sources) - {name}
  {
    hide NameLt, AllAfter, SourcesOk;
    if sources == [] {
      assert Dropped(sources, name) == sources;
    } else {
      var first, rest := sources[0], sources[1..];
      RestIsAfter(sources);
      DroppedIs(rest, name);
      if first.name == name {
        assert [] + Dropped(rest, name) == Dropped(rest, name);
        OneFewer(Contents(rest), name, first.source);
      } else {
        DroppedAfter(rest, name, first.name);
        FirstGoesBefore(first, Dropped(rest, name));
        OneMoreKept(Contents(rest), name, first.name, first.source);
      }
    }
  }

  lemma OneFewer(contents: map<string, Source>, name: string, source: Source)
    requires name !in contents
    ensures contents[name := source] - {name} == contents - {name}
  {
  }

  lemma OneMoreKept(contents: map<string, Source>, name: string, other: string, source: Source)
    requires name != other
    ensures contents[other := source] - {name} == (contents - {name})[other := source]
  {
  }

  // ------------------------------------------------------------ every record

  /** A record with what tells it from every other: its source's name and its index
      there. */
  datatype Entry = Entry(name: string, version: string, place: nat, record: Record)

  function EntriesOf(n: Named, from: nat): (r: seq<Entry>)
    requires from <= |n.source.records|
    ensures |r| == |n.source.records| - from
    ensures forall i :: 0 <= i < |r| ==> r[i] == Entry(n.name, n.source.version, from + i, n.source.records[from + i])
    decreases |n.source.records| - from
  {
    if from == |n.source.records| then []
    else [Entry(n.name, n.source.version, from, n.source.records[from])] + EntriesOf(n, from + 1)
  }

  /** Every record of every source, source by source. */
  function Entries(sources: Sources): seq<Entry> {
    if sources == [] then [] else EntriesOf(sources[0], 0) + Entries(sources[1..])
  }

  predicate Before(a: Entry, b: Entry) { NameLt(a.name, b.name) || (a.name == b.name && a.place < b.place) }

  ghost predicate InOrder(entries: seq<Entry>) {
    forall i, j :: 0 <= i < j < |entries| ==> Before(entries[i], entries[j])
  }

  lemma {:induction false} EntriesAre(sources: Sources)
    requires SourcesOk(sources)
    ensures forall e :: e in Entries(sources) ==>
              e.name in Contents(sources) && e.place < |Contents(sources)[e.name].records|
              && e.version == Contents(sources)[e.name].version
              && e.record == Contents(sources)[e.name].records[e.place]
    ensures InOrder(Entries(sources))
  {
    hide NameLt, Before, AllAfter, SourcesOk, EntriesOf;
    if sources != [] {
      RestIsAfter(sources);
      EntriesAre(sources[1..]);
      RestFollows(sources);
      InOrderTogether(EntriesOf(sources[0], 0), Entries(sources[1..]));
    }
  }

  /** The entries of the first source are in order and before the others. */
  lemma RestFollows(sources: Sources)
    requires SourcesOk(sources) && sources != []
    requires forall e :: e in Entries(sources[1..]) ==> e.name in Contents(sources[1..])
    ensures var first, rest := EntriesOf(sources[0], 0), Entries(sources[1..]);
            && InOrder(first)
            && (forall a, b :: a in first && b in rest ==> Before(a, b))
  {
    hide NameLt;
    NamesAre(sources[1..]);
    RestIsAfter(sources);
    forall e | e in Entries(sources[1..]) ensures NameLt(sources[0].name, e.name) {
      var k :| 0 <= k < |sources[1..]| && sources[1..][k].name == e.name;
    }
  }

  lemma InOrderTogether(first: seq<Entry>, rest: seq<Entry>)
    requires InOrder(first) && InOrder(rest)
    requires forall a, b :: a in first && b in rest ==> Before(a, b)
    ensures InOrder(first + rest)
  {
    hide Before;
    var all := first + rest;
    forall i, j | 0 <= i < j < |all| ensures Before(all[i], all[j]) {
      if i < |first| <= j {
        assert all[i] in first && all[j] in rest;
      }
    }
  }
}
