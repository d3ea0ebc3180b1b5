/** The indexed snapshot. Its indexes are proved to be those of a scan, and its
    lookups to find what a scan finds. */
module Snapshots {
  import opened Base
  import opened Addresses
  import opened Text
  import opened Records
  import opened Contexts

  /** A record's address in the snapshot. */
  type Place = (string, nat)

  function PlaceOf(e: Entry): Place { (e.name, e.place) }

  function PlacesOf(entries: seq<Entry>): (r: seq<Place>)
    ensures |r| == |entries| && forall i :: 0 <= i < |r| ==> r[i] == PlaceOf(entries[i])
  {
    seq(|entries|, i requires 0 <= i < |entries| => PlaceOf(entries[i]))
  }

  function At<T(==)>(index: map<T, seq<Place>>, x: T): seq<Place> { if x in index then index[x] else [] }

  /** The index has, of every key, the places of the entries that list it, each
      as often as it does. */
  ghost predicate Indexes<T(!new)>(index: map<T, seq<Place>>, entries: seq<Entry>, keys: Record -> seq<T>) {
    forall x :: At(index, x) == PlacesOf(Keyed(entries, keys, x))
  }

  /** The lengths are those of all ranges, by family. */
  ghost predicate AreLengths(lengths: set<(bool, nat)>, entries: seq<Entry>) {
    forall v4: bool, length: nat ::
      (v4, length) in lengths <==> exists e, range :: e in entries && HasRange(e, range, v4, length)
  }

  ghost predicate HasRange(e: Entry, range: Range, v4: bool, length: nat) {
    range in e.record.ranges && range.network.V4? == v4 && range.length == length
  }

  lemma PlacesInTwo(a: seq<Entry>, b: seq<Entry>)
    ensures PlacesOf(a + b) == PlacesOf(a) + PlacesOf(b)
  {
  }

  lemma KeyedOneMore<T>(entries: seq<Entry>, e: Entry, keys: Record -> seq<T>, x: T)
    ensures Keyed(entries + [e], keys, x) == Keyed(entries, keys, x) + Repeat(e, Count(keys(e.record), x))
  {
    assert (entries + [e])[..|entries|] == entries;
  }

  lemma CountOneMore<T>(keys: seq<T>, e: Entry, i: nat, x: T)
    requires i < |keys|
    ensures PlacesOf(Repeat(e, Count(keys[..i + 1], x)))
            == PlacesOf(Repeat(e, Count(keys[..i], x))) + if x == keys[i] then [PlaceOf(e)] else []
  {
    assert keys[..i + 1][..i] == keys[..i];
    PlacesInTwo(Repeat(e, Count(keys[..i], x)), [e]);
  }

  lemma NoneCounted<T>(keys: seq<T>, e: Entry, x: T)
    ensures PlacesOf(Repeat(e, Count(keys[..0], x))) == []
  {
  }

  /** Adds a place under each of the keys, in turn. */
  method AddKeys<T(==, !new)>(index: map<T, seq<Place>>, keys: seq<T>, e: Entry) returns (r: map<T, seq<Place>>)
    ensures forall x :: At(r, x) == At(index, x) + PlacesOf(Repeat(e, Count(keys, x)))
  {
    hide IsAdded;
    r := index;
    NoneAdded(index, keys, e);
    for i := 0 to |keys|
      invariant IsAdded(index, r, keys[..i], e)
    {
      AddedOneMore(index, r, keys, e, i);
      r := r[keys[i] := At(r, keys[i]) + [PlaceOf(e)]];
    }
    assert keys[..|keys|] == keys;
    AddedIs(index, r, keys, e);
  }

  ghost predicate IsAdded<T(!new)>(index: map<T, seq<Place>>, r: map<T, seq<Place>>, keys: seq<T>, e: Entry) {
    forall x :: At(r, x) == At(index, x) + PlacesOf(Repeat(e, Count(keys, x)))
  }

  lemma AddedIs<T(!new)>(index: map<T, seq<Place>>, r: map<T, seq<Place>>, keys: seq<T>, e: Entry)
    requires IsAdded(index, r, keys, e)
    ensures forall x :: At(r, x) == At(index, x) + PlacesOf(Repeat(e, Count(keys, x)))
  {
  }

  lemma NoneAdded<T(!new)>(index: map<T, seq<Place>>, keys: seq<T>, e: Entry)
    ensures IsAdded(index, index, keys[..0], e)
  {
    forall x
      ensures At(index, x) + PlacesOf(Repeat(e, Count(keys[..0], x))) == At(index, x)
    {
      NoneCounted(keys, e, x);
    }
  }

  lemma AddedOneMore<T(!new)>(index: map<T, seq<Place>>, r: map<T, seq<Place>>, keys: seq<T>, e: Entry, i: nat)
    requires i < |keys| && IsAdded(index, r, keys[..i], e)
    ensures IsAdded(index, r[keys[i] := At(r, keys[i]) + [PlaceOf(e)]], keys[..i + 1], e)
  {
    hide At, PlacesOf, Repeat, Count;
    forall x
      ensures At(r[keys[i] := At(r, keys[i]) + [PlaceOf(e)]], x)
              == At(index, x) + PlacesOf(Repeat(e, Count(keys[..i + 1], x)))
    {
      AddedAt(index, r, keys, e, i, x);
    }
  }

  lemma AddedAt<T>(index: map<T, seq<Place>>, r: map<T, seq<Place>>, keys: seq<T>, e: Entry, i: nat, x: T)
    requires i < |keys| && At(r, x) == At(index, x) + PlacesOf(Repeat(e, Count(keys[..i], x)))
    ensures At(r[keys[i] := At(r, keys[i]) + [PlaceOf(e)]], x)
            == At(index, x) + PlacesOf(Repeat(e, Count(keys[..i + 1], x)))
  {
    CountOneMore(keys, e, i, x);
    PutAt(r, keys[i], PlaceOf(e), x);
    hide *;
    InOne(At(index, x), PlacesOf(Repeat(e, Count(keys[..i], x))), if x == keys[i] then [PlaceOf(e)] else []);
  }

  lemma InOne<T>(a: seq<T>, b: seq<T>, c: seq<T>)
    ensures (a + b) + c == a + (b + c)
  {
  }

  lemma PutAt<T>(index: map<T, seq<Place>>, key: T, place: Place, x: T)
    ensures At(index[key := At(index, key) + [place]], x) == At(index, x) + if x == key then [place] else []
  {
  }

  lemma IndexedOneMore<T(!new)>(
      before: map<T, seq<Place>>, after: map<T, seq<Place>>, entries: seq<Entry>, e: Entry, keys: Record -> seq<T>)
    requires Indexes(before, entries, keys)
    requires forall x :: At(after, x) == At(before, x) + PlacesOf(Repeat(e, Count(keys(e.record), x)))
    ensures Indexes(after, entries + [e], keys)
  {
    forall x ensures At(after, x) == PlacesOf(Keyed(entries + [e], keys, x)) {
      KeyedOneMore(entries, e, keys, x);
      PlacesInTwo(Keyed(entries, keys, x), Repeat(e, Count(keys(e.record), x)));
    }
  }

  /** The lengths of a record's ranges. */
  function LengthsOf(ranges: seq<Range>): set<(bool, nat)> {
    set range | range in ranges :: (range.network.V4?, range.length)
  }

  lemma LengthsOneMore(lengths: set<(bool, nat)>, entries: seq<Entry>, e: Entry)
    requires AreLengths(lengths, entries)
    ensures AreLengths(lengths + LengthsOf(e.record.ranges), entries + [e])
  {
    var all := entries + [e];
    forall v4: bool, length: nat
      ensures (v4, length) in lengths + LengthsOf(e.record.ranges)
              <==> exists x, range :: x in all && HasRange(x, range, v4, length)
    {
      assert forall x :: x in all <==> x in entries || x == e;
      if (v4, length) in LengthsOf(e.record.ranges) {
        var range :| range in e.record.ranges && (range.network.V4?, range.length) == (v4, length);
        assert HasRange(e, range, v4, length);
      }
    }
  }

  ghost predicate SourceOk(source: Source) {
    forall i, range :: 0 <= i < |source.records| && range in source.records[i].ranges ==> RangeOk(range)
  }

  class Snapshot {
    var sources: Sources
    var byId: map<Id, seq<Place>>
    var byRange: map<Range, seq<Place>>
    var lengths: set<(bool, nat)>

    ghost predicate Valid()
      reads this
    {
      && SourcesOk(sources) && RangesOk(Entries(sources))
      && Indexes(byId, Entries(sources), IdsOf)
      && Indexes(byRange, Entries(sources), RangesOf)
      && AreLengths(lengths, Entries(sources))
    }

    constructor ()
      ensures Valid() && Contents(sources) == map[]
    {
      sources, byId, byRange, lengths := [], map[], map[], {};
    }

    /** One source's records take over all it had; the others stay. */
    method Replace(name: string, version: string, records: seq<Record>) returns (count: nat)
      requires Valid() && SourceOk(Source(version, records))
      modifies this
      ensures Valid() && count == |records|
      ensures Contents(sources) == Contents(old(sources))[name := Source(version, records)]
    {
      PutIs(sources, name, Source(version, records));
      RangesOfContents(sources, Put(sources, name, Source(version, records)), name, Source(version, records));
      sources := Put(sources, name, Source(version, records));
      Index();
      count := |records|;
    }

    /** Removes a source and its records. */
    method Remove(name: string) returns (held: bool)
      requires Valid()
      modifies this
      ensures Valid() && held == (name in old(Contents(sources)))
      ensures Contents(sources) == Contents(old(sources)) - {name}
    {
      held := name in Contents(sources);
      if held {
        DroppedIs(sources, name);
        RangesOfRest(sources, Dropped(sources, name));
        sources := Dropped(sources, name);
        Index();
      }
    }

    /** Rebuilds every index from the records, so that nothing of the old ones is
        left. */
    method Index()
      requires SourcesOk(sources) && RangesOk(Entries(sources))
      modifies this`byId, this`byRange, this`lengths
      ensures Valid()
    {
      hide RangesOk, SourcesOk, Indexes, AreLengths;
      byId, byRange, lengths := map[], map[], {};
      NothingIndexed();
      var entries := Entries(sources);
      for i := 0 to |entries|
        invariant Indexes(byId, entries[..i], IdsOf) && Indexes(byRange, entries[..i], RangesOf)
        invariant AreLengths(lengths, entries[..i])
      {
        assert entries[..i + 1] == entries[..i] + [entries[i]];
        IndexOne(entries[..i], entries[i]);
      }
      assert entries[..|entries|] == entries;
    }

    method IndexOne(ghost before: seq<Entry>, e: Entry)
      requires Indexes(byId, before, IdsOf) && Indexes(byRange, before, RangesOf) && AreLengths(lengths, before)
      modifies this`byId, this`byRange, this`lengths
      ensures Indexes(byId, before + [e], IdsOf) && Indexes(byRange, before + [e], RangesOf)
      ensures AreLengths(lengths, before + [e])
    {
      hide Indexes, AreLengths;
      var ids := AddKeys(byId, e.record.ids, e);
      IndexedOneMore(byId, ids, before, e, IdsOf);
      var ranges := AddKeys(byRange, e.record.ranges, e);
      IndexedOneMore(byRange, ranges, before, e, RangesOf);
      LengthsOneMore(lengths, before, e);
      byId, byRange, lengths := ids, ranges, lengths + LengthsOf(e.record.ranges);
    }

    /** The record at a place, if its source still holds one there. */
    function RecordAt(place: Place): Option<Entry>
      reads this`sources
    {
      var held := Contents(sources);
      if place.0 in held && place.1 < |held[place.0].records| then
        Some(Entry(place.0, held[place.0].version, place.1, held[place.0].records[place.1]))
      else None
    }

    /** The records at places, in order. */
    method RecordsAt(places: seq<Place>, ghost listing: seq<Entry>) returns (r: seq<Entry>)
      requires SourcesOk(sources) && places == PlacesOf(listing)
      requires forall e :: e in listing ==> e in Entries(sources)
      ensures r == listing
    {
      r := [];
      EntriesAre(sources);
      hide SourcesOk;
      for i := 0 to |places|
        invariant r == listing[..i]
      {
        var e := RecordAt(places[i]);
        assert listing[i] in listing && listing[i] in Entries(sources);
        if e.Some? { r := r + [e.value]; }
      }
    }

    /** The records that list an identifier. */
    method RecordsOf(id: Id) returns (r: seq<Entry>)
      requires Valid()
      ensures r == Keyed(Entries(sources), IdsOf, id)
    {
      KeyedAreEntries(Entries(sources), IdsOf, id);
      r := RecordsAt(At(byId, id), Keyed(Entries(sources), IdsOf, id));
    }

    /** The union of three ways to find a record, equal to what three scans find. */
    method Lookup(id: Id, reading: Reading, q: Query) returns (found: seq<Found>)
      requires Valid()
      ensures found == LookupOf(sources, id, reading, q)
    {
      hide *;
      found := LookDirectly(id, q);
      if id.kind == AddressId {
        var address := reading.address(id.value);
        if address.Some? {
          var more := LookByRange(address.value, q);
          found := found + more;
        }
      }
      if id.kind == Host {
        var more := LookByDomain(id, reading, q, ListKeys(found));
        found := found + more;
      }
      Assembled(sources, id, reading, q, found);
    }

    /** The first way: the identifier's own places. */
    method LookDirectly(id: Id, q: Query) returns (found: seq<Found>)
      requires Valid()
      ensures found == Direct(sources, id, q)
    {
      var entries := RecordsOf(id);
      hide *;
      var ended: map<string, Entry> := map[];
      var holding: set<string> := {};
      found := [];
      NothingRead(q);
      assert entries[..0] == [];
      for i := 0 to |entries|
        invariant AreRead(entries[..i], q, found, holding, ended)
      {
        var e := entries[i];
        assert entries[..i + 1] == entries[..i] + [e];
        OneRead(entries[..i], q, found, holding, ended, e);
        if HoldsAt(e.record, q) {
          holding, found := holding + {e.name}, found + [Found(e, false, None)];
        } else if HasEnded(e.record, q) {
          EndedHasEnd(e.record, q);
          if e.name !in ended || EndsBefore(ended[e.name], e) { ended := ended[e.name := e]; }
        }
      }
      assert entries[..|entries|] == entries;
      WhatWasRead(entries, q, found, holding, ended);
      var more := EndedFound(ended, holding, entries, q);
      found := found + more;
      DirectIs(sources, id, q, entries);
    }

    /** Those that ended, in the order of the sources' names. */
    method EndedFound(ended: map<string, Entry>, holding: set<string>, ghost listing: seq<Entry>, q: Query)
      returns (found: seq<Found>)
      requires holding == NamesHolding(listing, q)
      requires forall name :: LastEnded(listing, name, q) == if name in ended then Some(ended[name]) else None
      ensures found == EndedOf(NamesOf(sources), listing, q)
    {
      hide LastEnded, NamesHolding;
      found := [];
      var names := NamesOf(sources);
      for i := 0 to |names|
        invariant found == EndedOf(names[..i], listing, q)
      {
        assert names[..i + 1][..i] == names[..i];
        if names[i] in ended && names[i] !in holding { found := found + [Found(ended[names[i]], true, None)]; }
      }
      assert names[..|names|] == names;
    }

    /** The second way, for an address: one probe of the index for each length in
        use, longest first. */
    method LookByRange(address: Address, q: Query) returns (found: seq<Found>)
      requires Valid()
      ensures found == FirstOf(RangeCandidates(Entries(sources), address, q, Width(address)), {})
    {
      hide HoldsAt, Keyed, FirstOf, Masked, Width, Indexes, SourcesOk, RangesOk, AreLengths, FoundBy, RangeCandidates;
      var taken: set<(string, Kind)> := {};
      ghost var seen: seq<Found> := [];
      found := [];
      FirstOfNone({});
      assert [] + RangeCandidates(Entries(sources), address, q, Width(address))
             == RangeCandidates(Entries(sources), address, q, Width(address));
      for length := Width(address) + 1 downto 0
        invariant found == FirstOf(seen, {}) && taken == KeysOf(seen)
        invariant seen + CandidatesFrom(Entries(sources), address, q, length)
                  == RangeCandidates(Entries(sources), address, q, Width(address))
      {
        ghost var here :=
            FoundBy(Keyed(Entries(sources), RangesOf, HoldingRange(address, length)), HoldingRange(address, length), q);
        found, taken := LookAtLength(address, length, q, found, taken, seen);
        CandidatesOfOneMore(Entries(sources), address, q, length, seen);
        seen := seen + here;
      }
      assert CandidatesFrom(Entries(sources), address, q, 0) == [];
      assert seen + [] == seen;
    }

    /** The ranges of one length, if any record has one. */
    method LookAtLength(
        address: Address, length: nat, q: Query, found: seq<Found>, taken: set<(string, Kind)>, ghost seen: seq<Found>)
      returns (more: seq<Found>, used: set<(string, Kind)>)
      requires Valid() && length <= Width(address) && found == FirstOf(seen, {}) && taken == KeysOf(seen)
      ensures var range := HoldingRange(address, length);
              var all := seen + FoundBy(Keyed(Entries(sources), RangesOf, range), range, q);
              more == FirstOf(all, {}) && used == KeysOf(all)
    {
      hide HoldsAt, Keyed, FirstOf, Masked, Width, SourcesOk, RangesOk;
      var range := HoldingRange(address, length);
      ghost var listing := Keyed(Entries(sources), RangesOf, range);
      if (address.V4?, length) in lengths {
        KeyedAreEntries(Entries(sources), RangesOf, range);
        var entries := RecordsAt(At(byRange, range), listing);
        more, used := TakeFound(entries, range, q, found, taken, seen);
      } else {
        NotInUse(lengths, Entries(sources), address, length);
        assert seen + FoundBy(listing, range, q) == seen;
        more, used := found, taken;
      }
    }

    /** The third way, for a host: its name and each parent, nearest first, where a
        source's list is found once. */
    method LookByDomain(host: Id, reading: Reading, q: Query, listed: set<(string, Kind)>) returns (found: seq<Found>)
      requires Valid()
      ensures found == FirstOf(DomainCandidates(Entries(sources), Parents(host.value, reading.host), q), listed)
    {
      hide *;
      NoDomains(Entries(sources), q);
      var taken, name := listed, host.value;
      ghost var before: seq<Id>, seen: seq<Found> := [], [];
      found := [];
      FirstOfNone(listed);
      while true
        invariant found == FirstOf(seen, listed) && taken == listed + KeysOf(seen)
        invariant seen == DomainCandidates(Entries(sources), before, q)
        invariant before + Parents(name, reading.host) == Parents(host.value, reading.host)
        decreases |name|
      {
        ParentsFrom(name, reading.host);
        var dot := IndexOf(name, '.');
        if dot.None? { break; }
        var parent := reading.host(name[dot.value + 1..]);
        if parent.None? { break; }
        name := name[dot.value + 1..];
        ghost var listing := Keyed(Entries(sources), IdsOf, parent.value);
        var entries := RecordsOf(parent.value);
        found, taken := TakeLists(entries, q, found, taken, seen, listed);
        seen := seen + ListsOf(listing, q);
        DomainsOneMore(Entries(sources), before, parent.value, q);
        before := before + [parent.value];
      }
      assert before + [] == before;
    }
  }

  // ------------------------------------------------------------------ helpers

  /** Whether a record's end is before another's. */
  predicate EndsBefore(a: Entry, b: Entry) {
    b.record.validUntil.Some? && (a.record.validUntil.None? || a.record.validUntil.value < b.record.validUntil.value)
  }

  /** What the loop over an identifier's records has read. */
  ghost predicate AreRead(
      listing: seq<Entry>, q: Query, found: seq<Found>, holding: set<string>, ended: map<string, Entry>) {
    && found == HoldingOf(listing, q) && holding == NamesHolding(listing, q)
    && forall name :: LastEnded(listing, name, q) == if name in ended then Some(ended[name]) else None
  }

  lemma NothingRead(q: Query)
    ensures AreRead([], q, [], {}, map[])
  {
  }

  lemma WhatWasRead(listing: seq<Entry>, q: Query, found: seq<Found>, holding: set<string>, ended: map<string, Entry>)
    requires AreRead(listing, q, found, holding, ended)
    ensures found == HoldingOf(listing, q) && holding == NamesHolding(listing, q)
    ensures forall name :: LastEnded(listing, name, q) == if name in ended then Some(ended[name]) else None
  {
  }

  lemma EndedHasEnd(r: Record, q: Query)
    requires HasEnded(r, q)
    ensures r.validUntil.Some?
  {
  }

  lemma OneRead(
      listing: seq<Entry>, q: Query, found: seq<Found>, holding: set<string>, ended: map<string, Entry>, e: Entry)
    requires AreRead(listing, q, found, holding, ended)
    ensures var more := listing + [e];
            if HoldsAt(e.record, q) then AreRead(more, q, found + [Found(e, false, None)], holding + {e.name}, ended)
            else if HasEnded(e.record, q) && (e.name !in ended || EndsBefore(ended[e.name], e)) then
              AreRead(more, q, found, holding, ended[e.name := e])
            else AreRead(more, q, found, holding, ended)
  {
    LastEndedOneMore(listing, e, q);
    assert e.name in ended ==>
           LastEnded(listing, e.name, q) == Some(ended[e.name]) && HasEnded(ended[e.name].record, q);
    hide HoldsAt, HoldingOf, NamesHolding, LastEnded;
  }

  lemma DirectIs(sources: Sources, id: Id, q: Query, listing: seq<Entry>)
    requires listing == Keyed(Entries(sources), IdsOf, id)
    ensures Direct(sources, id, q) == HoldingOf(listing, q) + EndedOf(NamesOf(sources), listing, q)
  {
    hide HoldingOf, EndedOf, Keyed;
  }

  /** The loop over the records of one range. */
  method TakeFound(
      entries: seq<Entry>, range: Range, q: Query, found: seq<Found>, taken: set<(string, Kind)>,
      ghost seen: seq<Found>)
    returns (more: seq<Found>, used: set<(string, Kind)>)
    requires found == FirstOf(seen, {}) && taken == KeysOf(seen)
    ensures more == FirstOf(seen + FoundBy(entries, range, q), {}) && used == KeysOf(seen + FoundBy(entries, range, q))
  {
    hide HoldsAt, FirstOf;
    more, used := found, taken;
    assert seen + [] == seen;
    for i := 0 to |entries|
      invariant more == FirstOf(seen + FoundBy(entries[..i], range, q), {})
      invariant used == KeysOf(seen + FoundBy(entries[..i], range, q))
    {
      assert entries[..i + 1][..i] == entries[..i];
      if HoldsAt(entries[i].record, q) {
        var f := Found(entries[i], false, Some(range));
        ghost var before := seen + FoundBy(entries[..i], range, q);
        FirstOfOneMore(before, f, {});
        assert before + [f] == seen + FoundBy(entries[..i + 1], range, q);
        if KeyOf(f) !in used { more := more + [f]; }
        used := used + {KeyOf(f)};
      } else {
        assert FoundBy(entries[..i], range, q) + [] == FoundBy(entries[..i], range, q);
      }
    }
    assert entries[..|entries|] == entries;
  }

  /** The loop over the records of one domain. */
  method TakeLists(
      entries: seq<Entry>, q: Query, found: seq<Found>, taken: set<(string, Kind)>, ghost seen: seq<Found>,
      ghost listed: set<(string, Kind)>)
    returns (more: seq<Found>, used: set<(string, Kind)>)
    requires found == FirstOf(seen, listed) && taken == listed + KeysOf(seen)
    ensures more == FirstOf(seen + ListsOf(entries, q), listed) && used == listed + KeysOf(seen + ListsOf(entries, q))
  {
    hide HoldsAt, FirstOf;
    more, used := found, taken;
    assert seen + [] == seen;
    for i := 0 to |entries|
      invariant more == FirstOf(seen + ListsOf(entries[..i], q), listed)
      invariant used == listed + KeysOf(seen + ListsOf(entries[..i], q))
    {
      assert entries[..i + 1][..i] == entries[..i];
      if entries[i].record.kind == List && HoldsAt(entries[i].record, q) {
        var f := Found(entries[i], false, None);
        ghost var before := seen + ListsOf(entries[..i], q);
        FirstOfOneMore(before, f, listed);
        assert before + [f] == seen + ListsOf(entries[..i + 1], q);
        if KeyOf(f) !in used { more := more + [f]; }
        used := used + {KeyOf(f)};
      } else {
        assert ListsOf(entries[..i], q) + [] == ListsOf(entries[..i], q);
      }
    }
    assert entries[..|entries|] == entries;
  }

  lemma FirstOfNone(taken: set<(string, Kind)>)
    ensures FirstOf([], taken) == [] && KeysOf([]) == {}
  {
  }

  lemma FirstOfOneMore(seen: seq<Found>, f: Found, taken: set<(string, Kind)>)
    ensures FirstOf(seen + [f], taken) == FirstOf(seen, taken) + if KeyOf(f) in taken + KeysOf(seen) then [] else [f]
    ensures KeysOf(seen + [f]) == KeysOf(seen) + {KeyOf(f)}
  {
    assert (seen + [f])[..|seen|] == seen;
  }

  /** The candidates of lengths below one. */
  ghost function CandidatesFrom(entries: seq<Entry>, address: Address, q: Query, below: nat): seq<Found>
    requires below <= Width(address) + 1
  {
    if below == 0 then [] else RangeCandidates(entries, address, q, below - 1)
  }

  lemma ParentsFrom(name: string, host: string -> Option<Id>)
    ensures var dot := IndexOf(name, '.');
            Parents(name, host) == if dot.None? || host(name[dot.value + 1..]).None? then []
                                   else [host(name[dot.value + 1..]).value] + Parents(name[dot.value + 1..], host)
  {
  }

  lemma NoDomains(entries: seq<Entry>, q: Query)
    ensures DomainCandidates(entries, [], q) == []
  {
  }

  lemma DomainsOneMore(entries: seq<Entry>, before: seq<Id>, parent: Id, q: Query)
    ensures DomainCandidates(entries, before + [parent], q)
            == DomainCandidates(entries, before, q) + ListsOf(Keyed(entries, IdsOf, parent), q)
  {
    assert (before + [parent])[..|before|] == before;
  }

  lemma CandidatesOfOneMore(entries: seq<Entry>, address: Address, q: Query, length: nat, seen: seq<Found>)
    requires length <= Width(address)
    ensures var range := HoldingRange(address, length);
            seen + CandidatesFrom(entries, address, q, length + 1)
            == (seen + FoundBy(Keyed(entries, RangesOf, range), range, q)) + CandidatesFrom(entries, address, q, length)
  {
    hide FoundBy, Keyed, Masked, Width;
  }

  lemma KeyedAreEntries<T>(entries: seq<Entry>, keys: Record -> seq<T>, x: T)
    ensures forall e :: e in Keyed(entries, keys, x) ==> e in entries
  {
    forall e | e in Keyed(entries, keys, x) ensures e in entries { KeyedIs(entries, keys, x, e); }
  }

  /** No record has a range of a length not in use. */
  lemma NotInUse(lengths: set<(bool, nat)>, entries: seq<Entry>, address: Address, length: nat)
    requires AreLengths(lengths, entries) && length <= Width(address) && (address.V4?, length) !in lengths
    ensures Keyed(entries, RangesOf, HoldingRange(address, length)) == []
  {
    var listing := Keyed(entries, RangesOf, HoldingRange(address, length));
    if listing != [] {
      KeyedIs(entries, RangesOf, HoldingRange(address, length), listing[0]);
      assert HasRange(listing[0], HoldingRange(address, length), address.V4?, length);
    }
  }

  lemma LastEndedOneMore(listing: seq<Entry>, e: Entry, q: Query)
    ensures HoldingOf(listing + [e], q)
            == HoldingOf(listing, q) + if HoldsAt(e.record, q) then [Found(e, false, None)] else []
    ensures NamesHolding(listing + [e], q) == NamesHolding(listing, q) + if HoldsAt(e.record, q) then {e.name} else {}
    ensures forall name :: LastEnded(listing + [e], name, q) ==
              var before := LastEnded(listing, name, q);
              if e.name == name && !HoldsAt(e.record, q) && HasEnded(e.record, q)
                 && (before.None? || before.value.record.validUntil.value < e.record.validUntil.value)
              then Some(e) else before
  {
    hide HoldsAt;
    assert (listing + [e])[..|listing|] == listing;
  }

  lemma NothingIndexed()
    ensures Indexes<Id>(map[], [], IdsOf) && Indexes<Range>(map[], [], RangesOf) && AreLengths({}, [])
  {
  }

  lemma EntriesOfContents(sources: Sources, e: Entry)
    requires SourcesOk(sources) && e in Entries(sources)
    ensures e.name in Contents(sources) && e.place < |Contents(sources)[e.name].records|
    ensures e.record == Contents(sources)[e.name].records[e.place]
  {
    EntriesAre(sources);
  }

  lemma {:induction false} EntriesAreAll(sources: Sources, name: string, place: nat)
    requires SourcesOk(sources) && name in Contents(sources) && place < |Contents(sources)[name].records|
    ensures var source := Contents(sources)[name];
            Entry(name, source.version, place, source.records[place]) in Entries(sources)
  {
    if sources[0].name == name {
      assert EntriesOf(sources[0], 0)[place] in EntriesOf(sources[0], 0);
    } else {
      EntriesAreAll(sources[1..], name, place);
    }
  }

  lemma RangesOfContents(sources: Sources, after: Sources, name: string, source: Source)
    requires SourcesOk(sources) && SourcesOk(after) && RangesOk(Entries(sources)) && SourceOk(source)
    requires Contents(after) == Contents(sources)[name := source]
    ensures RangesOk(Entries(after))
  {
    forall e, range | e in Entries(after) && range in e.record.ranges ensures RangeOk(range) {
      EntriesOfContents(after, e);
      if e.name != name { EntriesAreAll(sources, e.name, e.place); }
    }
  }

  lemma RangesOfRest(sources: Sources, after: Sources)
    requires SourcesOk(sources) && SourcesOk(after) && RangesOk(Entries(sources))
    requires forall name :: name in Contents(after) ==>
             name in Contents(sources) && Contents(after)[name] == Contents(sources)[name]
    ensures RangesOk(Entries(after))
  {
    forall e, range | e in Entries(after) && range in e.record.ranges ensures RangeOk(range) {
      EntriesOfContents(after, e);
      EntriesAreAll(sources, e.name, e.place);
    }
  }

  lemma Assembled(sources: Sources, id: Id, reading: Reading, q: Query, found: seq<Found>)
    requires var direct := Direct(sources, id, q);
             found == if id.kind == AddressId && reading.address(id.value).Some? then
                        direct + FirstOf(RangeCandidates(Entries(sources), reading.address(id.value).value, q,
                                                         Width(reading.address(id.value).value)), {})
                      else if id.kind == Host then
                        direct + FirstOf(DomainCandidates(Entries(sources), Parents(id.value, reading.host), q),
                            ListKeys(direct))
                      else direct
    ensures found == LookupOf(sources, id, reading, q)
  {
    hide Direct, FirstOf, RangeCandidates, DomainCandidates, Parents, Width;
    var direct := Direct(sources, id, q);
    assert direct + [] == direct;
    assert found + [] == found;
  }
}
