/** What a lookup of context finds, by a plain scan of every record, and what
    that means. */
module Contexts {
  import opened Base
  import opened Ordering
  import opened Text
  import opened Addresses
  import opened Records

  /** A record found: whether it ended before, and by which range, if by one. */
  datatype Found = Found(entry: Entry, ended: bool, range: Option<Range>)

  /** How texts are read, which is not part of this model: an address, and the
      identifier of a host. */
  datatype Reading = Reading(address: string -> Option<Address>, host: string -> Option<Id>)

  // ------------------------------------------------------------ by a key

  function Count<T(==)>(xs: seq<T>, x: T): nat {
    if xs == [] then 0 else Count(xs[..|xs| - 1], x) + if xs[|xs| - 1] == x then 1 else 0
  }

  function Repeat(e: Entry, n: nat): seq<Entry> { if n == 0 then [] else Repeat(e, n - 1) + [e] }

  /** The entries that list `x` among their keys, each as often as it does. */
  function Keyed<T(==)>(entries: seq<Entry>, keys: Record -> seq<T>, x: T): seq<Entry> {
    if entries == [] then []
    else
      var last := entries[|entries| - 1];
      Keyed(entries[..|entries| - 1], keys, x) + Repeat(last, Count(keys(last.record), x))
  }

  function IdsOf(r: Record): seq<Id> { r.ids }

  function RangesOf(r: Record): seq<Range> { r.ranges }

  // --------------------------------------------------------- by identifier

  /** Those that hold. */
  function HoldingOf(listing: seq<Entry>, q: Query): seq<Found> {
    if listing == [] then []
    else
      var last := listing[|listing| - 1];
      HoldingOf(listing[..|listing| - 1], q) + if HoldsAt(last.record, q) then [Found(last, false, None)] else []
  }

  /** The names of the sources of which something holds. */
  function NamesHolding(listing: seq<Entry>, q: Query): set<string> {
    set e | e in listing && HoldsAt(e.record, q) :: e.name
  }

  /** Of a source, the last of those that ended: the first with the latest end. */
  function LastEnded(listing: seq<Entry>, name: string, q: Query): (r: Option<Entry>)
    ensures r.Some? ==> HasEnded(r.value.record, q)
  {
    if listing == [] then None
    else
      var last, before := listing[|listing| - 1], LastEnded(listing[..|listing| - 1], name, q);
      if last.name == name && !HoldsAt(last.record, q) && HasEnded(last.record, q)
         && (before.None? || before.value.record.validUntil.value < last.record.validUntil.value)
      then Some(last) else before
  }

  /** Of each source that holds nothing, the last that ended. */
  function EndedOf(names: seq<string>, listing: seq<Entry>, q: Query): seq<Found> {
    if names == [] then []
    else
      var name := names[|names| - 1];
      EndedOf(names[..|names| - 1], listing, q)
      + if name !in NamesHolding(listing, q) && LastEnded(listing, name, q).Some?
        then [Found(LastEnded(listing, name, q).value, true, None)] else []
  }

  function NamesOf(sources: Sources): (r: seq<string>)
    ensures |r| == |sources| && forall i :: 0 <= i < |r| ==> r[i] == sources[i].name
  {
    seq(|sources|, i requires 0 <= i < |sources| => sources[i].name)
  }

  // --------------------------------------------------- the first of each kind

  function KeyOf(f: Found): (string, Kind) { (f.entry.name, f.entry.record.kind) }

  function KeysOf(found: seq<Found>): set<(string, Kind)> { set f | f in found :: KeyOf(f) }

  /** Candidates thinned to one for every pair of source and kind, earlier ones
      first, pairs in `taken` left out. */
  function FirstOf(candidates: seq<Found>, taken: set<(string, Kind)>): seq<Found> {
    if candidates == [] then []
    else
      var rest, last := candidates[..|candidates| - 1], candidates[|candidates| - 1];
      FirstOf(rest, taken) + if KeyOf(last) in taken + KeysOf(rest) then [] else [last]
  }

  /** Which those are. */
  lemma {:induction false} FirstOfIs(candidates: seq<Found>, taken: set<(string, Kind)>, f: Found)
    ensures f in FirstOf(candidates, taken) <==>
            KeyOf(f) !in taken
            && exists i :: 0 <= i < |candidates| && candidates[i] == f && KeyOf(f) !in KeysOf(candidates[..i])
  {
    if candidates != [] {
      var rest, last := candidates[..|candidates| - 1], candidates[|candidates| - 1];
      FirstOfIs(rest, taken, f);
      assert forall i :: 0 <= i <= |rest| ==> rest[..i] == candidates[..i];
      assert candidates[..|rest|] == rest;
      if f in FirstOf(candidates, taken) {
        if f in FirstOf(rest, taken) {
          var i :| 0 <= i < |rest| && rest[i] == f && KeyOf(f) !in KeysOf(rest[..i]);
          assert candidates[i] == f && KeyOf(f) !in KeysOf(candidates[..i]);
        } else {
          assert candidates[|rest|] == f;
        }
      }
      if i :| 0 <= i < |candidates| && candidates[i] == f && KeyOf(f) !in KeysOf(candidates[..i]) {
        if i < |rest| { assert rest[i] == f && KeyOf(f) !in KeysOf(rest[..i]); }
      }
    }
  }

  /** Each key that is not taken is found once, and no other. */
  lemma KeysOfOneMore(before: seq<Found>, last: Found)
    ensures KeysOf(before + [last]) == KeysOf(before) + {KeyOf(last)}
    ensures forall i :: 0 <= i < |before| ==> KeyOf(before[i]) in KeysOf(before)
  {
    assert forall f :: f in before + [last] <==> f in before || f == last;
  }

  lemma {:induction false} FirstOfHasEachOnce(candidates: seq<Found>, taken: set<(string, Kind)>)
    ensures KeysOf(FirstOf(candidates, taken)) == KeysOf(candidates) - taken
    ensures forall i, j :: 0 <= i < j < |FirstOf(candidates, taken)| ==>
              KeyOf(FirstOf(candidates, taken)[i]) != KeyOf(FirstOf(candidates, taken)[j])
  {
    if candidates != [] {
      var rest, last := candidates[..|candidates| - 1], candidates[|candidates| - 1];
      FirstOfHasEachOnce(rest, taken);
      assert candidates == rest + [last];
      KeysOfOneMore(rest, last);
      hide KeysOf, KeyOf;
      if KeyOf(last) in taken + KeysOf(rest) {
        assert FirstOf(candidates, taken) == FirstOf(rest, taken);
      } else {
        assert FirstOf(candidates, taken) == FirstOf(rest, taken) + [last];
        OneOfEachMore(FirstOf(rest, taken), last);
      }
    }
  }

  lemma OneOfEachMore(before: seq<Found>, last: Found)
    requires KeyOf(last) !in KeysOf(before)
    requires forall i, j :: 0 <= i < j < |before| ==> KeyOf(before[i]) != KeyOf(before[j])
    ensures KeysOf(before + [last]) == KeysOf(before) + {KeyOf(last)}
    ensures var all := before + [last];
            forall i, j :: 0 <= i < j < |all| ==> KeyOf(all[i]) != KeyOf(all[j])
  {
    KeysOfOneMore(before, last);
    hide KeysOf, KeyOf;
  }

  // --------------------------------------------------------------- by range

  /** Those of `listing` that hold, found by a range. */
  function FoundBy(listing: seq<Entry>, range: Range, q: Query): seq<Found> {
    if listing == [] then []
    else
      var last := listing[|listing| - 1];
      FoundBy(listing[..|listing| - 1], range, q)
          + if HoldsAt(last.record, q) then [Found(last, false, Some(range))] else []
  }

  /** All that hold and have a range that holds the address, longer ranges
      first. */
  function RangeCandidates(entries: seq<Entry>, address: Address, q: Query, from: nat): seq<Found>
    requires from <= Width(address)
    decreases from
  {
    FoundBy(Keyed(entries, RangesOf, HoldingRange(address, from)), HoldingRange(address, from), q)
    + if from == 0 then [] else RangeCandidates(entries, address, q, from - 1)
  }

  // -------------------------------------------------------------- by domain

  /** The domains a name is under, the nearest first. */
  function Parents(name: string, host: string -> Option<Id>): seq<Id>
    decreases |name|
  {
    match IndexOf(name, '.')
    case None => []
    case Some(at) =>
      var parent := name[at + 1..];
      match host(parent)
      case None => []
      case Some(id) => [id] + Parents(parent, host)
  }

  /** The rows of lists among `listing` that hold. */
  function ListsOf(listing: seq<Entry>, q: Query): seq<Found> {
    if listing == [] then []
    else
      var last := listing[|listing| - 1];
      ListsOf(listing[..|listing| - 1], q)
      + if last.record.kind == List && HoldsAt(last.record, q) then [Found(last, false, None)] else []
  }

  function DomainCandidates(entries: seq<Entry>, parents: seq<Id>, q: Query): seq<Found> {
    if parents == [] then []
    else
      DomainCandidates(entries, parents[..|parents| - 1], q) + ListsOf(Keyed(entries, IdsOf, parents[|parents| - 1]), q)
  }

  /** The keys of the rows of lists found. */
  function ListKeys(found: seq<Found>): set<(string, Kind)> {
    set f | f in found && f.entry.record.kind == List :: KeyOf(f)
  }

  // ------------------------------------------------------------- the lookup

  /** What each source says of an identifier. */
  function Direct(sources: Sources, id: Id, q: Query): seq<Found> {
    var listing := Keyed(Entries(sources), IdsOf, id);
    HoldingOf(listing, q) + EndedOf(NamesOf(sources), listing, q)
  }

  function ByRange(sources: Sources, id: Id, reading: Reading, q: Query): seq<Found> {
    if id.kind == AddressId && reading.address(id.value).Some? then
      var address := reading.address(id.value).value;
      FirstOf(RangeCandidates(Entries(sources), address, q, Width(address)), {})
    else []
  }

  function ByDomain(sources: Sources, id: Id, reading: Reading, q: Query, taken: set<(string, Kind)>): seq<Found> {
    if id.kind == Host then
      FirstOf(DomainCandidates(Entries(sources), Parents(id.value, reading.host), q), taken)
    else []
  }

  function LookupOf(sources: Sources, id: Id, reading: Reading, q: Query): seq<Found> {
    var direct := Direct(sources, id, q) + ByRange(sources, id, reading, q);
    direct + ByDomain(sources, id, reading, q, ListKeys(direct))
  }

  // ---------------------------------------------------------- what it means

  lemma {:induction false} RepeatIs(e: Entry, n: nat, other: Entry)
    ensures other in Repeat(e, n) <==> n > 0 && other == e
  {
    if n > 0 { RepeatIs(e, n - 1, other); }
  }

  lemma {:induction false} CountIs<T>(xs: seq<T>, x: T)
    ensures Count(xs, x) > 0 <==> x in xs
  {
    if xs != [] {
      CountIs(xs[..|xs| - 1], x);
      assert xs == xs[..|xs| - 1] + [xs[|xs| - 1]];
    }
  }

  lemma {:induction false} KeyedIs<T>(entries: seq<Entry>, keys: Record -> seq<T>, x: T, e: Entry)
    ensures e in Keyed(entries, keys, x) <==> e in entries && x in keys(e.record)
  {
    if entries != [] {
      var rest, last := entries[..|entries| - 1], entries[|entries| - 1];
      KeyedIs(rest, keys, x, e);
      RepeatIs(last, Count(keys(last.record), x), e);
      CountIs(keys(last.record), x);
      assert entries == rest + [last];
    }
  }

  lemma {:induction false} HoldingIs(listing: seq<Entry>, q: Query, f: Found)
    ensures f in HoldingOf(listing, q) <==>
            f == Found(f.entry, false, None) && f.entry in listing && HoldsAt(f.entry.record, q)
  {
    if listing != [] {
      HoldingIs(listing[..|listing| - 1], q, f);
      assert listing == listing[..|listing| - 1] + [listing[|listing| - 1]];
    }
  }

  /** `e` is the last of its source that ended: none of the others ended later. */
  ghost predicate IsLastEnded(listing: seq<Entry>, e: Entry, q: Query) {
    && e in listing && HasEnded(e.record, q)
    && (forall other :: other in listing && other.name == e.name && HasEnded(other.record, q) ==>
          other.record.validUntil.value <= e.record.validUntil.value)
  }

  lemma {:induction false} LastEndedIs(listing: seq<Entry>, name: string, q: Query)
    ensures var r := LastEnded(listing, name, q);
            && (r.Some? <==> exists e :: e in listing && e.name == name && HasEnded(e.record, q))
            && (r.Some? ==> r.value.name == name && IsLastEnded(listing, r.value, q))
  {
    if listing != [] {
      var rest, last := listing[..|listing| - 1], listing[|listing| - 1];
      LastEndedIs(rest, name, q);
      assert listing == rest + [last];
      assert HasEnded(last.record, q) ==> !HoldsAt(last.record, q);
    }
  }

  lemma {:induction false} EndedIs(names: seq<string>, listing: seq<Entry>, q: Query, f: Found)
    ensures f in EndedOf(names, listing, q) <==>
            f.entry.name in names && f.entry.name !in NamesHolding(listing, q)
            && LastEnded(listing, f.entry.name, q) == Some(f.entry) && f == Found(f.entry, true, None)
  {
    if names != [] {
      var rest, name := names[..|names| - 1], names[|names| - 1];
      EndedIs(rest, listing, q, f);
      LastEndedIs(listing, name, q);
      assert names == rest + [name];
    }
  }

  /** By the identifier itself a lookup finds the records that list it and hold,
      and of each source of which none does, the one that ended last. */
  lemma DirectFinds(sources: Sources, id: Id, q: Query, f: Found)
    requires SourcesOk(sources)
    ensures f in Direct(sources, id, q) ==>
              f.entry in Entries(sources) && id in f.entry.record.ids && f.range.None?
              && (if f.ended then
                    IsLastEnded(Keyed(Entries(sources), IdsOf, id), f.entry, q)
                    && (forall e :: e in Entries(sources) && e.name == f.entry.name && id in e.record.ids ==>
                        !HoldsAt(e.record, q))
                  else HoldsAt(f.entry.record, q))
    ensures (f.entry in Entries(sources) && id in f.entry.record.ids && HoldsAt(f.entry.record, q)
             && f == Found(f.entry, false, None)) ==> f in Direct(sources, id, q)
  {
    var listing := Keyed(Entries(sources), IdsOf, id);
    HoldingIs(listing, q, f);
    EndedIs(NamesOf(sources), listing, q, f);
    LastEndedIs(listing, f.entry.name, q);
    forall e
      ensures e in listing <==> e in Entries(sources) && id in e.record.ids
    {
      KeyedIs(Entries(sources), IdsOf, id, e);
    }
  }

  /** A source that lists an identifier only in records that ended is not
      silent. */
  lemma EndedIsFound(sources: Sources, id: Id, q: Query, e: Entry)
    requires SourcesOk(sources) && e in Entries(sources) && id in e.record.ids && HasEnded(e.record, q)
    requires forall other :: other in Entries(sources) && other.name == e.name && id in other.record.ids ==>
             !HoldsAt(other.record, q)
    ensures exists f :: f in Direct(sources, id, q) && f.entry.name == e.name && f.ended
  {
    var listing := Keyed(Entries(sources), IdsOf, id);
    forall x
      ensures x in listing <==> x in Entries(sources) && id in x.record.ids
    {
      KeyedIs(Entries(sources), IdsOf, id, x);
    }
    LastEndedIs(listing, e.name, q);
    EntriesAre(sources);
    NamesAre(sources);
    var k :| 0 <= k < |sources| && sources[k].name == e.name;
    assert NamesOf(sources)[k] in NamesOf(sources);
    var f := Found(LastEnded(listing, e.name, q).value, true, None);
    EndedIs(NamesOf(sources), listing, q, f);
  }

  /** A record of one identifier that holds from one time to another. */
  function Between(id: Id, from: Option<int>, until: Option<int>): Record { Record(Asset, [id], [], None, from, until) }

  /** A source lists an identifier in a record that ended and in one that has not
      begun: the one that ended is found. */
  lemma EndedBesideOneToCome(id: Id, at: int)
    ensures var past, future := Between(id, None, Some(at)), Between(id, Some(at + 1), None);
            var sources := [Named("s", Source("1", [past, future]))];
            && !HasEnded(future, Query(None, at)) && !HoldsAt(future, Query(None, at))
            && Found(Entry("s", "1", 0, past), true, None) in Direct(sources, id, Query(None, at))
  {
    var past, future, q := Between(id, None, Some(at)), Between(id, Some(at + 1), None), Query(None, at);
    var named := Named("s", Source("1", [past, future]));
    var first, second := Entry("s", "1", 0, past), Entry("s", "1", 1, future);
    TwoEntries(named, first, second);
    assert first in Entries([named]);
    EndedIsFound([named], id, q, first);
    var f :| f in Direct([named], id, q) && f.entry.name == "s" && f.ended;
    DirectFinds([named], id, q, f);
    hide Direct, Entries;
    assert f.entry == first;
  }

  lemma TwoEntries(named: Named, first: Entry, second: Entry)
    requires |named.source.records| == 2
    requires first == Entry(named.name, named.source.version, 0, named.source.records[0])
    requires second == Entry(named.name, named.source.version, 1, named.source.records[1])
    ensures Entries([named]) == [first, second]
  {
    assert [named][1..] == [] && Entries([]) == [];
    assert EntriesOf(named, 2) == [] && EntriesOf(named, 1) == [second] && EntriesOf(named, 0) == [first, second];
  }

  lemma {:induction false} FoundByIs(listing: seq<Entry>, range: Range, q: Query, f: Found)
    ensures f in FoundBy(listing, range, q) <==>
            f == Found(f.entry, false, Some(range)) && f.entry in listing && HoldsAt(f.entry.record, q)
  {
    if listing != [] {
      FoundByIs(listing[..|listing| - 1], range, q, f);
      assert listing == listing[..|listing| - 1] + [listing[|listing| - 1]];
    }
  }

  /** A range that holds an address and is of a record that holds. */
  ghost predicate Describes(e: Entry, range: Range, address: Address, q: Query) {
    range in e.record.ranges && HoldsAt(e.record, q) && Addresses.Holds(range.network, range.length, address)
  }

  ghost predicate RangesOk(entries: seq<Entry>) {
    forall e, range :: e in entries && range in e.record.ranges ==> RangeOk(range)
  }

  lemma HoldsIsHoldingRange(range: Range, address: Address)
    requires RangeOk(range)
    ensures Addresses.Holds(range.network, range.length, address) <==>
            range.length <= Width(address) && range == HoldingRange(address, range.length)
  {
    if range.network.V4? == address.V4? {
      HoldsIsMasked(range.network, range.length, address);
    } else if range.length <= Width(address) {
      assert Masked(address, range.length).V4? == address.V4?;
    }
  }

  lemma FoundOfOneLength(entries: seq<Entry>, address: Address, q: Query, length: nat, f: Found)
    requires RangesOk(entries) && length <= Width(address)
    ensures f in FoundBy(Keyed(entries, RangesOf, HoldingRange(address, length)), HoldingRange(address, length), q) <==>
            f.entry in entries && !f.ended && f.range.Some? && f.range.value.length == length
            && Describes(f.entry, f.range.value, address, q)
  {
    var range := HoldingRange(address, length);
    FoundByIs(Keyed(entries, RangesOf, range), range, q, f);
    KeyedIs(entries, RangesOf, range, f.entry);
    if f.range.Some? && f.entry in entries && f.range.value in f.entry.record.ranges {
      HoldsIsHoldingRange(f.range.value, address);
    }
    if f.entry in entries && range in f.entry.record.ranges {
      HoldsIsHoldingRange(range, address);
    }
    hide Addresses.Holds, Masked, RangeOk, Width, Keyed, FoundBy;
  }

  /** The candidates are all the records that hold with a range that does. */
  lemma {:induction false} RangeCandidatesAre(entries: seq<Entry>, address: Address, q: Query, from: nat, f: Found)
    requires RangesOk(entries) && from <= Width(address)
    ensures f in RangeCandidates(entries, address, q, from) <==>
            f.entry in entries && !f.ended && f.range.Some? && f.range.value.length <= from
            && Describes(f.entry, f.range.value, address, q)
    decreases from
  {
    FoundOfOneLength(entries, address, q, from, f);
    if from > 0 { RangeCandidatesAre(entries, address, q, from - 1, f); }
    hide Describes, Keyed, FoundBy, HoldingRange;
  }

  ghost predicate AreEntriesInOrder(found: seq<Found>) {
    forall i, j :: 0 <= i < j < |found| ==> InListOrder(found[i].entry, found[j].entry)
  }

  ghost predicate AreInOrder(listing: seq<Entry>) {
    forall i, j :: 0 <= i < j < |listing| ==> InListOrder(listing[i], listing[j])
  }

  predicate InListOrder(a: Entry, b: Entry) { a == b || Before(a, b) }

  lemma {:induction false} FoundByKeepsOrder(listing: seq<Entry>, range: Range, q: Query)
    requires AreInOrder(listing)
    ensures var found := FoundBy(listing, range, q);
            AreEntriesInOrder(found)
  {
    hide Before;
    if listing != [] {
      var rest, last := listing[..|listing| - 1], listing[|listing| - 1];
      FoundByKeepsOrder(rest, range, q);
      var before := FoundBy(rest, range, q);
      forall i | 0 <= i < |before| ensures InListOrder(before[i].entry, last) {
        FoundByIs(rest, range, q, before[i]);
        assert before[i] in before;
        var k :| 0 <= k < |rest| && rest[k] == before[i].entry;
        assert listing[k] == rest[k];
      }
    }
  }

  lemma {:induction false} KeyedKeepsOrder<T>(entries: seq<Entry>, keys: Record -> seq<T>, x: T)
    requires forall i, j :: 0 <= i < j < |entries| ==> Before(entries[i], entries[j])
    ensures AreInOrder(Keyed(entries, keys, x))
  {
    hide Before;
    if entries != [] {
      var rest, last := entries[..|entries| - 1], entries[|entries| - 1];
      KeyedKeepsOrder(rest, keys, x);
      var before, more := Keyed(rest, keys, x), Repeat(last, Count(keys(last.record), x));
      forall i | 0 <= i < |before| ensures Before(before[i], last) {
        KeyedIs(rest, keys, x, before[i]);
        assert before[i] in before;
        var k :| 0 <= k < |rest| && rest[k] == before[i];
        assert entries[k] == rest[k];
      }
      forall i | 0 <= i < |more| ensures more[i] == last {
        RepeatIs(last, Count(keys(last.record), x), more[i]);
        assert more[i] in more;
      }
    }
  }

  /** Longer ranges come first, those of one length in the order of the records. */
  predicate RangeBefore(a: Found, b: Found) {
    a.range.Some? && b.range.Some?
    && (a.range.value.length > b.range.value.length
        || (a.range.value.length == b.range.value.length && InListOrder(a.entry, b.entry)))
  }

  ghost predicate AreRangesInOrder(found: seq<Found>) {
    forall i, j :: 0 <= i < j < |found| ==> RangeBefore(found[i], found[j])
  }

  ghost predicate LengthsAre(found: seq<Found>, length: nat) {
    forall i :: 0 <= i < |found| ==> found[i].range.Some? && found[i].range.value.length == length
  }

  ghost predicate LengthsBelow(found: seq<Found>, length: nat) {
    forall i :: 0 <= i < |found| ==> found[i].range.Some? && found[i].range.value.length < length
  }

  lemma LongerFirst(first: seq<Found>, rest: seq<Found>, length: nat)
    requires LengthsAre(first, length) && AreEntriesInOrder(first) && LengthsBelow(rest, length)
    requires AreRangesInOrder(rest)
    ensures AreRangesInOrder(first + rest)
  {
    hide InListOrder;
    var all := first + rest;
    forall i, j | 0 <= i < j < |all| ensures RangeBefore(all[i], all[j]) {
      if i >= |first| { assert all[i] == rest[i - |first|] && all[j] == rest[j - |first|]; }
      if i < |first| <= j { assert all[i] == first[i] && all[j] == rest[j - |first|]; }
    }
  }

  lemma OfOneLength(listing: seq<Entry>, range: Range, q: Query)
    ensures LengthsAre(FoundBy(listing, range, q), range.length)
  {
    var found := FoundBy(listing, range, q);
    forall i | 0 <= i < |found| ensures found[i].range.Some? && found[i].range.value.length == range.length {
      FoundByIs(listing, range, q, found[i]);
      assert found[i] in found;
    }
  }

  lemma OfLengthsUpTo(entries: seq<Entry>, address: Address, q: Query, from: nat)
    requires RangesOk(entries) && from <= Width(address)
    ensures LengthsBelow(RangeCandidates(entries, address, q, from), from + 1)
  {
    hide Describes, RangesOk;
    var found := RangeCandidates(entries, address, q, from);
    forall i | 0 <= i < |found| ensures found[i].range.Some? && found[i].range.value.length <= from {
      RangeCandidatesAre(entries, address, q, from, found[i]);
      assert found[i] in found;
    }
  }

  lemma {:induction false} RangeCandidatesInOrder(sources: Sources, address: Address, q: Query, from: nat)
    requires SourcesOk(sources) && from <= Width(address) && RangesOk(Entries(sources))
    ensures AreRangesInOrder(RangeCandidates(Entries(sources), address, q, from))
    decreases from
  {
    var entries, range := Entries(sources), HoldingRange(address, from);
    var listing := Keyed(entries, RangesOf, range);
    EntriesAre(sources);
    KeyedKeepsOrder(entries, RangesOf, range);
    FoundByKeepsOrder(listing, range, q);
    var first := FoundBy(listing, range, q);
    OfOneLength(listing, range, q);
    hide Before, Describes, SourcesOk, Entries, InListOrder, AreRangesInOrder, Keyed, FoundBy, LengthsAre,
         AreEntriesInOrder, RangesOk, Masked;
    if from > 0 {
      RangeCandidatesInOrder(sources, address, q, from - 1);
      var rest := RangeCandidates(entries, address, q, from - 1);
      OfLengthsUpTo(entries, address, q, from - 1);
      LongerFirst(first, rest, from);
    } else {
      NoneIsInOrder();
      LongerFirst(first, [], from);
      assert first + [] == first;
    }
  }

  lemma NoneIsInOrder()
    ensures AreRangesInOrder([]) && forall length :: LengthsBelow([], length)
  {
  }

  /** By range a lookup gives each source and kind a single record. It is there
      exactly when one of its ranges contains the address, and no record of the pair has
      a longer such prefix. */
  lemma NarrowestIsFound(sources: Sources, id: Id, reading: Reading, q: Query)
    requires SourcesOk(sources) && RangesOk(Entries(sources)) && id.kind == AddressId && reading.address(id.value).Some?
    ensures var address, found := reading.address(id.value).value, ByRange(sources, id, reading, q);
            && (forall f :: f in found ==> f.entry in Entries(sources) && !f.ended && f.range.Some?
                                           && Describes(f.entry, f.range.value, address, q))
            && (forall i, j :: 0 <= i < j < |found| ==> KeyOf(found[i]) != KeyOf(found[j]))
            && (forall e, range :: e in Entries(sources) && Describes(e, range, address, q) ==>
                  exists f :: f in found && KeyOf(f) == (e.name, e.record.kind)
                              && RangeBefore(f, Found(e, false, Some(range))))
  {
    var entries, address := Entries(sources), reading.address(id.value).value;
    var candidates := RangeCandidates(entries, address, q, Width(address));
    var found := FirstOf(candidates, {});
    FirstOfHasEachOnce(candidates, {});
    RangeCandidatesInOrder(sources, address, q, Width(address));
    hide Describes, RangesOk, SourcesOk, Entries, Before, InListOrder;
    forall f | f in found
      ensures f.entry in entries && !f.ended && f.range.Some? && Describes(f.entry, f.range.value, address, q)
    {
      FirstOfIs(candidates, {}, f);
      RangeCandidatesAre(entries, address, q, Width(address), f);
    }
    forall e, range | e in entries && Describes(e, range, address, q)
      ensures exists f ::
                f in found && KeyOf(f) == (e.name, e.record.kind)
                && RangeBefore(f, Found(e, false, Some(range)))
    {
      var c := Found(e, false, Some(range));
      IsDescribed(entries, e, range, address, q);
      RangeCandidatesAre(entries, address, q, Width(address), c);
      var k :| 0 <= k < |candidates| && candidates[k] == c;
      FirstBefore(candidates, k);
    }
  }

  lemma IsDescribed(entries: seq<Entry>, e: Entry, range: Range, address: Address, q: Query)
    requires RangesOk(entries) && e in entries && Describes(e, range, address, q)
    ensures range.length <= Width(address)
  {
  }

  lemma {:induction false} FirstBefore(candidates: seq<Found>, k: nat)
    requires k < |candidates| && AreRangesInOrder(candidates) && candidates[k].range.Some?
    ensures exists f ::
              f in FirstOf(candidates, {}) && KeyOf(f) == KeyOf(candidates[k])
              && RangeBefore(f, candidates[k])
  {
    if KeyOf(candidates[k]) in KeysOf(candidates[..k]) {
      var g :| g in candidates[..k] && KeyOf(g) == KeyOf(candidates[k]);
      var j :| 0 <= j < k && candidates[j] == g;
      assert RangeBefore(candidates[j], candidates[k]);
      FirstBefore(candidates, j);
      var f :| f in FirstOf(candidates, {}) && KeyOf(f) == KeyOf(candidates[j]) && RangeBefore(f, candidates[j]);
      RangesFollow(f, candidates[j], candidates[k]);
    } else {
      FirstOfIs(candidates, {}, candidates[k]);
      var i :| i == k;
      assert candidates[i] == candidates[k] && KeyOf(candidates[k]) !in KeysOf(candidates[..i]);
      assert candidates[k] in FirstOf(candidates, {});
      IsBeforeItself(candidates, k);
    }
  }

  lemma IsBeforeItself(candidates: seq<Found>, k: nat)
    requires k < |candidates| && candidates[k].range.Some?
    ensures RangeBefore(candidates[k], candidates[k])
  {
  }

  lemma RangesFollow(a: Found, b: Found, c: Found)
    requires RangeBefore(a, b) && RangeBefore(b, c)
    ensures RangeBefore(a, c)
  {
    StringOrder();
  }

  lemma {:induction false} FirstOfInTwo(a: seq<Found>, b: seq<Found>, taken: set<(string, Kind)>)
    ensures FirstOf(a + b, taken) == FirstOf(a, taken) + FirstOf(b, taken + KeysOf(a))
  {
    if b == [] {
      assert a + b == a;
    } else {
      var rest, last := b[..|b| - 1], b[|b| - 1];
      FirstOfInTwo(a, rest, taken);
      assert (a + b)[..|a + b| - 1] == a + rest && (a + b)[|a + b| - 1] == last;
      assert KeysOf(a + rest) == KeysOf(a) + KeysOf(rest);
      hide KeysOf, KeyOf;
    }
  }

  lemma {:induction false} ListsAre(listing: seq<Entry>, q: Query, f: Found)
    ensures f in ListsOf(listing, q) <==>
            f == Found(f.entry, false, None) && f.entry in listing && f.entry.record.kind == List
                && HoldsAt(f.entry.record, q)
  {
    if listing != [] {
      ListsAre(listing[..|listing| - 1], q, f);
      assert listing == listing[..|listing| - 1] + [listing[|listing| - 1]];
    }
  }

  /** A row of a list that holds and names the domain. */
  ghost predicate ListsDomain(e: Entry, domain: Id, q: Query) {
    e.record.kind == List && HoldsAt(e.record, q) && domain in e.record.ids
  }

  ghost predicate ListsAny(e: Entry, domains: seq<Id>, q: Query) {
    exists k :: 0 <= k < |domains| && ListsDomain(e, domains[k], q)
  }

  lemma {:induction false} DomainCandidatesAre(entries: seq<Entry>, parents: seq<Id>, q: Query, f: Found)
    ensures f in DomainCandidates(entries, parents, q) <==>
            f == Found(f.entry, false, None) && f.entry in entries && ListsAny(f.entry, parents, q)
  {
    if parents != [] {
      var rest, last := parents[..|parents| - 1], parents[|parents| - 1];
      DomainCandidatesAre(entries, rest, q, f);
      ListsAre(Keyed(entries, IdsOf, last), q, f);
      KeyedIs(entries, IdsOf, last, f.entry);
      LevelsInTwo(f.entry, parents, q);
      hide HoldsAt, Keyed, ListsOf;
      assert ListsDomain(f.entry, last, q) <==>
        f.entry.record.kind == List && HoldsAt(f.entry.record, q) && last in f.entry.record.ids;
    }
  }

  lemma LevelsInTwo(e: Entry, parents: seq<Id>, q: Query)
    requires parents != []
    ensures ListsAny(e, parents, q) <==>
            ListsDomain(e, parents[|parents| - 1], q) || ListsAny(e, parents[..|parents| - 1], q)
  {
    hide ListsDomain;
    var rest := parents[..|parents| - 1];
    if k :| 0 <= k < |parents| && ListsDomain(e, parents[k], q) {
      if k < |rest| { assert ListsDomain(e, rest[k], q); }
    }
    if k :| 0 <= k < |rest| && ListsDomain(e, rest[k], q) { assert ListsDomain(e, parents[k], q); }
  }

  /** `f` is a row of the nearest domain that its source lists. */
  ghost predicate IsNearest(entries: seq<Entry>, parents: seq<Id>, q: Query, f: Found) {
    exists k :: 0 <= k < |parents| && ListsDomain(f.entry, parents[k], q)
                && forall m, e :: 0 <= m < k && e in entries && e.name == f.entry.name ==>
                    !ListsDomain(e, parents[m], q)
  }

  lemma NearestStays(entries: seq<Entry>, parents: seq<Id>, n: nat, q: Query, f: Found)
    requires n <= |parents| && IsNearest(entries, parents[..n], q, f)
    ensures IsNearest(entries, parents, q, f)
  {
    hide ListsDomain;
    var rest := parents[..n];
    var k :| 0 <= k < |rest| && ListsDomain(f.entry, rest[k], q)
             && forall m, e :: 0 <= m < k && e in entries && e.name == f.entry.name ==> !ListsDomain(e, rest[m], q);
    assert rest[k] == parents[k] && forall m :: 0 <= m < k ==> rest[m] == parents[m];
  }

  lemma {:induction false} FirstIsNearest(
      entries: seq<Entry>, parents: seq<Id>, q: Query, taken: set<(string, Kind)>, f: Found)
    requires f in FirstOf(DomainCandidates(entries, parents, q), taken)
    ensures f.entry in entries && IsNearest(entries, parents, q, f)
  {
    hide HoldsAt, ListsDomain;
    if parents != [] {
      var rest, last := parents[..|parents| - 1], parents[|parents| - 1];
      var before, more := DomainCandidates(entries, rest, q), ListsOf(Keyed(entries, IdsOf, last), q);
      FirstOfInTwo(before, more, taken);
      if f in FirstOf(before, taken) {
        FirstIsNearest(entries, rest, q, taken, f);
        hide FirstOf, DomainCandidates, ListsOf, Keyed;
        NearestStays(entries, parents, |parents| - 1, q, f);
      } else {
        LastIsNearest(entries, parents, q, taken, f);
      }
    }
  }

  lemma FirstOfIsOne(candidates: seq<Found>, taken: set<(string, Kind)>, f: Found)
    requires f in FirstOf(candidates, taken)
    ensures f in candidates && KeyOf(f) !in taken
  {
    FirstOfIs(candidates, taken, f);
  }

  lemma LastIsNearest(entries: seq<Entry>, parents: seq<Id>, q: Query, taken: set<(string, Kind)>, f: Found)
    requires parents != []
    requires var rest, last := parents[..|parents| - 1], parents[|parents| - 1];
             f in FirstOf(ListsOf(Keyed(entries, IdsOf, last), q), taken + KeysOf(DomainCandidates(entries, rest, q)))
    ensures f.entry in entries && IsNearest(entries, parents, q, f)
  {
    hide HoldsAt;
    var rest, last := parents[..|parents| - 1], parents[|parents| - 1];
    var before, more := DomainCandidates(entries, rest, q), ListsOf(Keyed(entries, IdsOf, last), q);
    FirstOfIsOne(more, taken + KeysOf(before), f);
    ListsAre(Keyed(entries, IdsOf, last), q, f);
    KeyedIs(entries, IdsOf, last, f.entry);
    hide Keyed, ListsOf, FirstOf;
    forall m, e | 0 <= m < |rest| && e in entries && e.name == f.entry.name ensures !ListsDomain(e, parents[m], q) {
      var other := Found(e, false, None);
      DomainCandidatesAre(entries, rest, q, other);
      assert rest[m] == parents[m];
      assert other in before ==> KeyOf(other) in KeysOf(before);
      assert ListsDomain(e, rest[m], q) ==> KeyOf(other) == KeyOf(f);
    }
    assert parents[|rest|] == last && ListsDomain(f.entry, parents[|rest|], q);
  }

  /** What a lookup of a host finds by the domains it is under: of each source
      that lists one, and has not been found as a list, one row of the nearest. */
  lemma NearestDomainIsFound(sources: Sources, id: Id, reading: Reading, q: Query, taken: set<(string, Kind)>)
    requires id.kind == Host
    ensures var entries, parents := Entries(sources), Parents(id.value, reading.host);
            var found := ByDomain(sources, id, reading, q, taken);
            && (forall f :: f in found ==> f == Found(f.entry, false, None) && f.entry in entries
                                           && KeyOf(f) !in taken && IsNearest(entries, parents, q, f))
            && (forall i, j :: 0 <= i < j < |found| ==> KeyOf(found[i]) != KeyOf(found[j]))
            && (forall e, k ::
                e in entries && 0 <= k < |parents| && ListsDomain(e, parents[k], q) && (e.name, List) !in taken ==>
                  exists f :: f in found && KeyOf(f) == (e.name, List))
  {
    var entries, parents := Entries(sources), Parents(id.value, reading.host);
    var candidates := DomainCandidates(entries, parents, q);
    var found := FirstOf(candidates, taken);
    FirstOfHasEachOnce(candidates, taken);
    hide Parents, HoldsAt, IsNearest, FirstOf;
    forall f | f in found
      ensures f == Found(f.entry, false, None) && f.entry in entries && KeyOf(f) !in taken
              && IsNearest(entries, parents, q, f)
    {
      FirstOfIs(candidates, taken, f);
      FirstIsNearest(entries, parents, q, taken, f);
      DomainCandidatesAre(entries, parents, q, f);
    }
    forall e, k | e in entries && 0 <= k < |parents| && ListsDomain(e, parents[k], q) && (e.name, List) !in taken
      ensures exists f :: f in found && KeyOf(f) == (e.name, List)
    {
      var c := Found(e, false, None);
      DomainCandidatesAre(entries, parents, q, c);
      assert KeyOf(c) in KeysOf(candidates);
      assert KeyOf(c) in KeysOf(found);
    }
  }
}
