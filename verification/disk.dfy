/** The store on disk: its fields, updated in place, each update one step of
    the store's machine. */
module DiskStores {
  import opened Codec
  import opened Keys
  import opened Feeds
  import opened Filters
  import opened StoreSteps
  import opened StoreSafety

  /** How much of an input one batch holds. */
  const CHUNK := 10_000

  datatype Counts = Counts(indicators: nat, added: nat)

  /** The part of a replacement whose reading or writing fails. */
  datatype Part = Generation | MakingRoom | ReadChunk(at: nat) | WriteChunk(at: nat) | Publication | Tidying

  datatype Error = NameRefused | Failed(part: Part)

  /** Bytes of a key hold no NUL and tell keys apart. */
  ghost predicate SettingOk(e: Setting) {
    && (forall key :: KeyOk(key) ==> NoNul(e.bytes(key)))
    && (forall a, b :: KeyOk(a) && KeyOk(b) && e.bytes(a) == e.bytes(b) ==> a == b)
  }

  function EntryBytes(e: Setting, id: EntryId): Bytes { EntryKey(e.bytes(id.key), id.feed, id.generation) }

  // ------------------------------------------------------- carrying a chunk

  /** A chunk with the earlier times of what the feed asserted before. */
  ghost predicate IsDated(before: map<Key, Entry>, chunk: Input, dated: Input) {
    && |dated| == |chunk|
    && forall i :: 0 <= i < |chunk| ==> dated[i] == (chunk[i].0, Carried(before, chunk[i].0, chunk[i].1))
  }

  lemma NoneWereHeld(before: map<Key, Entry>, input: Input)
    requires forall i :: 0 <= i < |input| ==> input[i].0 !in before
    ensures AddedCount(before, input) == |input|
  {
  }

  lemma OneMore(before: map<Key, Entry>, input: Input, i: nat)
    requires i < |input|
    ensures input[..i + 1][..i] == input[..i]
    ensures AddedCount(before, input[..i + 1]) == AddedCount(before, input[..i]) + if input[i].0 in before then 0 else 1
    ensures Replaced(before, input[..i + 1]) ==
            Replaced(before, input[..i])[input[i].0 := Carried(before, input[i].0, input[i].1)]
  {
    assert input[..i + 1][..i] == input[..i];
  }

  /** The indexes of the keys the filter may hold. */
  method MayBeHeld(e: Setting, filter: Filter, chunk: Input) returns (held: seq<nat>)
    ensures forall i, j :: 0 <= i < j < |held| ==> held[i] < held[j]
    ensures forall i: nat :: i in held <==> i < |chunk| && MayContain(e.hashing, filter, e.bytes(chunk[i].0))
  {
    hide MayContain;
    held := [];
    for i := 0 to |chunk|
      invariant forall a, b :: 0 <= a < b < |held| ==> held[a] < held[b]
      invariant forall k: nat :: k in held <==> k < i && MayContain(e.hashing, filter, e.bytes(chunk[k].0))
    {
      assert forall a :: 0 <= a < |held| ==> held[a] in held;
      if MayContain(e.hashing, filter, e.bytes(chunk[i].0)) { held := held + [i]; }
    }
  }

  /** Reads the earlier entries of a chunk, those alone that the filter may
      hold, and returns the chunk dated and how many were not held. */
  method DateChunk(
      e: Setting, filter: Filter, view: Entries, feed: Name, generation: nat, chunk: Input,
      ghost before: map<Key, Entry>)
    returns (dated: Input, added: nat)
    requires before == ContentOf(view, feed, generation)
    requires forall key :: key in before ==> MayContain(e.hashing, filter, e.bytes(key))
    ensures IsDated(before, chunk, dated) && added == AddedCount(before, chunk)
  {
    hide MayContain, ContentOf, FoundIn, AddedCount, Carried, IsDatedAt;
    var held := MayBeHeld(e, filter, chunk);
    dated := chunk;
    var found: nat := 0;
    NoneDated(before, chunk);
    assert held[..0] == [];
    for n := 0 to |held|
      invariant found <= n && found == FoundIn(before, chunk, held[..n])
      invariant |dated| == |chunk| && IsDatedAt(before, chunk, held[..n], dated)
    {
      var i := held[n];
      assert i in held;
      OneDatedMore(before, chunk, held, n, dated);
      var id := EntryId(chunk[i].0, feed, generation);
      ContentIs(view, feed, generation, chunk[i].0);
      if id in view {
        dated := dated[i := (chunk[i].0, WithAdded(chunk[i].1, view[id]))];
        found := found + 1;
      }
    }
    assert held[..|held|] == held;
    AllDated(e, filter, before, chunk, held, dated);
    added := |chunk| - found;
  }

  /** Of a chunk, those at some indexes are dated. */
  ghost predicate IsDatedAt(before: map<Key, Entry>, chunk: Input, indexes: seq<nat>, dated: Input) {
    && |dated| == |chunk|
    && forall i: nat :: i < |chunk| ==>
         dated[i] == (chunk[i].0, if i in indexes then Carried(before, chunk[i].0, chunk[i].1) else chunk[i].1)
  }

  lemma NoneDated(before: map<Key, Entry>, chunk: Input)
    ensures IsDatedAt(before, chunk, [], chunk) && FoundIn(before, chunk, []) == 0
  {
  }

  lemma OneDatedMore(before: map<Key, Entry>, chunk: Input, held: seq<nat>, n: nat, dated: Input)
    requires n < |held| && held[n] < |chunk| && IsDatedAt(before, chunk, held[..n], dated)
    requires forall i, j :: 0 <= i < j < |held| ==> held[i] < held[j]
    ensures var i, key := held[n], chunk[held[n]].0;
            && FoundIn(before, chunk, held[..n + 1])
                == FoundIn(before, chunk, held[..n]) + (if key in before then 1 else 0)
            && (key in before ==>
                  IsDatedAt(before, chunk, held[..n + 1], dated[i := (key, WithAdded(chunk[i].1, before[key]))]))
            && (key !in before ==> IsDatedAt(before, chunk, held[..n + 1], dated))
  {
    hide WithAdded;
    assert held[..n + 1] == held[..n] + [held[n]];
    assert held[..n + 1][..n] == held[..n];
  }

  lemma AllDated(e: Setting, filter: Filter, before: map<Key, Entry>, chunk: Input, held: seq<nat>, dated: Input)
    requires forall key :: key in before ==> MayContain(e.hashing, filter, e.bytes(key))
    requires forall i, j :: 0 <= i < j < |held| ==> held[i] < held[j]
    requires forall i: nat :: i in held <==> i < |chunk| && MayContain(e.hashing, filter, e.bytes(chunk[i].0))
    requires IsDatedAt(before, chunk, held, dated)
    ensures IsDated(before, chunk, dated)
    ensures FoundIn(before, chunk, held) + AddedCount(before, chunk) == |chunk|
  {
    hide MayContain;
    assert forall a :: 0 <= a < |held| ==> held[a] in held;
    FoundAreTheRest(before, chunk, held, |chunk|);
    assert chunk[..|chunk|] == chunk;
  }

  ghost function FoundIn(before: map<Key, Entry>, chunk: Input, indexes: seq<nat>): nat {
    if indexes == [] then 0
    else
      var i := indexes[|indexes| - 1];
      FoundIn(before, chunk, indexes[..|indexes| - 1]) + if i < |chunk| && chunk[i].0 in before then 1 else 0
  }

  lemma NoneAdded(before: map<Key, Entry>, chunk: Input)
    ensures AddedCount(before, chunk[..0]) == 0
  {
  }

  /** Those found are all that the feed asserted before: the rest are new. */
  lemma {:induction false} FoundAreTheRest(before: map<Key, Entry>, chunk: Input, indexes: seq<nat>, n: nat)
    requires n <= |chunk|
    requires forall a, b :: 0 <= a < b < |indexes| ==> indexes[a] < indexes[b]
    requires forall a :: 0 <= a < |indexes| ==> indexes[a] < n
    requires forall i: nat :: i < n && chunk[i].0 in before ==> i in indexes
    ensures FoundIn(before, chunk, indexes) + AddedCount(before, chunk[..n]) == n
  {
    hide AddedCount;
    NoneAdded(before, chunk);
    if n > 0 {
      OneMore(before, chunk, n - 1);
      var k := |indexes| - 1;
      if k >= 0 && indexes[k] == n - 1 {
        assert indexes == indexes[..k] + [n - 1];
        FoundAreTheRest(before, chunk, indexes[..k], n - 1);
      } else {
        FoundAreTheRest(before, chunk, indexes, n - 1);
      }
    }
  }

  /** The batch of a dated chunk, as it will read back, and the filter with its
      keys. */
  method Gather(
      e: Setting, filter: Filter, feed: Name, generation: nat, chunk: Input, dated: Input,
      ghost before: map<Key, Entry>)
    returns (batch: Entries, grown: Filter)
    requires IsDated(before, chunk, dated)
    ensures batch == EntriesOf(feed, generation, Replaced(before, StoredInput(chunk)))
    ensures grown == AddAll(e.hashing, filter, BytesOf(e, KeysOf(chunk)))
  {
    hide Add, AddAll, Replaced, EntriesOf, Carried, AsStored;
    ghost var stored := StoredInput(chunk);
    batch, grown := map[], filter;
    ghost var bytes := BytesOf(e, KeysOf(chunk));
    NothingGathered(e, filter, feed, generation, before);
    assert stored[..0] == [] && bytes[..0] == [];
    for i := 0 to |dated|
      invariant batch == EntriesOf(feed, generation, Replaced(before, stored[..i]))
      invariant grown == AddAll(e.hashing, filter, bytes[..i])
    {
      var (key, entry) := dated[i];
      OneMore(before, stored, i);
      StoredIsCarried(before, key, chunk[i].1);
      OneEntryMore(feed, generation, Replaced(before, stored[..i]), key, AsStored(entry));
      OneKeyMore(e, filter, chunk, i);
      grown := Add(e.hashing, grown, e.bytes(key));
      batch := batch[EntryId(key, feed, generation) := AsStored(entry)];
    }
    assert stored[..|stored|] == stored && bytes[..|chunk|] == bytes;
  }

  lemma OneKeyMore(e: Setting, filter: Filter, chunk: Input, i: nat)
    requires i < |chunk|
    ensures var bytes := BytesOf(e, KeysOf(chunk));
            AddAll(e.hashing, filter, bytes[..i + 1])
                == Add(e.hashing, AddAll(e.hashing, filter, bytes[..i]), e.bytes(chunk[i].0))
  {
    var bytes := BytesOf(e, KeysOf(chunk));
    assert bytes[..i + 1][..i] == bytes[..i];
  }

  lemma NothingGathered(e: Setting, filter: Filter, feed: Name, generation: nat, before: map<Key, Entry>)
    ensures EntriesOf(feed, generation, Replaced(before, [])) == map[]
    ensures AddAll(e.hashing, filter, []) == filter
  {
  }

  lemma OneEntryMore(feed: Name, generation: nat, content: map<Key, Entry>, key: Key, entry: Entry)
    ensures EntriesOf(feed, generation, content[key := entry])
            == EntriesOf(feed, generation, content)[EntryId(key, feed, generation) := entry]
  {
    hide EntriesOf;
    var more := EntriesOf(feed, generation, content[key := entry]);
    var one := EntriesOf(feed, generation, content)[EntryId(key, feed, generation) := entry];
    forall id ensures id in more <==> id in one ensures id in more ==> more[id] == one[id] {
      EntriesOfHas(feed, generation, content[key := entry], id);
      EntriesOfHas(feed, generation, content, id);
    }
    assert more.Keys == one.Keys;
  }

  // -------------------------------------------------------------- iterating

  /** The database's iterator: the entries whose key is in a range of bytes, in
      the order of their keys. */
  method Scan(e: Setting, entries: Entries, indicator: Bytes) returns (ids: seq<EntryId>)
    ensures forall id :: id in ids <==> id in entries && InScan(indicator, EntryBytes(e, id))
    ensures forall i, j :: 0 <= i < j < |ids| ==>
            BytesLe(EntryBytes(e, ids[i]), EntryBytes(e, ids[j])) && ids[i] != ids[j]
  {
    var left := set id | id in entries && InScan(indicator, EntryBytes(e, id));
    ids := [];
    while left != {}
      invariant forall id :: id in entries && InScan(indicator, EntryBytes(e, id)) <==> id in ids || id in left
      invariant forall id :: id in left ==> id !in ids
      invariant forall i, j :: 0 <= i < j < |ids| ==>
                BytesLe(EntryBytes(e, ids[i]), EntryBytes(e, ids[j])) && ids[i] != ids[j]
      decreases left
    {
      var id :| id in left;
      ids, left := Place(e, ids, id), left - {id};
    }
  }

  /** `id` put where its key belongs. */
  function Place(e: Setting, ids: seq<EntryId>, id: EntryId): (r: seq<EntryId>)
    requires id !in ids
    requires forall i, j :: 0 <= i < j < |ids| ==>
             BytesLe(EntryBytes(e, ids[i]), EntryBytes(e, ids[j])) && ids[i] != ids[j]
    ensures forall other :: other in r <==> other in ids || other == id
    ensures forall i, j :: 0 <= i < j < |r| ==> BytesLe(EntryBytes(e, r[i]), EntryBytes(e, r[j])) && r[i] != r[j]
  {
    BytesOrder();
    if ids == [] || BytesLe(EntryBytes(e, id), EntryBytes(e, ids[0])) then
      [id] + ids
    else
      assert ids == [ids[0]] + ids[1..];
      var rest := Place(e, ids[1..], id);
      assert forall j :: 0 <= j < |rest| ==> rest[j] in rest;
      [ids[0]] + rest
  }

  /** The iterator over all entries. */
  method ScanAll(entries: Entries) returns (ids: seq<EntryId>)
    ensures forall id :: id in ids <==> id in entries
    ensures forall i, j :: 0 <= i < j < |ids| ==> ids[i] != ids[j]
  {
    var left := entries.Keys;
    ids := [];
    while left != {}
      invariant forall id :: id in entries <==> id in ids || id in left
      invariant forall id :: id in left ==> id !in ids
      invariant forall i, j :: 0 <= i < j < |ids| ==> ids[i] != ids[j]
      decreases left
    {
      var id :| id in left;
      ids, left := ids + [id], left - {id};
    }
  }
}
