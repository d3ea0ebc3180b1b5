/** What each step of the store keeps, and what readers see over whole runs. */
module StoreRuns {
  import opened Base
  import opened Keys
  import opened Feeds
  import opened Filters
  import opened StoreSteps
  import opened StoreSafety

  // ------------------------------------------------ each step keeps the invariant

  lemma EmptyIsOk(e: Setting)
    ensures Inv(e, EMPTY) && Holding(EMPTY) == map[]
  {
  }

  lemma NothingOfAGeneration(entries: Entries, feed: Name, generation: nat)
    requires forall id :: id in entries ==> id.generation != generation
    ensures ContentOf(entries, feed, generation) == map[]
  {
    var content := ContentOf(entries, feed, generation);
    forall key ensures key !in content { ContentIs(entries, feed, generation, key); }
    assert content.Keys == {};
  }

  /** Making the unsynced durable changes nothing current. */
  lemma MadeDurable(e: Setting, s: State, f: Name, generation: nat)
    requires UnsyncedOk(s)
    requires (f in s.feeds && s.feeds[f].generation == generation)
             || (f in s.durable.feeds && s.durable.feeds[f].generation == generation)
    ensures ContentOf(View(s), f, generation) == ContentOf(s.durable.entries, f, generation)
  {
    forall key
      ensures EntryId(key, f, generation) in View(s) <==> EntryId(key, f, generation) in s.durable.entries
      ensures EntryId(key, f, generation) in View(s) ==>
              View(s)[EntryId(key, f, generation)] == s.durable.entries[EntryId(key, f, generation)]
    {
      CurrentIsDurable(e, s, EntryId(key, f, generation));
    }
    SameContent(View(s), s.durable.entries, f, generation);
  }

  lemma BeginKeeps(e: Setting, s: State, feed: Name, version: string, input: Input)
    requires Inv(e, s) && Enabled(s, Begin(feed, version, input))
    ensures Inv(e, Do(e, s, Begin(feed, version, input)))
    ensures Holding(Do(e, s, Begin(feed, version, input))) == Holding(s)
  {
    hide ContentOf, MayContain, Covers;
    var t := Do(e, s, Begin(feed, version, input));
    ViewIdsOk(e, s);
    forall id | IsCurrent(s.feeds, id)
      ensures id in View(s) <==> id in s.durable.entries
    {
      CurrentIsDurable(e, s, id);
    }
    assert View(t) == View(s);
    NothingOfAGeneration(View(t), feed, t.durable.generation);
    assert input[..0] == [];
    forall f | f in s.feeds
      ensures ContentOf(View(s), f, s.feeds[f].generation) == ContentOf(s.durable.entries, f, s.feeds[f].generation)
    {
      MadeDurable(e, s, f, s.feeds[f].generation);
    }
  }

  lemma BuiltIsReachable(
      e: Setting, entries: Entries, feeds: map<Name, Current>, order: seq<EntryId>, room: nat, id: EntryId)
    requires ReadsCurrent(entries, feeds, order) && id in entries && IsCurrent(feeds, id)
    requires forall other :: other in entries ==> KeyOk(other.key)
    ensures MayContain(e.hashing, BuiltFilter(e, order, room), e.bytes(id.key)) && Covers(BuiltLengths(order), id.key)
  {
    hide MayContain, Covers, AddAll, AddLengths;
    var keys := KeysRead(order);
    var bytes := BytesOf(e, keys);
    assert id in order;
    var i :| 0 <= i < |order| && order[i] == id;
    assert bytes[i] in bytes && keys[i] in keys;
    AllAreKept(e.hashing, EmptyFilter(room), bytes);
    forall key | key in keys ensures KeyOk(key) {
      var k :| 0 <= k < |keys| && keys[k] == key;
      assert order[k] in order;
    }
    AllAreCovered(NO_LENGTHS, keys);
  }

  lemma RebuildKeeps(e: Setting, s: State, order: seq<EntryId>, room: nat)
    requires Inv(e, s) && Enabled(s, Rebuild(order, room))
    ensures Inv(e, Do(e, s, Rebuild(order, room)))
    ensures Holding(Do(e, s, Rebuild(order, room))) == Holding(s)
  {
    hide MayContain, Covers, ContentOf, BuiltFilter, BuiltLengths;
    var t := Do(e, s, Rebuild(order, room));
    ViewIdsOk(e, s);
    assert View(t) == View(s);
    forall id | id in s.durable.entries && IsCurrent(s.feeds, id) ensures Reachable(e, t, id.key) {
      CurrentIsDurable(e, s, id);
      BuiltIsReachable(e, View(s), s.feeds, order, room, id);
    }
    if s.job.Some? {
      var j := s.job.value;
      assert j.input[..0] == [];
      forall id | id in View(s) && id.generation == j.generation ensures false {
        ContentIs(View(s), j.feed, j.generation, id.key);
      }
    }
  }

  lemma InputIsOk(input: Input)
    requires InputOk(input)
    ensures forall key :: key in KeysOf(input) ==> KeyOk(key)
  {
  }

  lemma AddedIsReachable(e: Setting, s: State, keys: seq<Key>, key: Key)
    requires forall k :: k in keys ==> KeyOk(k)
    ensures key in keys ==> MayContain(e.hashing, AddAll(e.hashing, s.filter, BytesOf(e, keys)), e.bytes(key))
    ensures MayContain(e.hashing, s.filter, e.bytes(key)) ==>
              MayContain(e.hashing, AddAll(e.hashing, s.filter, BytesOf(e, keys)), e.bytes(key))
  {
    hide MayContain, AddAll;
    var bytes := BytesOf(e, keys);
    AllAreKept(e.hashing, s.filter, bytes);
    if key in keys {
      var i :| 0 <= i < |keys| && keys[i] == key;
      assert bytes[i] in bytes;
    }
  }

  lemma ReplacedHasOnlyKeys(before: map<Key, Entry>, input: Input, key: Key)
    ensures key in Replaced(before, input) <==> key in KeysOf(input)
  {
    ReplacedHoldsKeys(before, input, key);
    var keys := KeysOf(input);
    if i :| 0 <= i < |input| && input[i].0 == key { assert keys[i] in keys; }
  }

  /** What a chunk writes. */
  lemma ChunkView(e: Setting, s: State, n: nat, id: EntryId)
    requires Enabled(s, Chunk(n))
    ensures var t := Do(e, s, Chunk(n)); var j := s.job.value;
            && (id in View(t) <==>
                id in View(s) || (id.feed == j.feed && id.generation == j.generation && id.key in KeysOf(Next(j, n))))
            && (id in View(t) && id.generation != j.generation ==> View(t)[id] == View(s)[id])
  {
    var t, j := Do(e, s, Chunk(n)), s.job.value;
    var content := Replaced(Before(s, j), Next(j, n));
    assert t.unsynced[..|t.unsynced| - 1] == s.unsynced;
    assert View(t) == View(s) + EntriesOf(j.feed, j.generation, content);
    EntriesOfHas(j.feed, j.generation, content, id);
    ReplacedHasOnlyKeys(Before(s, j), Next(j, n), id.key);
  }

  lemma ChunkUnsynced(e: Setting, s: State, n: nat)
    requires Inv(e, s) && Enabled(s, Chunk(n))
    ensures UnsyncedOk(Do(e, s, Chunk(n)))
  {
    hide MayContain, Covers, ContentOf, Replaced, View, Before, EntriesOf;
    var t, j := Do(e, s, Chunk(n)), s.job.value;
    var batch := EntriesOf(j.feed, j.generation, Replaced(Before(s, j), Next(j, n)));
    forall id: EntryId | id in batch
      ensures id.generation == j.generation && id.feed == j.feed && KeyOk(id.key)
    {
      EntriesOfHas(j.feed, j.generation, Replaced(Before(s, j), Next(j, n)), id);
      ReplacedHasOnlyKeys(Before(s, j), Next(j, n), id.key);
      InputIsOk(Next(j, n));
    }
    assert t.unsynced == s.unsynced + [batch];
    OneBatchMore(s, batch, j);
  }

  lemma OneBatchMore(s: State, batch: Entries, j: Job)
    requires UnsyncedOk(s) && s.job == Some(j) && !j.published && NameOk(j.feed)
    requires j.generation == s.durable.generation && forall f :: f in s.feeds ==> s.feeds[f].generation < j.generation
    requires forall f :: f in s.durable.feeds ==> s.durable.feeds[f].generation < j.generation
    requires forall id :: id in batch ==> id.generation == j.generation && id.feed == j.feed && KeyOk(id.key)
    ensures UnsyncedOk(s.(unsynced := s.unsynced + [batch]))
  {
    var after := s.unsynced + [batch];
    forall b, id: EntryId | 0 <= b < |after| && id in after[b]
      ensures id.generation <= s.durable.generation && IdOk(id) && !IsCurrent(s.durable.feeds, id)
              && !IsCurrent(s.feeds, id)
    {
      if b < |s.unsynced| { assert after[b] == s.unsynced[b]; }
    }
  }

  lemma ChunkContent(e: Setting, s: State, n: nat)
    requires Inv(e, s) && Enabled(s, Chunk(n))
    ensures var t := Do(e, s, Chunk(n)); var j := t.job.value;
            ContentOf(View(t), j.feed, j.generation) == Replaced(Before(t, j), j.input[..j.done])
  {
    hide MayContain, Covers, ContentOf, Replaced, EntriesOf;
    var t, j := Do(e, s, Chunk(n)), s.job.value;
    var content := Replaced(Before(s, j), Next(j, n));
    assert t.unsynced[..|t.unsynced| - 1] == s.unsynced;
    assert View(t) == View(s) + EntriesOf(j.feed, j.generation, content);
    BatchContent(View(s), j.feed, j.generation, content, j.feed, j.generation);
    if j.feed in s.feeds {
      BatchContent(View(s), j.feed, j.generation, content, j.feed, s.feeds[j.feed].generation);
    }
    assert Before(t, t.job.value) == Before(s, j);
    ReplacedInTwo(Before(s, j), j.input[..j.done], Next(j, n));
    assert j.input[..j.done] + Next(j, n) == j.input[..j.done + n];
  }

  lemma ChunkEntriesAreReachable(e: Setting, s: State, n: nat, id: EntryId)
    requires Inv(e, s) && Enabled(s, Chunk(n))
    ensures var t := Do(e, s, Chunk(n));
            id in View(t) && id.generation == t.durable.generation ==>
              id.feed == t.job.value.feed && MayContain(e.hashing, t.filter, e.bytes(id.key))
                  && Covers(t.job.value.lengths, id.key)
  {
    hide MayContain, Covers, ContentOf, Replaced, AddAll, AddLengths, View, CurrentReachable, UnsyncedOk, IdsOk;
    var t, j := Do(e, s, Chunk(n)), s.job.value;
    var keys := KeysOf(Next(j, n));
    InputIsOk(Next(j, n));
    AllAreCovered(j.lengths, keys);
    ChunkView(e, s, n, id);
    AddedIsReachable(e, s, keys, id.key);
  }

  /** What is current stays reachable while keys are added to the filter. */
  lemma CurrentStaysReachable(e: Setting, s: State, t: State, keys: seq<Key>)
    requires CurrentReachable(e, s) && forall k :: k in keys ==> KeyOk(k)
    requires t.durable == s.durable && t.feeds == s.feeds && t.lengths == s.lengths
    requires t.filter == AddAll(e.hashing, s.filter, BytesOf(e, keys))
    ensures CurrentReachable(e, t)
  {
    hide MayContain, Covers, AddAll;
    forall id | id in t.durable.entries && IsCurrent(t.feeds, id) ensures Reachable(e, t, id.key) {
      assert Reachable(e, s, id.key);
      AddedIsReachable(e, s, keys, id.key);
    }
  }

  lemma ChunkKeeps(e: Setting, s: State, n: nat)
    requires Inv(e, s) && Enabled(s, Chunk(n))
    ensures Inv(e, Do(e, s, Chunk(n)))
    ensures Holding(Do(e, s, Chunk(n))) == Holding(s)
  {
    hide MayContain, Covers, ContentOf, Replaced, AddAll, AddLengths, View, UnsyncedOk, IdsOk, CurrentReachable,
         GenerationsBelow, EntriesOf;
    var t, j := Do(e, s, Chunk(n)), s.job.value;
    ChunkUnsynced(e, s, n);
    ChunkContent(e, s, n);
    InputIsOk(Next(j, n));
    AllAreCovered(j.lengths, KeysOf(Next(j, n)));
    CurrentStaysReachable(e, s, t, KeysOf(Next(j, n)));
    forall id | id in View(t) && id.generation == j.generation
      ensures id.feed == j.feed && MayContain(e.hashing, t.filter, e.bytes(id.key))
              && Covers(t.job.value.lengths, id.key)
    {
      ChunkEntriesAreReachable(e, s, n, id);
    }
  }

  lemma ChunkFailsKeeps(e: Setting, s: State, n: nat)
    requires Inv(e, s) && Enabled(s, ChunkFails(n))
    ensures Inv(e, Do(e, s, ChunkFails(n)))
    ensures Holding(Do(e, s, ChunkFails(n))) == Holding(s)
  {
    hide MayContain, Covers, ContentOf, Replaced, AddAll;
    var t, j := Do(e, s, ChunkFails(n)), s.job.value;
    InputIsOk(Next(j, n));
    forall id | id in t.durable.entries && IsCurrent(t.feeds, id) ensures Reachable(e, t, id.key) {
      assert Reachable(e, s, id.key);
      AddedIsReachable(e, s, KeysOf(Next(j, n)), id.key);
    }
  }

  lemma TakeLengthsKeeps(e: Setting, s: State)
    requires Inv(e, s) && Enabled(s, TakeLengths)
    ensures Inv(e, Do(e, s, TakeLengths)) && Holding(Do(e, s, TakeLengths)) == Holding(s)
  {
    hide MayContain, Covers, ContentOf, Replaced;
    var t := Do(e, s, TakeLengths);
    assert View(t) == View(s);
    forall id | id in t.durable.entries && IsCurrent(t.feeds, id) ensures Reachable(e, t, id.key) {
      assert Reachable(e, s, id.key);
    }
  }

  lemma GiveUpKeeps(e: Setting, s: State)
    requires Inv(e, s) && Enabled(s, GiveUp)
    ensures Inv(e, Do(e, s, GiveUp)) && Holding(Do(e, s, GiveUp)) == Holding(s)
  {
    hide MayContain, Covers, ContentOf, Replaced;
    var t := Do(e, s, GiveUp);
    forall id | id in t.durable.entries && IsCurrent(t.feeds, id) ensures Reachable(e, t, id.key) {
      assert Reachable(e, s, id.key);
    }
  }

  /** Naming a job current on disk, with the readers' feeds as they were. */
  lemma NamingKeeps(e: Setting, s: State, t: State)
    requires Inv(e, s) && MayPublish(s) && t == s.(durable := Named(s), unsynced := [], job := t.job)
    ensures IdsOk(t.durable.entries, t.durable.generation) && UnsyncedOk(t)
    ensures GenerationsBelow(t.durable.feeds, t.durable.generation) && CurrentReachable(e, t)
    ensures Holding(t) == Holding(s) && View(t) == View(s)
  {
    hide MayContain, Covers, ContentOf, Replaced;
    ViewIdsOk(e, s);
    forall id | id in t.durable.entries && IsCurrent(t.feeds, id) ensures Reachable(e, t, id.key) {
      CurrentIsDurable(e, s, id);
      assert Reachable(e, s, id.key);
    }
    forall f | f in s.feeds
      ensures ContentOf(View(s), f, s.feeds[f].generation) == ContentOf(s.durable.entries, f, s.feeds[f].generation)
    {
      MadeDurable(e, s, f, s.feeds[f].generation);
    }
  }

  lemma PublishDurablyKeeps(e: Setting, s: State)
    requires Inv(e, s) && Enabled(s, PublishDurably)
    ensures Inv(e, Do(e, s, PublishDurably))
    ensures Holding(Do(e, s, PublishDurably)) == Holding(s)
  {
    hide View, Named, UnsyncedOk, IdsOk, CurrentReachable, HeldBy, JobOk, DiskAhead, GenerationsBelow;
    var t := s.(durable := Named(s), unsynced := [], job := Some(s.job.value.(published := true)));
    assert Do(e, s, PublishDurably) == t && MayPublish(s);
    NamedIsGivenOut(s);
    NamingKeeps(e, s, t);
    NamedIsAhead(e, s, t);
    JobIsPublished(e, s, t);
  }

  lemma NamedIsGivenOut(s: State)
    requires s.job.Some?
    ensures Named(s).generation == s.durable.generation
  {
  }

  /** Naming a job current on disk, the disk stays ahead of the readers. */
  lemma NamedIsAhead(e: Setting, s: State, t: State)
    requires Inv(e, s) && MayPublish(s) && t == s.(durable := Named(s), unsynced := [], job := t.job)
    requires t.job.Some? ==> t.job.value == s.job.value.(published := true)
    ensures DiskAhead(t) && GenerationsBelow(t.feeds, t.durable.generation)
  {
    hide View, UnsyncedOk, IdsOk, CurrentReachable, ContentOf, Replaced, Covers, MayContain;
  }

  lemma JobIsPublished(e: Setting, s: State, t: State)
    requires Inv(e, s) && MayPublish(s) && View(t) == View(s)
    requires t == s.(durable := Named(s), unsynced := [], job := Some(s.job.value.(published := true)))
    ensures JobOk(e, t, t.job.value)
  {
    hide MayContain, Covers, ContentOf, Replaced, View, UnsyncedOk, IdsOk, CurrentReachable, DiskAhead;
    assert Before(t, t.job.value) == Before(s, s.job.value);
  }

  /** An error told for a write that reached the disk leaves readers as they
      were. */
  lemma PublishWithErrorKeeps(e: Setting, s: State)
    requires Inv(e, s) && Enabled(s, PublishWithError)
    ensures Inv(e, Do(e, s, PublishWithError))
    ensures Holding(Do(e, s, PublishWithError)) == Holding(s)
  {
    hide View, Named, UnsyncedOk, IdsOk, CurrentReachable, HeldBy, JobOk, DiskAhead, GenerationsBelow;
    var t := s.(durable := Named(s), unsynced := [], job := None);
    assert Do(e, s, PublishWithError) == t && MayPublish(s);
    NamedIsGivenOut(s);
    NamingKeeps(e, s, t);
    NamedIsAhead(e, s, t);
  }

  /** What a job that is written leaves behind is its feed replaced whole. */
  lemma WrittenContent(e: Setting, s: State)
    requires Inv(e, s) && s.job.Some? && s.job.value.done == |s.job.value.input|
    ensures ContentOf(View(s), s.job.value.feed, s.job.value.generation)
            == Replaced(Held(Holding(s), s.job.value.feed), s.job.value.input)
  {
    hide MayContain, Covers, ContentOf, Replaced;
    var j := s.job.value;
    if j.feed in s.feeds { MadeDurable(e, s, j.feed, s.feeds[j.feed].generation); }
    assert Before(s, j) == Held(Holding(s), j.feed);
    assert j.input[..j.done] == j.input;
  }

  lemma PublishToReadersKeeps(e: Setting, s: State)
    requires Inv(e, s) && Enabled(s, PublishToReaders)
    ensures Inv(e, Do(e, s, PublishToReaders))
    ensures Holding(Do(e, s, PublishToReaders)) == Holding(s)[s.job.value.feed := Replacement(Holding(s), s.job.value)]
  {
    PublishedIsReachable(e, s);
    PublishedIsNotUnsynced(e, s);
    ReadersAreGiven(e, s);
    ReadersAreBehind(e, s);
    hide Holding, CurrentReachable, IdsOk, UnsyncedOk, DiskAhead, GenerationsBelow, JobOk;
  }

  lemma ReadersAreBehind(e: Setting, s: State)
    requires Inv(e, s) && Enabled(s, PublishToReaders)
    ensures var t := Do(e, s, PublishToReaders);
            DiskAhead(t) && GenerationsBelow(t.feeds, t.durable.generation) && t.durable == s.durable && t.job.None?
  {
    hide MayContain, Covers, ContentOf, Replaced, Before, View, UnsyncedOk, IdsOk, CurrentReachable;
  }

  lemma ReadersAreGiven(e: Setting, s: State)
    requires Inv(e, s) && Enabled(s, PublishToReaders)
    ensures Holding(Do(e, s, PublishToReaders)) == Holding(s)[s.job.value.feed := Replacement(Holding(s), s.job.value)]
  {
    var j := s.job.value;
    WrittenContent(e, s);
    MadeDurable(e, s, j.feed, j.generation);
    HeldOneMore(s.durable.entries, s.feeds, j.feed, CurrentOf(j));
    hide ContentOf, Replaced, View, HeldBy, Inv;
  }

  /** One feed more that is current. */
  lemma HeldOneMore(entries: Entries, feeds: map<Name, Current>, feed: Name, c: Current)
    ensures HeldBy(entries, feeds[feed := c])
            == HeldBy(entries, feeds)[feed := Feed(c.version, ContentOf(entries, feed, c.generation))]
  {
    hide ContentOf;
  }

  lemma PublishedIsReachable(e: Setting, s: State)
    requires Inv(e, s) && Enabled(s, PublishToReaders)
    ensures CurrentReachable(e, Do(e, s, PublishToReaders))
  {
    hide MayContain, Covers, ContentOf, Replaced, Before;
    var t := Do(e, s, PublishToReaders);
    forall id | id in t.durable.entries && IsCurrent(t.feeds, id) ensures Reachable(e, t, id.key) {
      if id.feed == s.job.value.feed {
        MergedHas(s.durable.entries, s.unsynced, id);
      } else {
        assert Reachable(e, s, id.key);
      }
    }
  }

  lemma PublishedIsNotUnsynced(e: Setting, s: State)
    requires Inv(e, s) && Enabled(s, PublishToReaders)
    ensures UnsyncedOk(Do(e, s, PublishToReaders))
  {
    hide MayContain, Covers, ContentOf, Replaced, Before, View;
  }

  // ------------------------------------------------- each step and the disk

  /** Batches made durable change nothing the disk names. */
  lemma SyncedDisk(e: Setting, s: State, k: nat)
    requires UnsyncedOk(s) && k <= |s.unsynced|
    ensures HeldBy(Merged(s.durable.entries, s.unsynced[..k]), s.durable.feeds) == OnDisk(s)
  {
    hide ContentOf;
    var synced := s.(unsynced := s.unsynced[..k]);
    assert UnsyncedOk(synced);
    forall f | f in s.durable.feeds
      ensures ContentOf(View(synced), f, s.durable.feeds[f].generation)
              == ContentOf(s.durable.entries, f, s.durable.feeds[f].generation)
    {
      MadeDurable(e, synced, f, s.durable.feeds[f].generation);
    }
  }

  /** Naming a job current replaces its feed on disk, carried over from what
      readers see. */
  lemma NamedDisk(e: Setting, s: State)
    requires Inv(e, s) && MayPublish(s)
    ensures HeldBy(Named(s).entries, Named(s).feeds)
            == OnDisk(s)[s.job.value.feed := Replacement(Holding(s), s.job.value)]
  {
    WrittenContent(e, s);
    SyncedDisk(e, s, |s.unsynced|);
    assert s.unsynced[..|s.unsynced|] == s.unsynced;
    HeldOneMore(View(s), s.durable.feeds, s.job.value.feed, CurrentOf(s.job.value));
    hide ContentOf, Replaced, Inv, Merged, HeldBy;
  }

  lemma CompactedDisk(e: Setting, s: State, dropped: set<EntryId>)
    requires Inv(e, s) && Enabled(s, Compact(dropped))
    ensures OnDisk(Do(e, s, Compact(dropped))) == OnDisk(s)
  {
    hide ContentOf, JobOk, IdsOk, UnsyncedOk, CurrentReachable;
    forall f | f in s.durable.feeds
      ensures ContentOf(s.durable.entries - dropped, f, s.durable.feeds[f].generation)
              == ContentOf(s.durable.entries, f, s.durable.feeds[f].generation)
    {
      CompactView(s, dropped, f, s.durable.feeds[f].generation);
    }
  }

  lemma SyncKeeps(e: Setting, s: State, k: nat)
    requires Inv(e, s) && Enabled(s, Sync(k))
    ensures Inv(e, Do(e, s, Sync(k))) && Holding(Do(e, s, Sync(k))) == Holding(s)
  {
    hide MayContain, Covers, ContentOf, Replaced;
    var t := Do(e, s, Sync(k));
    SyncedView(e, s, k);
    SyncedHolding(e, s, k);
    hide HeldBy, View;
    forall id | id in t.durable.entries && IsCurrent(t.feeds, id) ensures Reachable(e, t, id.key) {
      CurrentIsDurable(e, s.(unsynced := s.unsynced[..k], job := None), id);
      assert Reachable(e, s, id.key);
    }
  }

  lemma SyncedIsOk(s: State, k: nat)
    requires UnsyncedOk(s) && k <= |s.unsynced|
    ensures UnsyncedOk(s.(unsynced := s.unsynced[..k], job := None))
  {
  }

  lemma SyncedView(e: Setting, s: State, k: nat)
    requires IdsOk(s.durable.entries, s.durable.generation) && UnsyncedOk(s) && k <= |s.unsynced|
    ensures var t, synced := Do(e, s, Sync(k)), s.(unsynced := s.unsynced[..k], job := None);
            && UnsyncedOk(synced) && t.durable.entries == View(synced) && View(t) == View(s)
            && IdsOk(t.durable.entries, s.durable.generation)
  {
    hide IdsOk, Merged;
    var synced := s.(unsynced := s.unsynced[..k], job := None);
    SyncedIsOk(s, k);
    hide UnsyncedOk;
    ViewIdsOk(e, synced);
    MergedInTwo(s.durable.entries, s.unsynced[..k], s.unsynced[k..]);
    assert s.unsynced[..k] + s.unsynced[k..] == s.unsynced;
  }

  lemma SyncedHolding(e: Setting, s: State, k: nat)
    requires IdsOk(s.durable.entries, s.durable.generation) && UnsyncedOk(s) && k <= |s.unsynced|
    ensures Holding(Do(e, s, Sync(k))) == Holding(s)
  {
    hide ContentOf;
    SyncedView(e, s, k);
    var t, synced := Do(e, s, Sync(k)), s.(unsynced := s.unsynced[..k], job := None);
    forall f | f in s.feeds
      ensures ContentOf(t.durable.entries, f, s.feeds[f].generation)
              == ContentOf(s.durable.entries, f, s.feeds[f].generation)
    {
      MadeDurable(e, synced, f, s.feeds[f].generation);
    }
  }

  lemma {:induction false} MergedKeepsOthers(a: Entries, b: Entries, batches: seq<Entries>, id: EntryId)
    requires id in a <==> id in b
    requires id in a ==> a[id] == b[id]
    ensures id in Merged(a, batches) <==> id in Merged(b, batches)
    ensures id in Merged(a, batches) ==> Merged(a, batches)[id] == Merged(b, batches)[id]
  {
    if batches != [] { MergedKeepsOthers(a, b, batches[..|batches| - 1], id); }
  }

  /** What compaction drops is read by nobody. */
  lemma CompactView(s: State, dropped: set<EntryId>, f: Name, generation: nat)
    requires Enabled(s, Compact(dropped))
    requires f !in s.feeds || s.feeds[f].generation <= generation
    ensures ContentOf(s.durable.entries - dropped, f, generation) == ContentOf(s.durable.entries, f, generation)
    ensures ContentOf(Merged(s.durable.entries - dropped, s.unsynced), f, generation)
            == ContentOf(View(s), f, generation)
  {
    hide ContentOf, Merged;
    var kept := s.durable.entries - dropped;
    SameContent(kept, s.durable.entries, f, generation);
    forall key
      ensures EntryId(key, f, generation) in Merged(kept, s.unsynced) <==> EntryId(key, f, generation) in View(s)
      ensures EntryId(key, f, generation) in View(s) ==>
              Merged(kept, s.unsynced)[EntryId(key, f, generation)] == View(s)[EntryId(key, f, generation)]
    {
      MergedKeepsOthers(kept, s.durable.entries, s.unsynced, EntryId(key, f, generation));
    }
    SameContent(Merged(kept, s.unsynced), View(s), f, generation);
  }

  lemma CompactKeeps(e: Setting, s: State, dropped: set<EntryId>)
    requires Inv(e, s) && Enabled(s, Compact(dropped))
    ensures Inv(e, Do(e, s, Compact(dropped))) && Holding(Do(e, s, Compact(dropped))) == Holding(s)
  {
    hide MayContain, Covers, ContentOf, Replaced;
    var t := Do(e, s, Compact(dropped));
    forall id | id in t.durable.entries && IsCurrent(t.feeds, id) ensures Reachable(e, t, id.key) {
      assert Reachable(e, s, id.key);
    }
    forall f | f in s.feeds
      ensures ContentOf(t.durable.entries, f, s.feeds[f].generation)
              == ContentOf(s.durable.entries, f, s.feeds[f].generation)
    {
      CompactView(s, dropped, f, s.feeds[f].generation);
    }
    if s.job.Some? { CompactedJob(e, s, dropped); }
    hide JobOk, View;
  }

  lemma CompactedJob(e: Setting, s: State, dropped: set<EntryId>)
    requires Inv(e, s) && Enabled(s, Compact(dropped)) && s.job.Some?
    ensures JobOk(e, Do(e, s, Compact(dropped)), s.job.value)
  {
    hide MayContain, Covers, ContentOf, Replaced, IdsOk, UnsyncedOk, CurrentReachable;
    var t, j := Do(e, s, Compact(dropped)), s.job.value;
    CompactView(s, dropped, j.feed, j.generation);
    if j.feed in s.feeds { CompactView(s, dropped, j.feed, s.feeds[j.feed].generation); }
    assert Before(t, j) == Before(s, j);
    forall id | id in View(t) && id.generation == j.generation
      ensures id.feed == j.feed && MayContain(e.hashing, s.filter, e.bytes(id.key)) && Covers(j.lengths, id.key)
    {
      MergedHas(t.durable.entries, t.unsynced, id);
      MergedHas(s.durable.entries, s.unsynced, id);
    }
  }

  lemma CrashKeeps(e: Setting, s: State, k: nat, order: seq<EntryId>, room: nat)
    requires Inv(e, s) && Enabled(s, CrashAndReopen(k, order, room))
    ensures Inv(e, Do(e, s, CrashAndReopen(k, order, room)))
    ensures Holding(Do(e, s, CrashAndReopen(k, order, room))) == HeldBy(s.durable.entries, s.durable.feeds)
  {
    hide MayContain, Covers, ContentOf, Replaced, BuiltFilter, BuiltLengths;
    var t := Do(e, s, CrashAndReopen(k, order, room));
    var synced := s.(unsynced := s.unsynced[..k], job := None);
    assert UnsyncedOk(synced);
    assert t.durable.entries == View(synced);
    ViewIdsOk(e, synced);
    forall id | id in t.durable.entries && IsCurrent(t.feeds, id) ensures Reachable(e, t, id.key) {
      BuiltIsReachable(e, t.durable.entries, t.feeds, order, room, id);
    }
    forall f | f in t.feeds
      ensures ContentOf(t.durable.entries, f, t.feeds[f].generation)
              == ContentOf(s.durable.entries, f, t.feeds[f].generation)
    {
      MadeDurable(e, synced, f, t.feeds[f].generation);
    }
  }
}
