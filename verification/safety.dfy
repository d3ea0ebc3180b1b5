/** What every step of the store keeps, and what readers see over whole runs. */
module StoreSafety {
  import opened Keys
  import opened Feeds
  import opened Filters
  import opened StoreSteps

  // ------------------------------------------------------------ the invariant

  predicate IdOk(id: EntryId) { KeyOk(id.key) && NameOk(id.feed) }

  /** Generations are given out before they are used, and keys are canonical. */
  ghost predicate IdsOk(entries: Entries, generation: nat) {
    forall id :: id in entries ==> id.generation <= generation && IdOk(id)
  }

  /** What is not yet synced is current for nobody. */
  ghost predicate UnsyncedOk(s: State) {
    forall b, id :: 0 <= b < |s.unsynced| && id in s.unsynced[b] ==>
      id.generation <= s.durable.generation && IdOk(id) && !IsCurrent(s.durable.feeds, id) && !IsCurrent(s.feeds, id)
  }

  ghost predicate GenerationsBelow(feeds: map<Name, Current>, generation: nat) {
    forall f :: f in feeds ==> feeds[f].generation <= generation
  }

  /** The disk is never behind the readers, and names what is published. */
  ghost predicate DiskAhead(s: State) {
    && (forall f :: f in s.feeds ==> f in s.durable.feeds && s.feeds[f].generation <= s.durable.feeds[f].generation)
    && (s.job.Some? && s.job.value.published ==>
          s.job.value.feed in s.durable.feeds && s.durable.feeds[s.job.value.feed] == CurrentOf(s.job.value))
  }

  /** An entry of a key passes the filter, and its network is asked for. */
  predicate Reachable(e: Setting, s: State, key: Key) {
    MayContain(e.hashing, s.filter, e.bytes(key)) && Covers(s.lengths, key)
  }

  ghost predicate CurrentReachable(e: Setting, s: State) {
    forall id :: id in s.durable.entries && IsCurrent(s.feeds, id) ==> Reachable(e, s, id.key)
  }

  /** The entries of a job's generation are what its input says so far, all of
      its feed, in the filter, and their networks in its lengths. */
  ghost predicate JobOk(e: Setting, s: State, j: Job) {
    && NameOk(j.feed) && InputOk(j.input) && j.done <= |j.input|
    && j.generation == s.durable.generation
    && (forall f :: f in s.feeds ==> s.feeds[f].generation < j.generation)
    && (!j.published ==> forall f :: f in s.durable.feeds ==> s.durable.feeds[f].generation < j.generation)
    && ContentOf(View(s), j.feed, j.generation) == Replaced(Before(s, j), j.input[..j.done])
    && (forall id :: id in View(s) && id.generation == j.generation ==>
          id.feed == j.feed && MayContain(e.hashing, s.filter, e.bytes(id.key)) && Covers(j.lengths, id.key))
    && (forall key :: Covers(s.lengths, key) ==> Covers(j.lengths, key))
    && (j.published ==> j.done == |j.input| && s.lengths == j.lengths)
  }

  ghost predicate Inv(e: Setting, s: State) {
    && IdsOk(s.durable.entries, s.durable.generation) && UnsyncedOk(s)
    && GenerationsBelow(s.durable.feeds, s.durable.generation) && GenerationsBelow(s.feeds, s.durable.generation)
    && DiskAhead(s) && CurrentReachable(e, s)
    && (s.job.Some? ==> JobOk(e, s, s.job.value))
  }

  // ------------------------------------------------------- merging batches

  lemma {:induction false} MergedHas(entries: Entries, batches: seq<Entries>, id: EntryId)
    ensures id in Merged(entries, batches) <==> id in entries || exists b :: 0 <= b < |batches| && id in batches[b]
    ensures (forall b :: 0 <= b < |batches| ==> id !in batches[b]) && id in entries ==>
              Merged(entries, batches)[id] == entries[id]
  {
    if batches != [] {
      var rest, last := batches[..|batches| - 1], batches[|batches| - 1];
      MergedHas(entries, rest, id);
      assert forall b :: 0 <= b < |rest| ==> rest[b] == batches[b];
      if b :| 0 <= b < |batches| && id in batches[b] { assert b < |rest| ==> id in rest[b]; }
    }
  }

  lemma {:induction false} MergedInTwo(entries: Entries, a: seq<Entries>, b: seq<Entries>)
    ensures Merged(entries, a + b) == Merged(Merged(entries, a), b)
  {
    if b == [] {
      assert a + b == a;
    } else {
      MergedInTwo(entries, a, b[..|b| - 1]);
      assert (a + b)[..|a + b| - 1] == a + b[..|b| - 1];
    }
  }

  lemma ContentIs(entries: Entries, feed: Name, generation: nat, key: Key)
    ensures key in ContentOf(entries, feed, generation) <==> EntryId(key, feed, generation) in entries
    ensures key in ContentOf(entries, feed, generation) ==>
              ContentOf(entries, feed, generation)[key] == entries[EntryId(key, feed, generation)]
  {
    if EntryId(key, feed, generation) in entries {
      assert EntryId(key, feed, generation).key in KeysAt(entries, feed, generation);
    }
  }

  /** Content depends on the entries of its generation alone. */
  lemma SameContent(a: Entries, b: Entries, feed: Name, generation: nat)
    requires forall key :: EntryId(key, feed, generation) in a <==> EntryId(key, feed, generation) in b
    requires forall key :: EntryId(key, feed, generation) in a ==>
               a[EntryId(key, feed, generation)] == b[EntryId(key, feed, generation)]
    ensures ContentOf(a, feed, generation) == ContentOf(b, feed, generation)
  {
    hide ContentOf;
    var left, right := ContentOf(a, feed, generation), ContentOf(b, feed, generation);
    forall key ensures key in left <==> key in right ensures key in left ==> left[key] == right[key] {
      ContentIs(a, feed, generation, key);
      ContentIs(b, feed, generation, key);
    }
    assert left.Keys == right.Keys;
  }

  lemma EntriesOfHas(feed: Name, generation: nat, content: map<Key, Entry>, id: EntryId)
    ensures id in EntriesOf(feed, generation, content) <==>
              id.feed == feed && id.generation == generation && id.key in content
    ensures id in EntriesOf(feed, generation, content) ==> EntriesOf(feed, generation, content)[id] == content[id.key]
  {
    if id.feed == feed && id.generation == generation && id.key in content {
      assert EntryId(id.key, feed, generation) in EntriesOf(feed, generation, content);
    }
  }

  /** A batch of a generation adds to its content and to no other. */
  lemma BatchContent(entries: Entries, feed: Name, generation: nat, content: map<Key, Entry>, f: Name, g: nat)
    ensures ContentOf(entries + EntriesOf(feed, generation, content), f, g) ==
            if f == feed && g == generation then ContentOf(entries, f, g) + content else ContentOf(entries, f, g)
  {
    hide ContentOf, EntriesOf;
    var batch := EntriesOf(feed, generation, content);
    var left := ContentOf(entries + batch, f, g);
    var right := if f == feed && g == generation then ContentOf(entries, f, g) + content else ContentOf(entries, f, g);
    forall key ensures key in left <==> key in right ensures key in left ==> left[key] == right[key] {
      ContentIs(entries + batch, f, g, key);
      ContentIs(entries, f, g, key);
      EntriesOfHas(feed, generation, content, EntryId(key, f, g));
    }
    assert left.Keys == right.Keys;
  }

  /** What is current for readers or on disk is durable, and unsynced batches
      do not touch it. */
  lemma CurrentIsDurable(e: Setting, s: State, id: EntryId)
    requires UnsyncedOk(s) && (IsCurrent(s.feeds, id) || IsCurrent(s.durable.feeds, id))
    ensures id in View(s) <==> id in s.durable.entries
    ensures id in View(s) ==> View(s)[id] == s.durable.entries[id]
  {
    MergedHas(s.durable.entries, s.unsynced, id);
  }

  lemma CurrentContent(e: Setting, s: State, f: Name)
    requires UnsyncedOk(s) && f in s.feeds
    ensures ContentOf(View(s), f, s.feeds[f].generation) == ContentOf(s.durable.entries, f, s.feeds[f].generation)
  {
    var g := s.feeds[f].generation;
    forall key { CurrentIsDurable(e, s, EntryId(key, f, g)); }
    SameContent(View(s), s.durable.entries, f, g);
  }

  lemma ViewIdsOk(e: Setting, s: State)
    requires IdsOk(s.durable.entries, s.durable.generation) && UnsyncedOk(s)
    ensures IdsOk(View(s), s.durable.generation)
  {
    forall id | id in View(s) ensures id.generation <= s.durable.generation && IdOk(id) {
      MergedHas(s.durable.entries, s.unsynced, id);
    }
  }

  // ------------------------------------------------------------------ lookup

  /** What a feed asserts of a key, as the entry of its current generation. */
  lemma HeldInView(e: Setting, s: State, f: Name, key: Key)
    requires Inv(e, s) && f in s.feeds
    ensures var id := EntryId(key, f, s.feeds[f].generation);
            && (key in Holding(s)[f].indicators <==> id in View(s))
            && (id in View(s) ==>
                Holding(s)[f].indicators[key] == View(s)[id] && MayContain(e.hashing, s.filter, e.bytes(key)))
  {
    hide MayContain, ContentOf, JobOk, Covers;
    var id := EntryId(key, f, s.feeds[f].generation);
    CurrentIsDurable(e, s, id);
    ContentIs(s.durable.entries, f, s.feeds[f].generation, key);
    if id in s.durable.entries { assert Reachable(e, s, id.key); }
  }

  /** `held` is what the entries of `key` that are current say. */
  ghost predicate Says(
    e: Setting, entries: Entries, feeds: map<Name, Current>, filter: Filter, key: Key, held: map<Name, Feed>)
  {
    && (forall f :: f in held ==> f in feeds && held[f].version == feeds[f].version)
    && (forall f :: f in feeds ==>
          (EntryId(key, f, feeds[f].generation) in entries <==> f in held && key in held[f].indicators))
    && (forall f :: f in held && key in held[f].indicators ==>
          held[f].indicators[key] == entries[EntryId(key, f, feeds[f].generation)]
              && MayContain(e.hashing, filter, e.bytes(key)))
  }

  lemma ReturnsWhatIsSaid(
      e: Setting, entries: Entries, feeds: map<Name, Current>, filter: Filter, key: Key, held: map<Name, Feed>,
      answer: seq<Assertion>)
    requires Says(e, entries, feeds, filter, key, held)
    ensures LookupReturns(e, entries, feeds, filter, key, answer) <==> Answers(held, key, answer)
  {
    hide MayContain;
    if answer != [] { assert answer[0] in answer; }
  }

  lemma StateSays(e: Setting, s: State, key: Key)
    requires Inv(e, s)
    ensures Says(e, View(s), s.feeds, s.filter, key, Holding(s))
  {
    hide MayContain, ContentOf, Inv, View;
    forall f | f in s.feeds
      ensures var id := EntryId(key, f, s.feeds[f].generation);
              && (key in Holding(s)[f].indicators <==> id in View(s))
              && (id in View(s) ==>
                  Holding(s)[f].indicators[key] == View(s)[id] && MayContain(e.hashing, s.filter, e.bytes(key)))
    {
      HeldInView(e, s, f, key);
    }
  }

  /** In every state the invariant holds in, a lookup answers what the feeds
      assert, no more and no less. */
  lemma LookupIsExact(e: Setting, s: State, key: Key, answer: seq<Assertion>)
    requires Inv(e, s)
    ensures LookupReturns(e, View(s), s.feeds, s.filter, key, answer) <==> Answers(Holding(s), key, answer)
  {
    StateSays(e, s, key);
    hide *;
    ReturnsWhatIsSaid(e, View(s), s.feeds, s.filter, key, Holding(s), answer);
  }
}
