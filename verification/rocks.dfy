/** The store on disk as an object: each of its methods moves along the store's
    machine, whose whole history the object keeps. */
module RocksStores {
  import opened Base
  import opened Ordering
  import opened Codec
  import opened Keys
  import opened Feeds
  import opened Filters
  import opened StoreSteps
  import opened StoreSafety
  import opened StoreRuns
  import opened StoreHistory
  import opened DiskStores

  /** The indicators given, none refused by their type. */
  type Given = input: Input | InputOk(input) witness []

  class RocksStore {
    const e: Setting
    var durable: Db
    var unsynced: seq<Entries>
    var feeds: map<Name, Current>
    var filter: Filter
    var lengths: PrefixLengths

    ghost var job: Option<Job>
    ghost var states: seq<State>
    ghost var steps: seq<Step>

    ghost function Now(): State
      reads this
    {
      State(durable, unsynced, feeds, filter, lengths, job)
    }

    /** The object is where its history leads. */
    ghost predicate Live()
      reads this
    {
      IsRun(e, states, steps) && states[|steps|] == Now() && Inv(e, Now())
    }

    /** Between calls no replacement is going on. */
    ghost predicate Valid()
      reads this
    {
      Live() && job.None?
    }

    /** What readers see. */
    ghost function Contents(): map<Name, Feed>
      reads this
    {
      Holding(Now())
    }

    /** What the store would hold if it were opened now. */
    ghost function Disk(): map<Name, Feed>
      reads this
    {
      OnDisk(Now())
    }

    constructor (e: Setting)
      ensures Valid() && this.e == e && Contents() == Disk() == map[] && filter == EmptyFilter(0)
              && View(Now()) == map[]
    {
      this.e := e;
      durable, unsynced, feeds, filter, lengths, job :=
        EMPTY.durable, EMPTY.unsynced, EMPTY.feeds, EMPTY.filter, EMPTY.lengths, None;
      states, steps := [EMPTY], [];
      new;
      EmptyIsOk(e);
    }

    /** The step just done is added to the history. */
    ghost method Record(before: State, step: Step)
      requires IsRun(e, states, steps) && states[|steps|] == before && Inv(e, before)
      requires Enabled(before, step) && Now() == Do(e, before, step)
      modifies this`states, this`steps
      ensures Live() && states == old(states) + [Now()] && steps == old(steps) + [step]
      ensures SeenOf(Now()) == Effect(SeenOf(before), before, step)
    {
      hide Inv, Do, Enabled, Effect, Holding, OnDisk;
      StepKeeps(e, before, step);
      states, steps := states + [Now()], steps + [step];
    }

    // ----------------------------------------------------------------- reads

    /** A lookup by its three reads, with nothing between them. */
    method Assertions(key: Key) returns (answer: seq<Assertion>)
      requires Live() && SettingOk(e) && KeyOk(key)
      ensures Answers(Contents(), key, answer)
    {
      answer := [];
      if MayContain(e.hashing, filter, e.bytes(key)) {
        var view := Merged(durable.entries, unsynced);
        var ids := Scan(e, view, e.bytes(key));
        ScanIsOfKey(e, Now(), key, ids);
        answer := Collect(view, feeds, key, ids);
      }
      LookupIsExact(e, Now(), key, answer);
    }

    // -------------------------------------------------------------- rebuilding

    /** Scans all entries into a filter and a bitmap with twice the room that the
        feeds and `more` ask for. Those in use are left alone if the scan fails. */
    method BuildFilter(more: nat, fails: bool) returns (ok: bool)
      requires Live() && (job.Some? ==> job.value.done == 0 && !job.value.published)
      modifies this`filter, this`lengths, this`job, this`states, this`steps
      ensures Live() && Contents() == old(Contents()) && Disk() == old(Disk()) && ok == !fails
      ensures job == if old(job).Some? && ok then Some(old(job).value.(lengths := lengths)) else old(job)
      ensures ok ==>
                filter.added == |CurrentIds(View(Now()), feeds)|
                && filter.capacity == CapacityFor(TotalOf(feeds), more)
      ensures !ok ==> lengths == old(lengths) && filter == old(filter)
    {
      hide Inv, Holding, OnDisk, Merged, Inv, BuiltLengths, TotalOf, AddAll;
      if fails { return false; }
      ghost var before := Now();
      var expected := Total(feeds);
      var ids := ScanAll(Merged(durable.entries, unsynced));
      var current, f, l := BuildFrom(e, feeds, ids, (expected + more) * 2);
      filter, lengths := f, l;
      if job.Some? { job := Some(job.value.(lengths := l)); }
      ghost var step := Rebuild(current, (expected + more) * 2);
      assert Enabled(before, step);
      OnceEach(current, CurrentIds(View(Now()), feeds));
      Record(before, step);
      return true;
    }

    // --------------------------------------------------------------- replacing

    /** Takes the next number and syncs it, so that no crash can give it out again.
        */
    method BeginReplacing(feed: Name, version: string, input: Given) returns (generation: nat)
      requires Valid() && NameOk(feed)
      modifies this`durable, this`unsynced, this`job, this`states, this`steps
      ensures Live() && Contents() == old(Contents()) && Disk() == old(Disk()) && View(Now()) == old(View(Now()))
      ensures job == Some(Job(feed, version, StoredInput(input), generation, 0, lengths, false))
    {
      hide Inv, Holding, OnDisk;
      ghost var before := Now();
      generation := durable.generation + 1;
      durable, unsynced := Db(generation, durable.feeds, Merged(durable.entries, unsynced)), [];
      job := Some(Job(feed, version, StoredInput(input), generation, 0, lengths, false));
      Record(before, Begin(feed, version, input));
    }

    ghost method Abandon()
      requires Live() && job.Some? && !job.value.published
      modifies this`job, this`states, this`steps
      ensures Valid() && Contents() == old(Contents()) && Disk() == old(Disk())
    {
      hide Inv, Holding, OnDisk;
      ghost var before := Now();
      job := None;
      Record(before, GiveUp);
    }

    /** One batch: dates the chunk by what the feed held, puts its keys in the
        filter, and writes it. */
    method WriteNext(feed: Name, before: Option<nat>, generation: nat, chunk: Input, readFails: bool, writeFails: bool)
      returns (added: Option<nat>)
      requires Live() && job.Some? && !job.value.published && job.value.done + |chunk| <= |job.value.input|
      requires feed == job.value.feed && generation == job.value.generation
               && StoredInput(chunk) == Next(job.value, |chunk|)
      requires before == if feed in feeds then Some(feeds[feed].generation) else None
      modifies this`unsynced, this`filter, this`job, this`states, this`steps
      ensures Live() && Contents() == old(Contents()) && Disk() == old(Disk())
      ensures added.Some? <==> !(before.Some? && readFails) && !writeFails
      ensures added.Some? ==> filter.added == old(filter).added + |chunk| && filter.capacity == old(filter).capacity
      ensures added.Some? ==> added.value == AddedCount(Held(Contents(), feed), chunk)
      ensures job ==
              if added.None? then None
              else Some(old(job).value.(done := old(job).value.done + |chunk|,
                                        lengths := AddLengths(old(job).value.lengths, KeysOf(chunk))))
    {
      hide Inv, Holding, OnDisk, Merged, Replaced, AddAll, AddLengths, ContentOf, EntriesOf, MayContain, AddedCount,
           IsDated,
           Held, AsStored;
      ghost var was := Now();
      assert KeysOf(StoredInput(chunk)) == KeysOf(chunk);
      ghost var content := Held(Contents(), feed);
      var view := Merged(durable.entries, unsynced);
      var dated, count := chunk, |chunk|;
      BeforeIsHeld(e, was);
      if before.Some? {
        if readFails {
          Abandon();
          return None;
        }
        assert content == ContentOf(view, feed, before.value);
        dated, count := DateChunk(e, filter, view, feed, before.value, chunk, content);
      } else {
        NothingCarried(chunk);
      }
      var batch, grown := Gather(e, filter, feed, generation, chunk, dated, content);
      filter := grown;
      if writeFails {
        job := None;
        Record(was, ChunkFails(|chunk|));
        return None;
      }
      unsynced := unsynced + [batch];
      var done, covered := job.value.done + |chunk|, AddLengths(job.value.lengths, KeysOf(chunk));
      job := Some(job.value.(done := done, lengths := covered));
      Record(was, Chunk(|chunk|));
      return Some(count);
    }

    /** Lookups ask for the new networks from now. */
    method TakeNetworks(next: PrefixLengths)
      requires Live() && job.Some? && !job.value.published && job.value.done == |job.value.input|
      requires next == job.value.lengths
      modifies this`lengths, this`states, this`steps
      ensures Live() && Contents() == old(Contents()) && Disk() == old(Disk()) && lengths == next
    {
      hide Inv, Holding, OnDisk, Merged;
      ghost var before := Now();
      lengths := next;
      Record(before, TakeLengths);
    }

    /** Names the generation current, synced. The caller may be told of a failure
        all the same, and then the job is over. */
    method PublishOnDisk(feed: Name, current: Current, fails: bool)
      requires Live() && job.Some? && MayPublish(Now())
      requires feed == job.value.feed && current == CurrentOf(job.value)
      modifies this`durable, this`unsynced, this`job, this`states, this`steps
      ensures Live() && Contents() == old(Contents())
      ensures Disk() == old(Disk())[feed := Replacement(old(Contents()), old(job).value)]
      ensures job == if fails then None else Some(old(job).value.(published := true))
    {
      hide Inv, Holding, OnDisk, Replacement;
      ghost var before := Now();
      durable, unsynced :=
        Db(durable.generation, durable.feeds[feed := current], Merged(durable.entries, unsynced)), [];
      if fails {
        job := None;
        Record(before, PublishWithError);
      } else {
        job := Some(job.value.(published := true));
        Record(before, PublishDurably);
      }
    }

    /** What readers go by after it. */
    method PublishForReaders(feed: Name, current: Current)
      requires Live() && job.Some? && job.value.published
      requires feed == job.value.feed && current == CurrentOf(job.value)
      modifies this`feeds, this`job, this`states, this`steps
      ensures Valid() && Disk() == old(Disk())
      ensures Contents() == old(Contents())[feed := Replacement(old(Contents()), old(job).value)]
    {
      hide Inv, Holding, OnDisk, Replacement;
      ghost var before := Now();
      feeds, job := feeds[feed := current], None;
      Record(before, PublishToReaders);
    }

    /** Publishes what is written. A write that fails may be on disk all the
        same: `reached` says whether it is. */
    method Publish(next: PrefixLengths, feed: Name, current: Current, fails: bool, reached: bool) returns (ok: bool)
      requires Live() && job.Some? && !job.value.published && job.value.done == |job.value.input|
      requires feed == job.value.feed && current == CurrentOf(job.value) && next == job.value.lengths
      modifies this`durable, this`unsynced, this`feeds, this`lengths, this`job, this`states, this`steps
      ensures Valid() && ok == !fails
      ensures Contents() ==
              if ok then old(Contents())[feed := Replacement(old(Contents()), old(job).value)] else old(Contents())
      ensures Disk() ==
              if ok || reached then old(Disk())[feed := Replacement(old(Contents()), old(job).value)] else old(Disk())
    {
      hide Inv, Holding, OnDisk, Merged, Replaced;
      TakeNetworks(next);
      if fails && !reached {
        Abandon();
        return false;
      }
      PublishOnDisk(feed, current, fails);
      if fails { return false; }
      PublishForReaders(feed, current);
      return true;
    }

    /** How many keys the filter counts and was sized for, once there is room for
        `expected` more. */
    ghost function Counted(expected: nat): (nat, nat)
      reads this
    {
      if Room(filter) < expected then (|CurrentIds(View(Now()), feeds)|, CapacityFor(TotalOf(feeds), expected))
      else (filter.added, filter.capacity)
    }

    /** A whole replacement. `fails` gives the parts whose input or output fails,
        `reached` whether a publishing write that does is on disk all the same. */
    method ReplaceFeed(feed: Name, version: string, input: Given, expected: nat, fails: Part -> bool, reached: bool)
      returns (r: Result<Counts, Error>)
      requires Valid()
      modifies this
      ensures Valid()
      ensures r == Err(NameRefused) <==> !NameOk(feed)
      ensures r.Err? && r.error.Failed? ==> fails(r.error.part)
      ensures r.Ok? ==> !fails(Publication)
      ensures NameOk(feed) && (forall part :: part != Tidying ==> !fails(part)) ==>
                var (added, capacity) := old(Counted(expected));
                r == if fails(Tidying) && added + |input| > capacity then Err(Failed(Tidying))
                     else Ok(Counts(|input|, AddedCount(Held(old(Contents()), feed), input)))
      ensures r.Ok? ==> r.value == Counts(|input|, AddedCount(Held(old(Contents()), feed), input))
      ensures |input| <= expected && (expected > 0 || !IsFull(old(filter))) ==> r != Err(Failed(Tidying))
      ensures Contents() ==
              if r.Ok? || r == Err(Failed(Tidying)) then
                Feeds.ReplaceFeed(old(Contents()), feed, version, StoredInput(input))
              else old(Contents())
      ensures Disk() ==
              if r.Ok? || r == Err(Failed(Tidying)) || (reached && r == Err(Failed(Publication))) then
                old(Disk())[feed := Feed(version, Replaced(Held(old(Contents()), feed), StoredInput(input)))]
              else old(Disk())
    {
      hide Live, Contents, Disk, Counted, Replaced, AddedCount, Held, AsStored;
      if !NameOk(feed) { return Err(NameRefused); }
      if expected > 0 || !IsFull(filter) { CountedIsEnough(expected); }
      var written := WriteGeneration(feed, version, input, expected, fails);
      if written.Err? { return Err(written.error); }
      var (generation, next, added) := written.value;
      var published := Publish(next, feed, Current(generation, version, |input|), fails(Publication), reached);
      if !published { return Err(Failed(Publication)); }
      var tidied := Tidy(fails(Tidying));
      return if tidied then Ok(Counts(|input|, added)) else Err(Failed(Tidying));
    }

    /** All of the input as entries of a new generation, beside what is current. */
    method WriteGeneration(feed: Name, version: string, input: Given, expected: nat, fails: Part -> bool)
      returns (r: Result<(nat, PrefixLengths, nat), Error>)
      requires Valid() && NameOk(feed)
      modifies this`durable, this`unsynced, this`filter, this`lengths, this`job, this`states, this`steps
      ensures Live() && Contents() == old(Contents()) && Disk() == old(Disk())
      ensures (forall part :: part != Tidying ==> !fails(part)) ==> r.Ok?
      ensures r.Err? ==> job.None? && r.error.Failed? && fails(r.error.part) && r.error.part !in {Publication, Tidying}
      ensures r.Ok? ==> job == Some(Job(feed, version, StoredInput(input), r.value.0, |input|, r.value.1, false))
      ensures r.Ok? ==> r.value.2 == AddedCount(Held(old(Contents()), feed), input)
      ensures r.Ok? ==>
                (filter.added, filter.capacity) == (old(Counted(expected)).0 + |input|, old(Counted(expected)).1)
    {
      hide Live, Contents, Disk, TotalOf, CurrentIds, CapacityFor, AddedCount, Held, AsStored;
      if fails(Generation) { return Err(Failed(Generation)); }
      var generation := BeginReplacing(feed, version, input);
      var room := MakeRoom(expected, fails(MakingRoom));
      if !room { return Err(Failed(MakingRoom)); }
      var all := WriteAll(feed, version, input, generation, fails);
      if all.Err? { return Err(all.error); }
      return Ok((generation, all.value.0, all.value.1));
    }

    /** Once there is room for what is expected, so many fit. */
    lemma CountedIsEnough(expected: nat)
      requires Live() && (expected > 0 || !IsFull(filter))
      ensures Counted(expected).0 + expected <= Counted(expected).1
    {
      hide Inv, Holding, OnDisk, TotalOf, CurrentIds, CountsOk, View, Do, Enabled, AddAll;
      CountsKeep(e, states, steps);
      CurrentAreGiven(e, Now());
    }

    /** A filter without room for what is expected is built again before any of it
        is written. */
    method MakeRoom(expected: nat, fails: bool) returns (ok: bool)
      requires Live() && job.Some? && job.value.done == 0 && !job.value.published && job.value.lengths == lengths
      modifies this`filter, this`lengths, this`job, this`states, this`steps
      ensures Live() && Contents() == old(Contents()) && Disk() == old(Disk())
      ensures ok <==> !(old(Room(filter)) < expected && fails)
      ensures job == if ok then Some(old(job).value.(lengths := lengths)) else None
      ensures ok ==> (filter.added, filter.capacity) == old(Counted(expected))
    {
      hide Inv, Holding, OnDisk, Merged, TotalOf, CurrentIds, CapacityFor, IsRun;
      ok := true;
      if Room(filter) < expected {
        ok := BuildFilter(expected, fails);
        if !ok { Abandon(); }
      }
    }

    /** A filter that counts more keys than it was sized for is built anew. */
    method Tidy(fails: bool) returns (ok: bool)
      requires Valid()
      modifies this`filter, this`lengths, this`job, this`states, this`steps
      ensures Valid() && Contents() == old(Contents()) && Disk() == old(Disk())
      ensures ok <==> !(fails && old(filter).added > old(filter).capacity)
    {
      hide Inv, Holding, OnDisk, Merged, TotalOf, CurrentIds, CapacityFor, IsRun;
      ok := true;
      if IsFull(filter) { ok := BuildFilter(0, fails); }
    }

    /** The loop over the indicators, written in chunks. */
    method WriteAll(feed: Name, version: string, input: Given, generation: nat, fails: Part -> bool)
      returns (r: Result<(PrefixLengths, nat), Error>)
      requires Live() && NameOk(feed)
               && job == Some(Job(feed, version, StoredInput(input), generation, 0, lengths, false))
      modifies this`unsynced, this`filter, this`job, this`states, this`steps
      ensures Live() && Contents() == old(Contents()) && Disk() == old(Disk())
      ensures (forall part :: part != Tidying ==> !fails(part)) ==> r.Ok?
      ensures r.Err? ==> job.None? && r.error.Failed? && fails(r.error.part) && r.error.part !in {Publication, Tidying}
      ensures r.Ok? ==> job == Some(Job(feed, version, StoredInput(input), generation, |input|, r.value.0, false))
      ensures r.Ok? ==> r.value.1 == AddedCount(Held(old(Contents()), feed), input)
      ensures r.Ok? ==> filter.added == old(filter).added + |input| && filter.capacity == old(filter).capacity
    {
      hide Live, Contents, Disk, Replaced, AddLengths, AddedCount, Held, AsStored;
      ghost var stored := StoredInput(input);
      var before := if feed in feeds then Some(feeds[feed].generation) else None;
      NothingWritten(lengths, Held(Contents(), feed));
      var next, chunk: Input, added, written := lengths, [], 0, 0;
      ghost var content, done := Held(Contents(), feed), 0;
      for i := 0 to |input|
        invariant Live() && Contents() == old(Contents()) && Disk() == old(Disk()) && feeds == old(feeds)
        invariant filter.added + |chunk| == old(filter).added + i && filter.capacity == old(filter).capacity
        invariant done + |chunk| == i && chunk == input[done..i] && |chunk| < CHUNK
        invariant job.Some? && job.value == Job(feed, version, stored, generation, done, job.value.lengths, false)
        invariant next == AddLengths(job.value.lengths, KeysOf(chunk))
        invariant added == AddedCount(content, stored[..done])
      {
        LengthsOneMore(job.value.lengths, chunk, input[i]);
        next, chunk := AddLength(next, input[i].0), chunk + [input[i]];
        if |chunk| >= CHUNK {
          var n := Flush(feed, before, generation, chunk, added, written, fails, input);
          if n.None? { return Err(Failed(PartOf(before, written, fails))); }
          NothingWritten(next, content);
          added, written, chunk, done := n.value, written + 1, [], i + 1;
        }
      }
      var n := Flush(feed, before, generation, chunk, added, written, fails, input);
      if n.None? { return Err(Failed(PartOf(before, written, fails))); }
      assert stored[..|input|] == stored;
      StoredAreCounted(content, input);
      return Ok((next, n.value));
    }

    /** Writes what was gathered of the input, and adds up what was new. */
    method Flush(
        feed: Name, before: Option<nat>, generation: nat, chunk: Input, added: nat, written: nat, fails: Part -> bool,
        ghost input: Input)
      returns (total: Option<nat>)
      requires Live() && job.Some? && !job.value.published && job.value.done + |chunk| <= |input|
      requires feed == job.value.feed && generation == job.value.generation && job.value.input == StoredInput(input)
      requires chunk == input[job.value.done..job.value.done + |chunk|]
      requires before == if feed in feeds then Some(feeds[feed].generation) else None
      requires added == AddedCount(Held(Contents(), feed), job.value.input[..job.value.done])
      modifies this`unsynced, this`filter, this`job, this`states, this`steps
      ensures Live() && Contents() == old(Contents()) && Disk() == old(Disk())
      ensures total.Some? <==> !(before.Some? && fails(ReadChunk(written))) && !fails(Part.WriteChunk(written))
      ensures total.Some? ==> filter.added == old(filter).added + |chunk| && filter.capacity == old(filter).capacity
      ensures total.None? ==> job.None?
      ensures total.Some? ==>
                && job == Some(old(job).value.(done := old(job).value.done + |chunk|,
                                               lengths := AddLengths(old(job).value.lengths, KeysOf(chunk))))
                && total.value == AddedCount(Held(Contents(), feed), job.value.input[..job.value.done])
    {
      hide Inv, Holding, OnDisk, Merged, Replaced, AddLengths, AddedCount, Held, AsStored;
      ghost var stored := StoredInput(chunk);
      StoredPart(input, job.value.done, job.value.done + |chunk|);
      ghost var j, content := job.value, Held(Contents(), feed);
      var n := WriteNext(feed, before, generation, chunk, fails(ReadChunk(written)), fails(Part.WriteChunk(written)));
      if n.None? { return None; }
      AddedCountInTwo(content, j.input[..j.done], stored);
      StoredAreCounted(content, chunk);
      assert j.input[..j.done] + stored == j.input[..j.done + |chunk|];
      return Some(added + n.value);
    }

    // ---------------------------------------------------------- what may happen

    /** Drops entries of superseded generations. */
    method Compact()
      requires Valid()
      modifies this`durable, this`unsynced, this`states, this`steps
      ensures Valid() && Contents() == old(Contents()) && Disk() == old(Disk())
      ensures forall id :: id in View(Now()) <==> id in old(View(Now())) && !IsSuperseded(feeds, id)
    {
      hide Inv, Holding, OnDisk, ContentOf;
      ghost var before := Now();
      assert unsynced[..|unsynced|] == unsynced;
      durable, unsynced := durable.(entries := Merged(durable.entries, unsynced)), [];
      Record(before, Sync(|before.unsynced|));
      before := Now();
      var dropped := set id | id in durable.entries && IsSuperseded(feeds, id);
      durable := durable.(entries := durable.entries - dropped);
      Record(before, Step.Compact(dropped));
    }

    /** The process ends without warning, all but the first `kept` batches are
        lost, and the store is opened again. */
    method CrashAndReopen(kept: nat)
      requires Live() && kept <= |unsynced|
      modifies this
      ensures Valid() && Contents() == Disk() == old(Disk())
    {
      hide Inv, Holding, OnDisk, Merged, BuiltFilter, BuiltLengths;
      ghost var before := Now();
      durable := durable.(entries := Merged(durable.entries, unsynced[..kept]));
      unsynced, feeds, job := [], durable.feeds, None;
      var room := Total(feeds);
      room := room * 2;
      var ids := ScanAll(durable.entries);
      var current, f, l := BuildFrom(e, feeds, ids, room);
      filter, lengths := f, l;
      var step := Step.CrashAndReopen(kept, current, room);
      Record(before, step);
    }
  }

  /** The part of writing a chunk that failed: what is there is read first. */
  function PartOf(before: Option<nat>, at: nat, fails: Part -> bool): Part {
    if before.Some? && fails(ReadChunk(at)) then ReadChunk(at) else Part.WriteChunk(at)
  }

  // -------------------------------------------------------------- witnesses

  /** One more indicator than the smallest filter was sized for, from an iterator
      that promised none: the feed is replaced, and the answer is an error. */
  method ErrorAfterReplacement(e: Setting, key: Key, entry: Entry) returns (store: RocksStore, r: Result<Counts, Error>)
    requires KeyOk(key)
    ensures r == Err(Failed(Tidying)) && store.Contents() == map[[1] := Feed("1", map[key := AsStored(entry)])]
  {
    hide AsStored, Inv, Holding, OnDisk, IsRun, View, TotalOf, CurrentIds;
    store := new RocksStore(e);
    var input := seq(LEAST_CAPACITY + 1, _ => (key, entry));
    assert store.Counted(0) == (0, LEAST_CAPACITY);
    r := store.ReplaceFeed([1], "1", input, 0, part => part == Tidying, false);
    OneKeyIsLeft(input, key, entry);
  }

  /** A publishing write that fails and is on disk all the same: readers go on
      without the feed, until the store is opened again and has it. */
  method ReplacedAfterError(e: Setting, key: Key, entry: Entry)
    returns (store: RocksStore, r: Result<Counts, Error>, ghost before: map<Name, Feed>)
    requires KeyOk(key)
    ensures r == Err(Failed(Publication)) && before == map[]
    ensures store.Contents() == map[[1] := Feed("1", map[key := AsStored(entry)])]
  {
    hide AsStored, Inv, Holding, OnDisk, IsRun, View, TotalOf, CurrentIds;
    store := new RocksStore(e);
    r := store.ReplaceFeed([1], "1", [(key, entry)], 1, part => part == Publication, true);
    assert r.Err? && r.error.Failed?;
    before := store.Contents();
    store.CrashAndReopen(0);
    OneKeyIsLeft([(key, entry)], key, entry);
  }

  lemma {:induction false} OneKeyIsLeft(input: Input, key: Key, entry: Entry)
    requires input != [] && forall i :: 0 <= i < |input| ==> input[i] == (key, entry)
    ensures Replaced(map[], StoredInput(input)) == map[key := AsStored(entry)]
  {
    var rest := input[..|input| - 1];
    StoredPart(input, 0, |input| - 1);
    if rest == [] {
      assert Replaced(map[], StoredInput(rest)) == map[];
    } else {
      OneKeyIsLeft(rest, key, entry);
    }
  }

  // ---------------------------------------------------------------- helpers

  /** How many indicators the feeds named were given, added up in any order. */
  ghost function SumOf(feeds: map<Name, Current>, names: set<Name>): nat
    requires names <= feeds.Keys
  {
    if names == {} then 0
    else
      var f :| f in names;
      SumOf(feeds, names - {f}) + feeds[f].count
  }

  lemma {:induction false} SumWithout(feeds: map<Name, Current>, names: set<Name>, f: Name)
    requires names <= feeds.Keys && f in names
    ensures SumOf(feeds, names) == SumOf(feeds, names - {f}) + feeds[f].count
    decreases names
  {
    var g :| g in names && SumOf(feeds, names) == SumOf(feeds, names - {g}) + feeds[g].count;
    if g != f {
      SumWithout(feeds, names - {g}, f);
      SumWithout(feeds, names - {f}, g);
      assert names - {g} - {f} == names - {f} - {g};
    }
  }

  ghost function TotalOf(feeds: map<Name, Current>): nat { SumOf(feeds, feeds.Keys) }

  /** How many indicators the feeds hold, one named twice counted twice. */
  method Total(feeds: map<Name, Current>) returns (total: nat)
    ensures total == TotalOf(feeds)
  {
    var left := feeds.Keys;
    total := 0;
    while left != {}
      invariant left <= feeds.Keys && total + SumOf(feeds, left) == TotalOf(feeds)
    {
      var f :| f in left;
      SumWithout(feeds, left, f);
      total, left := total + feeds[f].count, left - {f};
    }
  }

  ghost function CurrentIds(entries: Entries, feeds: map<Name, Current>): set<EntryId> {
    set id | id in entries && IsCurrent(feeds, id)
  }

  /** No more entries are current than the feeds were given indicators. */
  lemma CurrentAreGiven(e: Setting, s: State)
    requires Inv(e, s) && CountsOk(Holding(s), s.feeds)
    ensures |CurrentIds(View(s), s.feeds)| <= TotalOf(s.feeds)
  {
    hide Inv;
    var current := CurrentIds(View(s), s.feeds);
    CurrentOfFeeds(e, s, s.feeds.Keys);
    assert current == IdsOf(current, s.feeds.Keys);
  }

  ghost function IdsOf(ids: set<EntryId>, names: set<Name>): set<EntryId> {
    set id | id in ids && id.feed in names
  }

  lemma {:induction false} CurrentOfFeeds(e: Setting, s: State, names: set<Name>)
    requires Inv(e, s) && CountsOk(Holding(s), s.feeds) && names <= s.feeds.Keys
    ensures |IdsOf(CurrentIds(View(s), s.feeds), names)| <= SumOf(s.feeds, names)
    decreases names
  {
    hide Inv, Holding, View, CurrentIds;
    var ids := CurrentIds(View(s), s.feeds);
    if names != {} {
      var f :| f in names && SumOf(s.feeds, names) == SumOf(s.feeds, names - {f}) + s.feeds[f].count;
      CurrentOfFeeds(e, s, names - {f});
      CurrentOfFeed(e, s, f);
      assert IdsOf(ids, names) == IdsOf(ids, names - {f}) + IdsOf(ids, {f});
    } else {
      assert IdsOf(ids, names) == {};
    }
  }

  lemma CurrentOfFeed(e: Setting, s: State, f: Name)
    requires Inv(e, s) && f in s.feeds && Holding(s).Keys == s.feeds.Keys
    ensures |IdsOf(CurrentIds(View(s), s.feeds), {f})| == |Holding(s)[f].indicators|
  {
    var ids, keys := IdsOf(CurrentIds(View(s), s.feeds), {f}), Holding(s)[f].indicators.Keys;
    forall id ensures id in ids <==> id.feed == f && id.generation == s.feeds[f].generation && id.key in keys {
      HeldInView(e, s, f, id.key);
    }
    hide *;
    AsManyIds(ids, keys, f, s.feeds[f].generation);
  }

  lemma {:induction false} AsManyIds(ids: set<EntryId>, keys: set<Key>, f: Name, generation: nat)
    requires forall id :: id in ids <==> id.feed == f && id.generation == generation && id.key in keys
    ensures |ids| == |keys|
    decreases keys
  {
    assert forall id :: id in ids ==> id.key in keys;
    if key :| key in keys {
      AsManyIds(ids - {EntryId(key, f, generation)}, keys - {key}, f, generation);
    } else {
      assert ids == {};
    }
  }

  /** The capacity of a filter for what is held and `more`, and as many again. */
  function CapacityFor(held: nat, more: nat): nat { EmptyFilter((held + more) * 2).capacity }

  lemma {:induction false} OnceEach(ids: seq<EntryId>, all: set<EntryId>)
    requires forall i, j :: 0 <= i < j < |ids| ==> ids[i] != ids[j]
    requires forall id :: id in ids <==> id in all
    ensures |ids| == |all|
  {
    if ids != [] {
      var rest, last := ids[..|ids| - 1], ids[|ids| - 1];
      assert ids == rest + [last];
      OnceEach(rest, all - {last});
    }
  }

  /** Adds the keys of the current entries, in the order they are read. */
  method BuildFrom(e: Setting, feeds: map<Name, Current>, ids: seq<EntryId>, room: nat)
    returns (current: seq<EntryId>, filter: Filter, lengths: PrefixLengths)
    requires forall i, j :: 0 <= i < j < |ids| ==> ids[i] != ids[j]
    ensures forall id :: id in current <==> id in ids && IsCurrent(feeds, id)
    ensures forall i, j :: 0 <= i < j < |current| ==> current[i] != current[j]
    ensures filter == BuiltFilter(e, current, room) && lengths == BuiltLengths(current)
  {
    hide Add, AddLength;
    current, filter, lengths := [], EmptyFilter(room), NO_LENGTHS;
    for i := 0 to |ids|
      invariant forall id :: id in current <==> id in ids[..i] && IsCurrent(feeds, id)
      invariant forall a, b :: 0 <= a < b < |current| ==> current[a] != current[b]
      invariant filter == BuiltFilter(e, current, room) && lengths == BuiltLengths(current)
    {
      if IsCurrent(feeds, ids[i]) {
        BuiltOneMore(e, current, room, ids[i]);
        filter := Add(e.hashing, filter, e.bytes(ids[i].key));
        lengths := AddLength(lengths, ids[i].key);
        assert forall a :: 0 <= a < |current| ==> current[a] in current;
        current := current + [ids[i]];
      }
    }
  }

  lemma BuiltOneMore(e: Setting, order: seq<EntryId>, room: nat, id: EntryId)
    ensures BuiltFilter(e, order + [id], room) == Add(e.hashing, BuiltFilter(e, order, room), e.bytes(id.key))
    ensures BuiltLengths(order + [id]) == AddLength(BuiltLengths(order), id.key)
  {
    hide Add, AddLength;
    var keys := KeysRead(order + [id]);
    assert keys[..|keys| - 1] == KeysRead(order);
    assert BytesOf(e, keys)[..|keys| - 1] == BytesOf(e, KeysRead(order));
  }

  /** The loop of a lookup over the entries scanned. */
  method Collect(view: Entries, feeds: map<Name, Current>, key: Key, ids: seq<EntryId>) returns (answer: seq<Assertion>)
    requires forall id :: id in ids <==> id in view && id.key == key
    requires forall i, j :: 0 <= i < j < |ids| ==> BytesLe(ids[i].feed, ids[j].feed) && ids[i] != ids[j]
    ensures forall i, j :: 0 <= i < j < |answer| ==> BytesLt(answer[i].feed, answer[j].feed)
    ensures forall a :: a in answer <==>
              a.feed in feeds && EntryId(key, a.feed, feeds[a.feed].generation) in view
              && a == Assertion(a.feed, feeds[a.feed].version, view[EntryId(key, a.feed, feeds[a.feed].generation)])
  {
    answer := [];
    for i := 0 to |ids|
      invariant forall a, b :: 0 <= a < b < |answer| ==> BytesLt(answer[a].feed, answer[b].feed)
      invariant forall a :: a in answer <==>
        a.feed in feeds && EntryId(key, a.feed, feeds[a.feed].generation) in ids[..i]
        && a == Assertion(a.feed, feeds[a.feed].version, view[EntryId(key, a.feed, feeds[a.feed].generation)])
    {
      var id := ids[i];
      assert id in ids && ids[..i + 1] == ids[..i] + [id];
      if IsCurrent(feeds, id) {
        forall k | 0 <= k < |answer| ensures BytesLt(answer[k].feed, id.feed) {
          assert answer[k] in answer;
          var before := EntryId(key, answer[k].feed, feeds[answer[k].feed].generation);
          var j :| 0 <= j < i && ids[j] == before;
        }
        answer := answer + [Assertion(id.feed, feeds[id.feed].version, view[id])];
      }
    }
    assert ids[..|ids|] == ids;
  }

  /** What is scanned for a key is its entries, ordered by feed. */
  lemma ScanIsOfKey(e: Setting, s: State, key: Key, ids: seq<EntryId>)
    requires Inv(e, s) && SettingOk(e) && KeyOk(key)
    requires forall id :: id in ids <==> id in View(s) && InScan(e.bytes(key), EntryBytes(e, id))
    requires forall i, j :: 0 <= i < j < |ids| ==>
             BytesLe(EntryBytes(e, ids[i]), EntryBytes(e, ids[j])) && ids[i] != ids[j]
    ensures forall id :: id in ids <==> id in View(s) && id.key == key
    ensures forall i, j :: 0 <= i < j < |ids| ==> BytesLe(ids[i].feed, ids[j].feed) && ids[i] != ids[j]
  {
    ViewIdsOk(e, s);
    hide InScan, EntryKey, Inv, View, LexLe;
    forall id | id in View(s) ensures InScan(e.bytes(key), EntryBytes(e, id)) <==> id.key == key {
      ScanHoldsItsEntries(e.bytes(key), e.bytes(id.key), id.feed, id.generation);
    }
    forall i, j | 0 <= i < j < |ids| ensures BytesLe(ids[i].feed, ids[j].feed) {
      assert ids[i] in ids && ids[j] in ids;
      OrderedByFeed(e.bytes(key), ids[i].feed, ids[i].generation, ids[j].feed, ids[j].generation);
    }
  }

  /** Whatever the generations, entries of one indicator are ordered by feed. */
  lemma OrderedByFeed(indicator: Bytes, f: Bytes, g: nat, f': Bytes, g': nat)
    requires NoNul(f) && NoNul(f') && BytesLe(EntryKey(indicator, f, g), EntryKey(indicator, f', g'))
    ensures BytesLe(f, f')
  {
    var x, y := BigEndian(g, 8), BigEndian(g', 8);
    assert EntryKey(indicator, f, g) == (indicator + [0]) + (f + [0] + x);
    assert EntryKey(indicator, f', g') == (indicator + [0]) + (f' + [0] + y);
    SharedPrefixDrops(indicator + [0], f + [0] + x, f' + [0] + y);
    NulEndsAName(f, f', x, y);
    BytesOrder();
  }

  lemma NothingWritten(lengths: PrefixLengths, before: map<Key, Entry>)
    ensures AddLengths(lengths, KeysOf([])) == lengths && AddedCount(before, []) == 0
  {
  }

  lemma LengthsOneMore(lengths: PrefixLengths, chunk: Input, next: (Key, Entry))
    ensures AddLengths(lengths, KeysOf(chunk + [next])) == AddLength(AddLengths(lengths, KeysOf(chunk)), next.0)
  {
    assert KeysOf(chunk + [next])[..|chunk|] == KeysOf(chunk);
  }

  lemma NothingCarried(chunk: Input)
    ensures IsDated(map[], chunk, chunk) && AddedCount(map[], chunk) == |chunk|
  {
    NoneWereHeld(map[], chunk);
  }
}
