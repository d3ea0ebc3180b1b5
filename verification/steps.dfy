/** The store on disk as a machine: what is durable, what is written and not
    yet synced, what is in memory, and every step between, of which a crash is
    one. */
module StoreSteps {
  import opened Base
  import opened Codec
  import opened Keys
  import opened Feeds
  import opened Filters

  /** The bytes a key is stored under, and the hashing of them. */
  datatype Setting = Setting(bytes: Key -> Bytes, hashing: Hashing)

  /** The record that makes one generation of a feed the one that counts. */
  datatype Current = Current(generation: nat, version: string, count: nat)

  /** What an entry is stored under, before it is bytes. */
  datatype EntryId = EntryId(key: Key, feed: Name, generation: nat)

  type Entries = map<EntryId, Entry>

  /** A database with nothing pending: a counter, one record for each feed, and
      entries of any generation. */
  datatype Db = Db(generation: nat, feeds: map<Name, Current>, entries: Entries)

  /** A replacement being written: how much of its input is, and whether it was
      named current on disk. */
  datatype Job = Job(
    feed: Name, version: string, input: Input, generation: nat, done: nat, lengths: PrefixLengths, published: bool)

  datatype State = State(
    durable: Db,
    unsynced: seq<Entries>,            // batches written since the last synced write, in order
    feeds: map<Name, Current>,         // what readers go by
    filter: Filter,
    lengths: PrefixLengths,
    job: Option<Job>
  )

  // ---------------------------------------------------------------- reading

  /** The entries with batches written over them. */
  function Merged(entries: Entries, batches: seq<Entries>): Entries {
    if batches == [] then entries else Merged(entries, batches[..|batches| - 1]) + batches[|batches| - 1]
  }

  /** What the database answers, synced or not. */
  function View(s: State): Entries { Merged(s.durable.entries, s.unsynced) }

  predicate IsCurrent(feeds: map<Name, Current>, id: EntryId) {
    id.feed in feeds && feeds[id.feed].generation == id.generation
  }

  predicate IsSuperseded(feeds: map<Name, Current>, id: EntryId) {
    id.feed in feeds && id.generation < feeds[id.feed].generation
  }

  /** The keys that have an entry of one generation of a feed. */
  function KeysAt(entries: Entries, feed: Name, generation: nat): set<Key> {
    set id | id in entries && id.feed == feed && id.generation == generation :: id.key
  }

  /** The entries of one generation of a feed. */
  function ContentOf(entries: Entries, feed: Name, generation: nat): map<Key, Entry> {
    map key | key in KeysAt(entries, feed, generation) :: entries[EntryId(key, feed, generation)]
  }

  /** The feeds as a set of entries and what is current hold them. */
  function HeldBy(entries: Entries, feeds: map<Name, Current>): map<Name, Feed> {
    map f | f in feeds :: Feed(feeds[f].version, ContentOf(entries, f, feeds[f].generation))
  }

  /** What the store holds, to its readers. */
  function Holding(s: State): map<Name, Feed> { HeldBy(s.durable.entries, s.feeds) }

  /** What the store would hold if it were opened now. */
  function OnDisk(s: State): map<Name, Feed> { HeldBy(s.durable.entries, s.durable.feeds) }

  /** What a lookup returns: nothing if the filter says so, else the entries of
      the indicator that are current, ordered by feed as they are stored. */
  ghost predicate LookupReturns(
      e: Setting, entries: Entries, feeds: map<Name, Current>, filter: Filter, key: Key, answer: seq<Assertion>) {
    if !MayContain(e.hashing, filter, e.bytes(key)) then answer == []
    else
      && (forall i, j :: 0 <= i < j < |answer| ==> BytesLt(answer[i].feed, answer[j].feed))
      && (forall a :: a in answer <==>
            a.feed in feeds && EntryId(key, a.feed, feeds[a.feed].generation) in entries
            && a == Assertion(a.feed, feeds[a.feed].version, entries[EntryId(key, a.feed, feeds[a.feed].generation)]))
  }

  // ---------------------------------------------------------------- writing

  /** A part of a feed's new content as entries of its generation. */
  function EntriesOf(feed: Name, generation: nat, content: map<Key, Entry>): Entries {
    map id | id in (set key | key in content :: EntryId(key, feed, generation)) :: content[id.key]
  }

  /** What the feed asserted in the generation current when the job began. */
  function Before(s: State, j: Job): map<Key, Entry> {
    if j.feed in s.feeds then ContentOf(View(s), j.feed, s.feeds[j.feed].generation) else map[]
  }

  function KeysOf(input: Input): (r: seq<Key>)
    ensures |r| == |input| && forall i :: 0 <= i < |r| ==> r[i] == input[i].0
  {
    seq(|input|, i requires 0 <= i < |input| => input[i].0)
  }

  function BytesOf(e: Setting, keys: seq<Key>): (r: seq<Bytes>)
    ensures |r| == |keys| && forall i :: 0 <= i < |r| ==> r[i] == e.bytes(keys[i])
  {
    seq(|keys|, i requires 0 <= i < |keys| => e.bytes(keys[i]))
  }

  /** The filter and lengths built from the keys of the current entries, in the
      order they are read. */
  function BuiltFilter(e: Setting, order: seq<EntryId>, room: nat): Filter {
    AddAll(e.hashing, EmptyFilter(room), BytesOf(e, KeysRead(order)))
  }

  function KeysRead(order: seq<EntryId>): (r: seq<Key>)
    ensures |r| == |order| && forall i :: 0 <= i < |r| ==> r[i] == order[i].key
  {
    seq(|order|, i requires 0 <= i < |order| => order[i].key)
  }

  function BuiltLengths(order: seq<EntryId>): PrefixLengths { AddLengths(NO_LENGTHS, KeysRead(order)) }

  /** `order` reads every current entry. */
  ghost predicate ReadsCurrent(entries: Entries, feeds: map<Name, Current>, order: seq<EntryId>) {
    forall id :: id in order <==> id in entries && IsCurrent(feeds, id)
  }

  datatype Step =
    // the counter, synced; the job holds the input as it will read back
    | Begin(feed: Name, version: string, input: Input)
    | Rebuild(order: seq<EntryId>, room: nat)           // filter and lengths, by a scan of what counts
    | Chunk(n: nat)                                     // the next indicators, not yet synced
    | ChunkFails(n: nat)                                // their keys are in the filter, and the write is not done
    | TakeLengths                                       // lookups ask for the new networks from now
    | PublishDurably                                    // the feed's record, synced
    | PublishWithError                                  // it reaches the disk, and is told to have failed
    | PublishToReaders
    | GiveUp                                            // the replacement ends with an error
    | Sync(k: nat)                                      // the first batches become durable by themselves
    | Compact(dropped: set<EntryId>)                    // superseded entries are dropped
    | CrashAndReopen(k: nat, order: seq<EntryId>, room: nat)  // all but the first batches are lost

  predicate NameOk(feed: Name) { feed != [] && NoNul(feed) }

  predicate InputOk(input: Input) { forall i :: 0 <= i < |input| ==> KeyOk(input[i].0) }

  /** All of a job is written, and lookups ask for its networks. */
  predicate MayPublish(s: State) {
    && s.job.Some? && !s.job.value.published && s.job.value.done == |s.job.value.input|
    && s.lengths == s.job.value.lengths
  }

  /** The database once a job is named current in it. */
  function Named(s: State): Db
    requires s.job.Some?
  {
    var j := s.job.value;
    Db(s.durable.generation, s.durable.feeds[j.feed := CurrentOf(j)], View(s))
  }

  ghost predicate Enabled(s: State, step: Step) {
    match step
    case Begin(feed, _, input) => s.job.None? && NameOk(feed) && InputOk(input)
    case Rebuild(order, _) =>
      (s.job.Some? ==> s.job.value.done == 0 && !s.job.value.published) && ReadsCurrent(View(s), s.feeds, order)
    case Chunk(n) => s.job.Some? && !s.job.value.published && s.job.value.done + n <= |s.job.value.input|
    case ChunkFails(n) => s.job.Some? && !s.job.value.published && s.job.value.done + n <= |s.job.value.input|
    case TakeLengths => s.job.Some? && s.job.value.done == |s.job.value.input|
    case PublishDurably => MayPublish(s)
    case PublishWithError => MayPublish(s)
    case PublishToReaders => s.job.Some? && s.job.value.published
    case GiveUp => s.job.Some? && !s.job.value.published
    case Sync(k) => k <= |s.unsynced|
    case Compact(dropped) => forall id :: id in dropped ==> id in s.durable.entries && IsSuperseded(s.feeds, id)
    case CrashAndReopen(k, order, _) =>
      k <= |s.unsynced| && ReadsCurrent(Merged(s.durable.entries, s.unsynced[..k]), s.durable.feeds, order)
  }

  /** The next `n` indicators of a job. */
  function Next(j: Job, n: nat): Input
    requires j.done + n <= |j.input|
  {
    j.input[j.done..j.done + n]
  }

  function CurrentOf(j: Job): Current { Current(j.generation, j.version, |j.input|) }

  function Do(e: Setting, s: State, step: Step): State
    requires Enabled(s, step)
  {
    match step
    case Begin(feed, version, input) =>
      var generation := s.durable.generation + 1;
      s.(durable := Db(generation, s.durable.feeds, View(s)), unsynced := [],
         job := Some(Job(feed, version, StoredInput(input), generation, 0, s.lengths, false)))
    case Rebuild(order, room) =>
      var lengths := BuiltLengths(order);
      s.(filter := BuiltFilter(e, order, room), lengths := lengths,
         job := if s.job.Some? then Some(s.job.value.(lengths := lengths)) else None)
    case Chunk(n) =>
      var j := s.job.value;
      var keys := KeysOf(Next(j, n));
      s.(unsynced := s.unsynced + [EntriesOf(j.feed, j.generation, Replaced(Before(s, j), Next(j, n)))],
         filter := AddAll(e.hashing, s.filter, BytesOf(e, keys)),
         job := Some(j.(done := j.done + n, lengths := AddLengths(j.lengths, keys))))
    case ChunkFails(n) =>
      s.(filter := AddAll(e.hashing, s.filter, BytesOf(e, KeysOf(Next(s.job.value, n)))), job := None)
    case TakeLengths => s.(lengths := s.job.value.lengths)
    case PublishDurably => s.(durable := Named(s), unsynced := [], job := Some(s.job.value.(published := true)))
    case PublishWithError => s.(durable := Named(s), unsynced := [], job := None)
    case PublishToReaders =>
      s.(feeds := s.feeds[s.job.value.feed := CurrentOf(s.job.value)], job := None)
    case GiveUp => s.(job := None)
    case Sync(k) =>
      s.(durable := s.durable.(entries := Merged(s.durable.entries, s.unsynced[..k])), unsynced := s.unsynced[k..])
    case Compact(dropped) =>
      s.(durable := s.durable.(entries := s.durable.entries - dropped))
    case CrashAndReopen(k, order, room) =>
      State(s.durable.(entries := Merged(s.durable.entries, s.unsynced[..k])), [], s.durable.feeds,
            BuiltFilter(e, order, room), BuiltLengths(order), None)
  }

  // ---------------------------------------------------- the same, abstractly

  /** The feeds as readers see them, and as the store would be opened with. */
  datatype Seen = Seen(readers: map<Name, Feed>, disk: map<Name, Feed>)

  function SeenOf(s: State): Seen { Seen(Holding(s), OnDisk(s)) }

  /** The feed that a job replaces, carried over from what readers see. */
  function Replacement(readers: map<Name, Feed>, j: Job): Feed {
    Feed(j.version, Replaced(Held(readers, j.feed), j.input))
  }

  /** What a step does to both: a publishing write replaces one feed whole on
      disk, readers are given it in one step, and opening gives them the disk. */
  function Effect(seen: Seen, s: State, step: Step): Seen
    requires Enabled(s, step)
  {
    match step
    case PublishDurably => seen.(disk := seen.disk[s.job.value.feed := Replacement(seen.readers, s.job.value)])
    case PublishWithError => seen.(disk := seen.disk[s.job.value.feed := Replacement(seen.readers, s.job.value)])
    case PublishToReaders => seen.(readers := seen.readers[s.job.value.feed := Replacement(seen.readers, s.job.value)])
    case CrashAndReopen(_, _, _) => Seen(seen.disk, seen.disk)
    case _ => seen
  }

  /** A store opened for the first time. */
  const EMPTY := State(Db(0, map[], map[]), [], map[], EmptyFilter(0), NO_LENGTHS, None)
}
