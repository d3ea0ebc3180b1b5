/** Whole runs of the store: what is on disk and what readers see is the
    replacements published, in order, whatever else happened between. */
module StoreHistory {
  import opened Base
  import opened Keys
  import opened Feeds
  import opened Filters
  import opened StoreSteps
  import opened StoreSafety
  import opened StoreRuns

  ghost predicate Pending(s: State) { s.job.Some? && s.job.value.published }

  /** Every step keeps the invariant, and does to what readers see and to what
      the store would be opened with what the step is for, and nothing else. */
  lemma StepKeeps(e: Setting, s: State, step: Step)
    requires Inv(e, s) && Enabled(s, step)
    ensures Inv(e, Do(e, s, step))
    ensures SeenOf(Do(e, s, step)) == Effect(SeenOf(s), s, step)
  {
    ReadersKeep(e, s, step);
    DiskKeeps(e, s, step);
    hide Inv, Do, Holding, OnDisk, Enabled;
  }

  lemma ReadersKeep(e: Setting, s: State, step: Step)
    requires Inv(e, s) && Enabled(s, step)
    ensures Inv(e, Do(e, s, step))
    ensures Holding(Do(e, s, step)) == Effect(SeenOf(s), s, step).readers
  {
    hide Inv, Holding, Do;
    match step
    case Begin(feed, version, input) => BeginKeeps(e, s, feed, version, input);
    case Rebuild(order, room) => RebuildKeeps(e, s, order, room);
    case Chunk(n) => ChunkKeeps(e, s, n);
    case ChunkFails(n) => ChunkFailsKeeps(e, s, n);
    case TakeLengths => TakeLengthsKeeps(e, s);
    case PublishDurably => PublishDurablyKeeps(e, s);
    case PublishWithError => PublishWithErrorKeeps(e, s);
    case PublishToReaders => PublishToReadersKeeps(e, s);
    case GiveUp => GiveUpKeeps(e, s);
    case Sync(k) => SyncKeeps(e, s, k);
    case Compact(dropped) => CompactKeeps(e, s, dropped);
    case CrashAndReopen(k, order, room) => CrashKeeps(e, s, k, order, room);
  }

  lemma DiskKeeps(e: Setting, s: State, step: Step)
    requires Inv(e, s) && Enabled(s, step)
    ensures OnDisk(Do(e, s, step)) == Effect(SeenOf(s), s, step).disk
  {
    hide HeldBy, ContentOf, Merged, Replaced, JobOk, IdsOk, UnsyncedOk, CurrentReachable, DiskAhead;
    match step
    case Begin(_, _, _) =>
      SyncedDisk(e, s, |s.unsynced|);
      assert s.unsynced[..|s.unsynced|] == s.unsynced;
    case PublishDurably => NamedDisk(e, s);
    case PublishWithError => NamedDisk(e, s);
    case Sync(k) => SyncedDisk(e, s, k);
    case Compact(dropped) => CompactedDisk(e, s, dropped);
    case CrashAndReopen(k, _, _) => SyncedDisk(e, s, k);
    case _ =>
  }

  /** What the disk names and readers have not been given is that job's feed,
      replaced whole. */
  lemma PendingIsOnDisk(e: Setting, s: State)
    requires Inv(e, s) && Pending(s)
    ensures var j := s.job.value;
            j.feed in OnDisk(s) && OnDisk(s)[j.feed] == Replacement(Holding(s), j)
  {
    WrittenContent(e, s);
    MadeDurable(e, s, s.job.value.feed, s.job.value.generation);
    hide ContentOf, Replaced, View, JobOk;
  }

  // ---------------------------------------------------------------- runs

  ghost predicate IsRun(e: Setting, states: seq<State>, steps: seq<Step>) {
    && |states| == |steps| + 1 && states[0] == EMPTY
    && forall i :: 0 <= i < |steps| ==> Enabled(states[i], steps[i]) && states[i + 1] == Do(e, states[i], steps[i])
  }

  /** What was published, in order, to disk and to readers, from nothing. */
  ghost function Published(states: seq<State>, steps: seq<Step>): Seen
    requires |states| == |steps| + 1
    requires forall i :: 0 <= i < |steps| ==> Enabled(states[i], steps[i])
  {
    if steps == [] then Seen(map[], map[])
    else
      var last := |steps| - 1;
      Effect(Published(states[..last + 1], steps[..last]), states[last], steps[last])
  }

  lemma EmptySeen(e: Setting)
    ensures SeenOf(EMPTY) == Seen(map[], map[])
  {
  }

  lemma {:induction false} RunsKeep(e: Setting, states: seq<State>, steps: seq<Step>)
    requires IsRun(e, states, steps)
    ensures Inv(e, states[|steps|])
    ensures SeenOf(states[|steps|]) == Published(states, steps)
  {
    hide Inv, SeenOf, Do, Effect;
    if steps == [] {
      EmptyIsOk(e);
      EmptySeen(e);
    } else {
      var last := |steps| - 1;
      RunsKeep(e, states[..last + 1], steps[..last]);
      StepKeeps(e, states[last], steps[last]);
    }
  }

  /** The feed of the job under way. */
  function FeedOf(s: State): Option<Name> { if s.job.Some? then Some(s.job.value.feed) else None }

  /** The feeds on disk whose publication was told to have failed, and which
      readers have not been given since. */
  ghost function Untold(states: seq<State>, steps: seq<Step>): set<Name>
    requires |states| == |steps| + 1
  {
    if steps == [] then {}
    else
      var last := |steps| - 1;
      UntoldAfter(Untold(states[..last + 1], steps[..last]), FeedOf(states[last]), steps[last])
  }

  function UntoldAfter(before: set<Name>, feed: Option<Name>, step: Step): set<Name> {
    if step.CrashAndReopen? then {}
    else if feed.Some? && step.PublishWithError? then before + {feed.value}
    else if feed.Some? && step.PublishToReaders? then before - {feed.value}
    else before
  }

  ghost predicate AgreeOn(seen: Seen, f: Name) {
    (f in seen.readers <==> f in seen.disk) && (f in seen.disk ==> seen.readers[f] == seen.disk[f])
  }

  /** The disk names the feed's replacement, on its way to readers. */
  ghost predicate OnItsWay(s: State, f: Name) { Pending(s) && s.job.value.feed == f }

  predicate GivesReaders(s: State, step: Step, f: Name) {
    step.CrashAndReopen? || (step.PublishToReaders? && FeedOf(s) == Some(f))
  }

  predicate GivesDisk(s: State, step: Step, f: Name) {
    (step.PublishDurably? || step.PublishWithError?) && FeedOf(s) == Some(f)
  }

  /** Over every run readers see each feed as it is on disk, but for one on its
      way to them and those whose publication was told to have failed. */
  lemma {:induction false} ReadersSeeTheDisk(e: Setting, states: seq<State>, steps: seq<Step>, f: Name)
    requires IsRun(e, states, steps)
    requires f !in Untold(states, steps) && !OnItsWay(states[|steps|], f)
    ensures AgreeOn(SeenOf(states[|steps|]), f)
  {
    hide Inv, SeenOf, Do, AgreeOn, Effect, Enabled;
    if steps == [] {
      NoneDisagree(e, f);
    } else {
      var last := |steps| - 1;
      var s := states[last];
      RunsKeep(e, states[..last + 1], steps[..last]);
      StepKeeps(e, s, steps[last]);
      WayGoesOn(e, s, steps[last], f);
      StepAgrees(e, s, steps[last], f);
      if !GivesReaders(s, steps[last], f) { ReadersSeeTheDisk(e, states[..last + 1], steps[..last], f); }
    }
  }

  lemma NoneDisagree(e: Setting, f: Name)
    ensures AgreeOn(SeenOf(EMPTY), f)
  {
  }

  lemma WayGoesOn(e: Setting, s: State, step: Step, f: Name)
    requires Enabled(s, step)
    ensures step.PublishDurably? && FeedOf(s) == Some(f) ==> OnItsWay(Do(e, s, step), f)
    ensures OnItsWay(s, f) && !GivesReaders(s, step, f) ==> OnItsWay(Do(e, s, step), f)
    ensures step.PublishDurably? || step.PublishWithError? || step.PublishToReaders? ==> FeedOf(s).Some?
  {
    hide Merged, EntriesOf, Replaced, AddAll, AddLengths, BuiltFilter, BuiltLengths, View, StoredInput;
  }

  /** A step that gives readers a feed makes them see it as it is on disk, and no
      step that does not put it there makes them see another. */
  lemma StepAgrees(e: Setting, s: State, step: Step, f: Name)
    requires Inv(e, s) && Enabled(s, step)
    ensures GivesReaders(s, step, f) ==> AgreeOn(Effect(SeenOf(s), s, step), f)
    ensures !GivesReaders(s, step, f) && !GivesDisk(s, step, f) && AgreeOn(SeenOf(s), f) ==>
              AgreeOn(Effect(SeenOf(s), s, step), f)
  {
    if step.PublishToReaders? { PendingIsOnDisk(e, s); }
    EffectAgrees(SeenOf(s), s, step, f);
    hide *;
  }

  lemma EffectAgrees(seen: Seen, s: State, step: Step, f: Name)
    requires Enabled(s, step)
    requires step.PublishToReaders? ==>
               s.job.value.feed in seen.disk && seen.disk[s.job.value.feed] == Replacement(seen.readers, s.job.value)
    ensures GivesReaders(s, step, f) ==> AgreeOn(Effect(seen, s, step), f)
    ensures !GivesReaders(s, step, f) && !GivesDisk(s, step, f) && AgreeOn(seen, f) ==>
            AgreeOn(Effect(seen, s, step), f)
  {
    hide Replacement, ReadsCurrent, IsSuperseded, View, Merged, InputOk;
  }

  /** After any run, every key asked for is answered with exactly what was
      published to readers asserts of it. */
  lemma LookupsAnswerWhatWasPublished(
      e: Setting, states: seq<State>, steps: seq<Step>, key: Key, answer: seq<Assertion>)
    requires IsRun(e, states, steps)
    ensures var s := states[|steps|];
            LookupReturns(e, View(s), s.feeds, s.filter, key, answer)
            <==> Answers(Published(states, steps).readers, key, answer)
  {
    RunsKeep(e, states, steps);
    LookupIsExact(e, states[|steps|], key, answer);
  }

  // --------------------------------------------------- how many a feed has

  /** No feed has more indicators than it was given. */
  ghost predicate CountsOk(held: map<Name, Feed>, feeds: map<Name, Current>) {
    held.Keys == feeds.Keys && forall f :: f in feeds ==> |held[f].indicators| <= feeds[f].count
  }

  lemma {:induction false} NoMoreThanGiven(before: map<Key, Entry>, input: Input)
    ensures |Replaced(before, input)| <= |input|
  {
    if input != [] {
      var rest := Replaced(before, input[..|input| - 1]);
      NoMoreThanGiven(before, input[..|input| - 1]);
      OneKeyAtMost(rest, input[|input| - 1].0, Carried(before, input[|input| - 1].0, input[|input| - 1].1));
    }
  }

  lemma OneKeyAtMost(content: map<Key, Entry>, key: Key, entry: Entry)
    ensures |content[key := entry]| <= |content| + 1
  {
    assert content[key := entry].Keys == content.Keys + {key};
    assert |content.Keys + {key}| <= |content.Keys| + 1;
  }

  lemma {:induction false} CountsKeep(e: Setting, states: seq<State>, steps: seq<Step>)
    requires IsRun(e, states, steps)
    ensures var s := states[|steps|];
            CountsOk(Holding(s), s.feeds) && CountsOk(OnDisk(s), s.durable.feeds)
  {
    hide Inv, SeenOf, Do, Effect, CountsOk, Enabled, Holding, OnDisk;
    if steps == [] {
      NothingCounted();
    } else {
      var last := |steps| - 1;
      var s, step := states[last], steps[last];
      RunsKeep(e, states[..last + 1], steps[..last]);
      CountsKeep(e, states[..last + 1], steps[..last]);
      StepKeeps(e, s, step);
      StepCounts(e, s, step);
    }
  }

  lemma NothingCounted()
    ensures CountsOk(Holding(EMPTY), EMPTY.feeds) && CountsOk(OnDisk(EMPTY), EMPTY.durable.feeds)
  {
  }

  lemma StepCounts(e: Setting, s: State, step: Step)
    requires Enabled(s, step) && SeenOf(Do(e, s, step)) == Effect(SeenOf(s), s, step)
    requires CountsOk(Holding(s), s.feeds) && CountsOk(OnDisk(s), s.durable.feeds)
    ensures var t := Do(e, s, step);
            CountsOk(Holding(t), t.feeds) && CountsOk(OnDisk(t), t.durable.feeds)
  {
    FeedsAfter(e, s, step);
    hide Holding, OnDisk, CountsOk, Do, Replacement, ReadsCurrent, IsSuperseded, View, Merged, InputOk;
    if s.job.Some? {
      OneFeedCounts(Holding(s), s.feeds, Holding(s), s.job.value);
      OneFeedCounts(OnDisk(s), s.durable.feeds, Holding(s), s.job.value);
    }
  }

  lemma OneFeedCounts(held: map<Name, Feed>, feeds: map<Name, Current>, readers: map<Name, Feed>, j: Job)
    requires CountsOk(held, feeds)
    ensures CountsOk(held[j.feed := Replacement(readers, j)], feeds[j.feed := CurrentOf(j)])
  {
    hide Held, Replaced;
    NoMoreThanGiven(Held(readers, j.feed), j.input);
  }

  /** What is current changes where readers or the disk are given a feed. */
  lemma FeedsAfter(e: Setting, s: State, step: Step)
    requires Enabled(s, step)
    ensures step.PublishToReaders? || step.PublishDurably? || step.PublishWithError? ==> s.job.Some?
    ensures Do(e, s, step).feeds ==
            if step.CrashAndReopen? then s.durable.feeds
            else if step.PublishToReaders? then s.feeds[s.job.value.feed := CurrentOf(s.job.value)]
            else s.feeds
    ensures Do(e, s, step).durable.feeds ==
            if step.PublishDurably? || step.PublishWithError? then
              s.durable.feeds[s.job.value.feed := CurrentOf(s.job.value)]
            else s.durable.feeds
  {
    hide Merged, Replaced, EntriesOf, AddAll, AddLengths, BuiltFilter, BuiltLengths, View, StoredInput;
  }

  /** After any run, a current entry passes the filter and its network's length
      is asked for. */
  lemma CurrentEntriesAreFound(e: Setting, states: seq<State>, steps: seq<Step>, id: EntryId)
    requires IsRun(e, states, steps)
    ensures var s := states[|steps|];
            id in View(s) && IsCurrent(s.feeds, id) ==>
              MayContain(e.hashing, s.filter, e.bytes(id.key)) && Covers(s.lengths, id.key)
  {
    RunsKeep(e, states, steps);
    var s := states[|steps|];
    if IsCurrent(s.feeds, id) { CurrentIsDurable(e, s, id); }
  }

  // ------------------------------------------------------- when it was added

  /** A feed replaced again and again. */
  function ReplacedBy(before: map<Key, Entry>, inputs: seq<Input>): map<Key, Entry> {
    if inputs == [] then before else Replaced(ReplacedBy(before, inputs[..|inputs| - 1]), inputs[|inputs| - 1])
  }

  lemma {:induction false} CarriedOver(before: map<Key, Entry>, input: Input, key: Key)
    requires key in before && key in Replaced(before, input)
    ensures Replaced(before, input)[key].times[ADDED] == before[key].times[ADDED]
  {
    if input[|input| - 1].0 != key { CarriedOver(before, input[..|input| - 1], key); }
  }

  /** An indicator that every replacement names keeps the time it was added at. */
  lemma {:induction false} AddedIsKept(before: map<Key, Entry>, inputs: seq<Input>, key: Key)
    requires key in before
    requires forall i :: 0 <= i < |inputs| ==> key in KeysOf(inputs[i])
    ensures key in ReplacedBy(before, inputs)
    ensures ReplacedBy(before, inputs)[key].times[ADDED] == before[key].times[ADDED]
  {
    if inputs != [] {
      var rest, last := inputs[..|inputs| - 1], inputs[|inputs| - 1];
      AddedIsKept(before, rest, key);
      ReplacedHasOnlyKeys(ReplacedBy(before, rest), last, key);
      CarriedOver(ReplacedBy(before, rest), last, key);
    }
  }

  // -------------------------------------- publications between two reads

  /** Feeds that readers may go by at a state or after it, while the store stays
      open: each as it was, or of the job under way, or newer. */
  ghost predicate IsLater(s: State, feeds: map<Name, Current>) {
    && (forall f :: f in s.feeds ==> f in feeds)
    && (forall f :: f in feeds ==>
          || (f in s.feeds && feeds[f] == s.feeds[f])
          || (s.job.Some? && f == s.job.value.feed && feeds[f] == CurrentOf(s.job.value))
          || feeds[f].generation > s.durable.generation)
  }

  /** What entries pinned at a state say of feeds read later: of one as it was,
      what it held; of the job under way, what of its input was written; and of a
      newer one, nothing. */
  function Pinned(s: State, feeds: map<Name, Current>): map<Name, Feed> {
    map f | f in feeds :: PinnedFeed(s, f, feeds[f])
  }

  function PinnedFeed(s: State, f: Name, c: Current): Feed {
    if f in s.feeds && c == s.feeds[f] then Holding(s)[f]
    else if s.job.Some? && c.generation == s.job.value.generation && s.job.value.done <= |s.job.value.input| then
      Feed(c.version, Replaced(Held(Holding(s), f), s.job.value.input[..s.job.value.done]))
    else Feed(c.version, map[])
  }

  /** An entry pinned says what its feed is pinned to. */
  lemma PinnedIs(e: Setting, s: State, feeds: map<Name, Current>, f: Name, key: Key)
    requires Inv(e, s) && IsLater(s, feeds) && f in feeds
    ensures var id := EntryId(key, f, feeds[f].generation);
            && (key in PinnedFeed(s, f, feeds[f]).indicators <==> id in View(s))
            && (id in View(s) ==>
                  PinnedFeed(s, f, feeds[f]).indicators[key] == View(s)[id]
                      && MayContain(e.hashing, s.filter, e.bytes(key)))
  {
    hide MayContain, Covers, Replaced;
    var id := EntryId(key, f, feeds[f].generation);
    if f in s.feeds && feeds[f] == s.feeds[f] {
      HeldInView(e, s, f, key);
    } else if feeds[f].generation > s.durable.generation {
      NewerIsUnseen(e, s, id);
    } else {
      BeforeIsHeld(e, s);
      ContentIs(View(s), f, feeds[f].generation, key);
    }
    hide View, ContentOf, UnsyncedOk, IdsOk, CurrentReachable;
  }

  /** A reader that opens its iterator at a state and reads the feeds at it or
      after is answered with exactly what the pinned entries say of them. */
  lemma PinnedReads(e: Setting, s: State, feeds: map<Name, Current>, key: Key, answer: seq<Assertion>)
    requires Inv(e, s) && IsLater(s, feeds)
    ensures LookupReturns(e, View(s), feeds, s.filter, key, answer) <==> Answers(Pinned(s, feeds), key, answer)
  {
    hide Inv, View, PinnedFeed, MayContain, IsLater, LookupReturns, Answers;
    forall f | f in feeds
      ensures var id := EntryId(key, f, feeds[f].generation);
              && (key in PinnedFeed(s, f, feeds[f]).indicators <==> id in View(s))
              && (id in View(s) ==>
                    PinnedFeed(s, f, feeds[f]).indicators[key] == View(s)[id]
                        && MayContain(e.hashing, s.filter, e.bytes(key)))
      ensures PinnedFeed(s, f, feeds[f]).version == feeds[f].version
    {
      PinnedIs(e, s, feeds, f, key);
      PinnedVersion(s, f, feeds);
    }
    assert Says(e, View(s), feeds, s.filter, key, Pinned(s, feeds));
    ReturnsWhatIsSaid(e, View(s), feeds, s.filter, key, Pinned(s, feeds), answer);
  }

  lemma PinnedVersion(s: State, f: Name, feeds: map<Name, Current>)
    requires f in feeds
    ensures PinnedFeed(s, f, feeds[f]).version == feeds[f].version
  {
  }

  /** Between two states of a run without an opening, generations only grow, and
      a job under way goes on or gives way to a newer one. */
  ghost predicate Follows(s: State, t: State) {
    && IsLater(s, t.feeds) && s.durable.generation <= t.durable.generation
    && (t.job.Some? ==>
          || t.job.value.generation > s.durable.generation
          || (s.job.Some? && t.job.value.feed == s.job.value.feed && CurrentOf(t.job.value) == CurrentOf(s.job.value)))
  }

  lemma {:induction false} StatesFollow(e: Setting, states: seq<State>, steps: seq<Step>, i: nat, j: nat)
    requires IsRun(e, states, steps) && i <= j <= |steps|
    requires forall k :: i <= k < j ==> !steps[k].CrashAndReopen?
    ensures Follows(states[i], states[j])
    decreases j - i
  {
    if i < j {
      StatesFollow(e, states, steps, i, j - 1);
      StepFollows(e, states[i], states[j - 1], steps[j - 1]);
    }
  }

  lemma StepFollows(e: Setting, s: State, t: State, step: Step)
    requires Follows(s, t) && Enabled(t, step) && !step.CrashAndReopen?
    ensures Follows(s, Do(e, t, step))
  {
    hide Merged, EntriesOf, Replaced, AddAll, AddLengths, BuiltFilter, BuiltLengths, View, StoredInput;
  }

  /** In any run, a reader that opens its iterator at one state and reads the
      feeds at a later one, whatever was published between, is answered with
      exactly what the pinned entries say. */
  lemma ReaderAcrossPublications(
      e: Setting, states: seq<State>, steps: seq<Step>, i: nat, j: nat, key: Key, answer: seq<Assertion>)
    requires IsRun(e, states, steps) && i <= j <= |steps|
    requires forall k :: i <= k < j ==> !steps[k].CrashAndReopen?
    ensures LookupReturns(e, View(states[i]), states[j].feeds, states[i].filter, key, answer)
            <==> Answers(Pinned(states[i], states[j].feeds), key, answer)
  {
    assert IsRun(e, states[..i + 1], steps[..i]);
    RunsKeep(e, states[..i + 1], steps[..i]);
    StatesFollow(e, states, steps, i, j);
    hide Inv, IsLater;
    PinnedReads(e, states[i], states[j].feeds, key, answer);
  }

  /** A reader asks the filter at one state, opens its iterator at a later one and
      reads the feeds at a later one still. It is answered with exactly what was
      pinned when it opened the iterator, or, if the filter said no, when that
      said so. */
  lemma ThreeReads(
      e: Setting, states: seq<State>, steps: seq<Step>, i: nat, k: nat, j: nat, key: Key, answer: seq<Assertion>)
    requires IsRun(e, states, steps) && i <= k <= j <= |steps|
    requires forall n :: i <= n < j ==> !steps[n].CrashAndReopen?
    requires LookupReturns(e, View(states[k]), states[j].feeds, states[i].filter, key, answer)
    ensures var pinned := if MayContain(e.hashing, states[i].filter, e.bytes(key)) then states[k] else states[i];
            Answers(Pinned(pinned, states[j].feeds), key, answer)
  {
    hide View, MayContain, Pinned, Answers;
    ReaderAcrossPublications(e, states, steps, i, j, key, answer);
    ReaderAcrossPublications(e, states, steps, k, j, key, answer);
    if MayContain(e.hashing, states[i].filter, e.bytes(key)) && !MayContain(e.hashing, states[k].filter, e.bytes(key)) {
      NonePinned(e, states, steps, k, j, key);
      NoneOrFirst(answer);
    }
  }

  lemma NoneOrFirst(answer: seq<Assertion>)
    ensures answer == [] || answer[0] in answer
  {
  }

  /** What the filter says no to, no entry asserts by the feeds of then or after. */
  lemma NonePinned(e: Setting, states: seq<State>, steps: seq<Step>, k: nat, j: nat, key: Key)
    requires IsRun(e, states, steps) && k <= j <= |steps|
    requires forall n :: k <= n < j ==> !steps[n].CrashAndReopen?
    requires !MayContain(e.hashing, states[k].filter, e.bytes(key))
    ensures forall f :: f in states[j].feeds ==> EntryId(key, f, states[j].feeds[f].generation) !in View(states[k])
  {
    hide MayContain, View, Inv, IsLater, PinnedFeed;
    assert IsRun(e, states[..k + 1], steps[..k]);
    RunsKeep(e, states[..k + 1], steps[..k]);
    StatesFollow(e, states, steps, k, j);
    forall f | f in states[j].feeds ensures EntryId(key, f, states[j].feeds[f].generation) !in View(states[k]) {
      PinnedIs(e, states[k], states[j].feeds, f, key);
    }
  }

  // ------------------------------------- which answers are the old or the new

  /** The part of an answer that one feed accounts for. */
  function AssertedBy(feeds: map<Name, Feed>, feed: Name, key: Key): Option<Assertion> {
    if feed in feeds && key in feeds[feed].indicators then
      Some(Assertion(feed, feeds[feed].version, feeds[feed].indicators[key]))
    else None
  }

  lemma OthersAreSame(a: map<Name, Feed>, b: map<Name, Feed>, feed: Name)
    requires a - {feed} == b - {feed}
    ensures forall f :: f != feed ==> (f in a <==> f in b) && (f in a ==> f in b && a[f] == b[f])
  {
    forall f | f != feed ensures (f in a <==> f in b) && (f in a ==> f in b && a[f] == b[f]) {
      assert f in a - {feed} <==> f in b - {feed};
      if f in a { assert (a - {feed})[f] == (b - {feed})[f]; }
    }
  }

  /** The answer of feeds is that of others that differ in one, exactly when that
      one asserts the same of the key. */
  lemma DifferInOneFeed(a: map<Name, Feed>, b: map<Name, Feed>, feed: Name, key: Key, answer: seq<Assertion>)
    requires a - {feed} == b - {feed} && Answers(a, key, answer)
    ensures Answers(b, key, answer) <==> AssertedBy(a, feed, key) == AssertedBy(b, feed, key)
  {
    OthersAreSame(a, b, feed);
    if AssertedBy(a, feed, key) != AssertedBy(b, feed, key) {
      if AssertedBy(b, feed, key).Some? {
        assert AssertedBy(b, feed, key).value !in answer;
      } else {
        assert AssertedBy(a, feed, key).value in answer;
      }
    }
  }

  /** A reader pins the entries at any state with a job under way and goes by the
      feeds once it is published. It sees what of the input was written by then:
      the new answer exactly when that part says of the key what the whole does,
      and the old one exactly when it says what was asserted before. */
  lemma PublicationBetweenReads(e: Setting, s: State, key: Key, answer: seq<Assertion>)
    requires Inv(e, s) && s.job.Some?
    requires var j := s.job.value;
             LookupReturns(e, View(s), s.feeds[j.feed := CurrentOf(j)], s.filter, key, answer)
    ensures var j, old_ := s.job.value, Holding(s);
            var part := ReplaceFeed(old_, j.feed, j.version, j.input[..j.done]);
            var new_ := ReplaceFeed(old_, j.feed, j.version, j.input);
            && Answers(part, key, answer)
            && (Answers(new_, key, answer) <==> AssertedBy(part, j.feed, key) == AssertedBy(new_, j.feed, key))
            && (Answers(old_, key, answer) <==> AssertedBy(part, j.feed, key) == AssertedBy(old_, j.feed, key))
  {
    var j := s.job.value;
    PinnedPart(e, s);
    hide *;
    PinnedReads(e, s, s.feeds[j.feed := CurrentOf(j)], key, answer);
    PartAnswers(Holding(s), j.feed, j.version, j.input[..j.done], j.input, key, answer);
  }

  lemma PartAnswers(
      held: map<Name, Feed>, feed: Name, version: string, a: Input, b: Input, key: Key, answer: seq<Assertion>)
    requires Answers(ReplaceFeed(held, feed, version, a), key, answer)
    ensures var x, y := ReplaceFeed(held, feed, version, a), ReplaceFeed(held, feed, version, b);
            && (Answers(y, key, answer) <==> AssertedBy(x, feed, key) == AssertedBy(y, feed, key))
            && (Answers(held, key, answer) <==> AssertedBy(x, feed, key) == AssertedBy(held, feed, key))
  {
    hide *;
    var x, y := ReplaceFeed(held, feed, version, a), ReplaceFeed(held, feed, version, b);
    OthersAreKept(held, feed, version, a);
    OthersAreKept(held, feed, version, b);
    DifferInOneFeed(x, y, feed, key, answer);
    DifferInOneFeed(x, held, feed, key, answer);
  }

  lemma PinnedPart(e: Setting, s: State)
    requires Inv(e, s) && s.job.Some?
    ensures var j := s.job.value;
            && j.done <= |j.input| && IsLater(s, s.feeds[j.feed := CurrentOf(j)])
            && Pinned(s, s.feeds[j.feed := CurrentOf(j)])
                == ReplaceFeed(Holding(s), j.feed, j.version, j.input[..j.done])
  {
    hide MayContain, Covers, ContentOf, Replaced, View, IdsOk, UnsyncedOk, CurrentReachable;
  }

  /** A reader pins the entries before a generation of a feed is given out and
      goes by it. Its answer lacks the feed: it is the old one exactly when the
      feed did not name the key, and that of whatever the feed asserts now exactly
      when it does not name it now. */
  lemma GenerationBetweenReads(
      e: Setting, s: State, feed: Name, c: Current, now: map<Key, Entry>, key: Key, answer: seq<Assertion>)
    requires Inv(e, s) && c.generation > s.durable.generation
    requires LookupReturns(e, View(s), s.feeds[feed := c], s.filter, key, answer)
    ensures Answers(Holding(s) - {feed}, key, answer)
    ensures Answers(Holding(s), key, answer) <==> key !in Held(Holding(s), feed)
    ensures Answers(Holding(s)[feed := Feed(c.version, now)], key, answer) <==> key !in now
  {
    PinnedWithout(e, s, feed, c);
    hide *;
    PinnedReads(e, s, s.feeds[feed := c], key, answer);
    WithoutAnswers(Holding(s), feed, c.version, now, key, answer);
  }

  lemma WithoutAnswers(
      held: map<Name, Feed>, feed: Name, version: string, now: map<Key, Entry>, key: Key, answer: seq<Assertion>)
    requires Answers(held[feed := Feed(version, map[])], key, answer)
    ensures Answers(held - {feed}, key, answer)
    ensures Answers(held, key, answer) <==> key !in Held(held, feed)
    ensures Answers(held[feed := Feed(version, now)], key, answer) <==> key !in now
  {
    hide Answers;
    var without, with_ := held[feed := Feed(version, map[])], held[feed := Feed(version, now)];
    assert without - {feed} == held - {feed} == with_ - {feed};
    DifferInOneFeed(without, held, feed, key, answer);
    DifferInOneFeed(without, held - {feed}, feed, key, answer);
    DifferInOneFeed(without, with_, feed, key, answer);
  }

  lemma PinnedWithout(e: Setting, s: State, feed: Name, c: Current)
    requires Inv(e, s) && c.generation > s.durable.generation
    ensures IsLater(s, s.feeds[feed := c])
    ensures Pinned(s, s.feeds[feed := c]) == Holding(s)[feed := Feed(c.version, map[])]
  {
    hide MayContain, Covers, ContentOf, Replaced, View, IdsOk, UnsyncedOk, CurrentReachable;
  }

  lemma NewerIsUnseen(e: Setting, s: State, id: EntryId)
    requires Inv(e, s) && id.generation > s.durable.generation
    ensures id !in View(s)
  {
    ViewIdsOk(e, s);
  }

  lemma OthersAreKept(feeds: map<Name, Feed>, feed: Name, version: string, input: Input)
    ensures ReplaceFeed(feeds, feed, version, input) - {feed} == feeds - {feed}
    ensures Held(ReplaceFeed(feeds, feed, version, input), feed) == Replaced(Held(feeds, feed), input)
  {
  }

  /** What a job carries over is what the feed is held to assert. */
  lemma BeforeIsHeld(e: Setting, s: State)
    requires Inv(e, s) && s.job.Some?
    ensures Before(s, s.job.value) == Held(Holding(s), s.job.value.feed)
    ensures forall key :: key in Before(s, s.job.value) ==> MayContain(e.hashing, s.filter, e.bytes(key))
  {
    hide MayContain, ContentOf, Replaced, Covers;
    var feed := s.job.value.feed;
    if feed in s.feeds {
      CurrentContent(e, s, feed);
      forall key | key in Before(s, s.job.value) ensures MayContain(e.hashing, s.filter, e.bytes(key)) {
        HeldInView(e, s, feed, key);
      }
    }
  }

  // ----------------------------------------------------------------- witnesses

  /** A replacement begun, with its first indicators written. */
  function PartWritten(e: Setting, s: State, feed: Name, version: string, input: Input, n: nat): State {
    if s.job.None? && NameOk(feed) && InputOk(input) && n <= |input| then
      Do(e, Do(e, s, Begin(feed, version, input)), Chunk(n))
    else s
  }

  /** A replacement part written, written to its end and published. */
  function Finished(e: Setting, s: State): State {
    if s.job.Some? && !s.job.value.published && s.job.value.done <= |s.job.value.input| then
      var a := Do(e, s, Chunk(|s.job.value.input| - s.job.value.done));
      var b := Do(e, a, TakeLengths);
      Do(e, Do(e, b, PublishDurably), PublishToReaders)
    else s
  }

  lemma PartWrittenIs(e: Setting, s: State, feed: Name, version: string, input: Input, n: nat)
    requires Inv(e, s) && s.job.None? && NameOk(feed) && InputOk(input) && n <= |input|
    ensures var t := PartWritten(e, s, feed, version, input, n);
            && Inv(e, t) && Holding(t) == Holding(s) && t.feeds == s.feeds && t.job.Some?
            && var j := t.job.value;
               && !j.published && j.feed == feed && j.version == version && j.input == StoredInput(input)
               && j.done == n && j.generation == t.durable.generation == s.durable.generation + 1
  {
    hide Inv, Holding, Replaced, EntriesOf;
    BeginKeeps(e, s, feed, version, input);
    ChunkKeeps(e, Do(e, s, Begin(feed, version, input)), n);
  }

  lemma FinishedIs(e: Setting, s: State)
    requires Inv(e, s) && s.job.Some? && !s.job.value.published && s.job.value.done <= |s.job.value.input|
    ensures var t, j := Finished(e, s), s.job.value;
            && Inv(e, t) && t.job.None? && t.durable.generation == s.durable.generation
            && Holding(t) == ReplaceFeed(Holding(s), j.feed, j.version, j.input)
            && t.feeds == s.feeds[j.feed := CurrentOf(j)]
  {
    hide Inv, Holding, Replaced, EntriesOf, View;
    var n := |s.job.value.input| - s.job.value.done;
    var a := Do(e, s, Chunk(n));
    ChunkKeeps(e, s, n);
    var b := Do(e, a, TakeLengths);
    TakeLengthsKeeps(e, a);
    PublishDurablyKeeps(e, b);
    PublishToReadersKeeps(e, Do(e, b, PublishDurably));
  }

  /** A feed replaced whole. */
  function WholeReplacement(e: Setting, s: State, feed: Name, version: string, input: Input): State {
    Finished(e, PartWritten(e, s, feed, version, input, 0))
  }

  lemma WholeReplacementIs(e: Setting, s: State, feed: Name, version: string, input: Input)
    requires Inv(e, s) && s.job.None? && NameOk(feed) && InputOk(input)
    ensures var t := WholeReplacement(e, s, feed, version, input);
            && Inv(e, t) && t.job.None? && t.durable.generation == s.durable.generation + 1
            && Holding(t) == ReplaceFeed(Holding(s), feed, version, StoredInput(input))
            && t.feeds == s.feeds[feed := Current(s.durable.generation + 1, version, |input|)]
  {
    hide Inv, Holding, PartWritten, Finished;
    PartWrittenIs(e, s, feed, version, input, 0);
    FinishedIs(e, PartWritten(e, s, feed, version, input, 0));
  }

  lemma FinishedLengths(e: Setting, s: State)
    requires s.job.Some? && !s.job.value.published && s.job.value.done <= |s.job.value.input|
    ensures Finished(e, s).lengths == AddLengths(s.job.value.lengths, KeysOf(s.job.value.input[s.job.value.done..]))
  {
    hide Replaced, EntriesOf, View, AddAll, Merged, AddLengths, Before, KeysOf, BytesOf;
    var n := |s.job.value.input| - s.job.value.done;
    assert Next(s.job.value, n) == s.job.value.input[s.job.value.done..];
  }

  /** Lookups then ask for the networks of what was given besides. */
  lemma WholeReplacementLengths(e: Setting, s: State, feed: Name, version: string, input: Input)
    requires Inv(e, s) && s.job.None? && NameOk(feed) && InputOk(input)
    ensures WholeReplacement(e, s, feed, version, input).lengths == AddLengths(s.lengths, KeysOf(input))
  {
    var part := PartWritten(e, s, feed, version, input, 0);
    PartWrittenIs(e, s, feed, version, input, 0);
    PartWrittenLengths(e, s, feed, version, input);
    hide PartWritten, Finished, Inv, Holding;
    FinishedLengths(e, part);
    assert part.job.value.input[0..] == StoredInput(input) && KeysOf(StoredInput(input)) == KeysOf(input);
  }

  lemma PartWrittenLengths(e: Setting, s: State, feed: Name, version: string, input: Input)
    requires s.job.None? && NameOk(feed) && InputOk(input)
    ensures var part := PartWritten(e, s, feed, version, input, 0);
            part.job.Some? && part.job.value.lengths == s.lengths
  {
    hide Replaced, EntriesOf, View, AddAll, Merged, Before, BytesOf;
    var begun := Do(e, s, Begin(feed, version, input));
    assert Next(begun.job.value, 0) == [] && KeysOf([]) == [];
  }

  /** So a key that a feed asserted before and asserts after can be answered as
      if it never had. */
  lemma PublicationCanHideAFeed(e: Setting, key: Key, entry: Entry)
    requires KeyOk(key)
    ensures var s := WholeReplacement(e, EMPTY, [1], "1", [(key, entry)]);
            var t := WholeReplacement(e, s, [1], "2", [(key, entry)]);
            && key in Held(Holding(s), [1]) && key in Held(Holding(t), [1])
            && LookupReturns(e, View(s), t.feeds, s.filter, key, [])
  {
    hide WholeReplacement, Inv, Holding, View, LookupReturns, StoredInput, Replaced, Held, KeyOk, Feeds.ReplaceFeed;
    var input := [(key, entry)];
    var s := WholeReplacement(e, EMPTY, [1], "1", input);
    EmptyIsOk(e);
    WholeReplacementIs(e, EMPTY, [1], "1", input);
    WholeReplacementIs(e, s, [1], "2", input);
    NothingHeld();
    OneIsHeld(Held(map[], [1]), input, key, 0);
    OneIsHeld(Held(Holding(s), [1]), input, key, 0);
    HeldAfter(map[], [1], "1", input);
    HeldAfter(Holding(s), [1], "2", input);
    OnlyFeedIsHidden(e, s, [1], Current(s.durable.generation + 1, "2", 1), key);
  }

  lemma NothingHeld()
    ensures Holding(EMPTY) == map[] && EMPTY.job.None? && NameOk([1])
  {
  }

  lemma HeldAfter(feeds: map<Name, Feed>, feed: Name, version: string, input: Input)
    ensures Held(ReplaceFeed(feeds, feed, version, StoredInput(input)), feed)
            == Replaced(Held(feeds, feed), StoredInput(input))
    ensures feeds.Keys <= {feed} ==> ReplaceFeed(feeds, feed, version, StoredInput(input)).Keys == {feed}
  {
  }

  lemma OnlyFeedIsHidden(e: Setting, s: State, feed: Name, c: Current, key: Key)
    requires Inv(e, s) && c.generation > s.durable.generation && Holding(s).Keys <= {feed}
    ensures LookupReturns(e, View(s), s.feeds[feed := c], s.filter, key, [])
  {
    PinnedWithout(e, s, feed, c);
    PinnedReads(e, s, s.feeds[feed := c], key, []);
    hide Inv, View, Holding, LookupReturns;
    NoFeedAsserts(Holding(s)[feed := Feed(c.version, map[])], key);
  }

  lemma OneIsHeld(before: map<Key, Entry>, input: Input, key: Key, i: nat)
    requires i < |input| && input[i].0 == key
    ensures key in Replaced(before, StoredInput(input))
  {
    assert StoredInput(input)[i].0 == key;
    ReplacedHoldsKeys(before, StoredInput(input), key);
  }

  lemma NoFeedAsserts(feeds: map<Name, Feed>, key: Key)
    requires forall f :: f in feeds ==> key !in feeds[f].indicators
    ensures Answers(feeds, key, [])
  {
  }

  /** A reader that pins while a replacement is part written and reads the feeds
      after it sees part of a feed: the key written by then as it is now, and
      another that was asserted before and is asserted after not at all. */
  lemma PartOfAFeedIsSeen(e: Setting, early: Key, late: Key, entry: Entry)
    requires KeyOk(early) && KeyOk(late) && early != late
    ensures var input := [(early, entry), (late, entry)];
            var s := PartWritten(e, WholeReplacement(e, EMPTY, [1], "1", input), [1], "2", input, 1);
            var t := Finished(e, s);
            && 0 < s.job.value.done < |s.job.value.input|
            && late in Held(Holding(s), [1]) && late in Held(Holding(t), [1])
            && LookupReturns(e, View(s), t.feeds, s.filter, late, [])
            && exists now :: LookupReturns(e, View(s), t.feeds, s.filter, early, [Assertion([1], "2", now)])
  {
    hide WholeReplacement, PartWritten, Finished, Inv, Holding, View, LookupReturns, StoredInput, Replaced, Held, KeyOk,
         Feeds.ReplaceFeed;
    var input := [(early, entry), (late, entry)];
    var before := WholeReplacement(e, EMPTY, [1], "1", input);
    var s := PartWritten(e, before, [1], "2", input, 1);
    EmptyIsOk(e);
    WholeReplacementIs(e, EMPTY, [1], "1", input);
    NothingHeld();
    PartWrittenIs(e, before, [1], "2", input, 1);
    FinishedIs(e, s);
    OneIsHeld(Held(map[], [1]), input, late, 1);
    OneIsHeld(Held(Holding(before), [1]), input, late, 1);
    FirstIsReplaced(Held(Holding(before), [1]), input);
    HeldAfter(map[], [1], "1", input);
    HeldAfter(Holding(s), [1], "2", input);
    var now := OnlyPartIsSeen(e, s, early, late);
  }

  /** Of the only feed, a key written is answered and one not written is not. */
  lemma OnlyPartIsSeen(e: Setting, s: State, early: Key, late: Key) returns (now: Entry)
    requires Inv(e, s) && s.job.Some? && Holding(s).Keys <= {s.job.value.feed}
    requires s.job.value.done <= |s.job.value.input|
    requires Replaced(Held(Holding(s), s.job.value.feed), s.job.value.input[..s.job.value.done]).Keys == {early}
    requires early != late
    ensures var feeds := s.feeds[s.job.value.feed := CurrentOf(s.job.value)];
            && LookupReturns(e, View(s), feeds, s.filter, late, [])
            && LookupReturns(e, View(s), feeds, s.filter, early,
                [Assertion(s.job.value.feed, s.job.value.version, now)])
  {
    var j := s.job.value;
    var feeds := s.feeds[j.feed := CurrentOf(j)];
    var part := Replaced(Held(Holding(s), j.feed), j.input[..j.done]);
    now := part[early];
    PinnedOnly(e, s);
    OneFeedAsserts(j.feed, j.version, part, early, late);
    hide *;
    PinnedReads(e, s, feeds, late, []);
    PinnedReads(e, s, feeds, early, [Assertion(j.feed, j.version, now)]);
  }

  lemma PinnedOnly(e: Setting, s: State)
    requires Inv(e, s) && s.job.Some? && Holding(s).Keys <= {s.job.value.feed}
    ensures var j := s.job.value;
            && j.done <= |j.input| && IsLater(s, s.feeds[j.feed := CurrentOf(j)])
            && Pinned(s, s.feeds[j.feed := CurrentOf(j)]) ==
               map[j.feed := Feed(j.version, Replaced(Held(Holding(s), j.feed), j.input[..j.done]))]
  {
    PinnedPart(e, s);
    hide Inv, Holding, Pinned, Replaced, IsLater;
  }

  lemma OneFeedAsserts(feed: Name, version: string, content: map<Key, Entry>, key: Key, other: Key)
    requires key in content && other !in content
    ensures Answers(map[feed := Feed(version, content)], key, [Assertion(feed, version, content[key])])
    ensures Answers(map[feed := Feed(version, content)], other, [])
  {
  }

  lemma FirstIsReplaced(held: map<Key, Entry>, input: Input)
    requires |input| == 2
    ensures Replaced(held, StoredInput(input)[..1]).Keys == {input[0].0}
  {
    var first := StoredInput(input)[..1];
    assert first[..0] == [];
  }
}
