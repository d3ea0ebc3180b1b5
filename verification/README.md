# Goliath, modelled and proved

Goliath is a detection platform: it normalizes events, matches rules against
them, looks their values up in threat intelligence and in context, and works out
which identifiers are one entity. This project models the parts of it in which a
fast, staged or indexed form has to agree with something simple, and proves that
it does. `dafny verify dfyconfig.toml` checks all of it.

## The parts

**Rules against events** (`crates/goliath-match`). `Rules.ReferenceMatches` is
the reference evaluator's answer. The engine groups rules by class, computes
equal tests once, scans each source of texts once for all literals, wakes only
the rules a found literal can make true, and keeps its memory from event to
event, marked by a 32-bit generation that wraps. `base`, `text`, `glob`, `hir`,
`exact`, `required`, `event`, `rules`, `sharing`, `compiled`, `growth`, `waking`,
`builder`, `hits`, `scratch`, `scan`, `evaluate`, `engine`, `agreement` and
`promises` carry it. `Engines.MatchesInto` is exact for all rule lists and all
events against `Engines.EngineMatches`, and `Agreement` says, rule by rule, when
that is the reference's answer. Expressions are trees with the language they match;
assertions in them match the empty string where an arbitrary predicate allows.

**The store of indicators** (`crates/goliath-intel`). `StoreSteps` is the store
on disk as a machine: what is durable, what is written and not synced, what
readers go by, and a replacement under way. Its steps are those of the code and
those that may happen to it: compaction, a background sync, a publishing write
that reaches the disk and is told to have failed, a crash to any prefix of what
was not synced, and opening again. `StoreHistory` proves, over every run, that a
lookup is answered by exactly the replacements published, in order, and what one
is answered whose reads are apart.
`RocksStores.RocksStore` is the store as an object whose every method moves along
that machine; `MemoryStores.MemoryStore` refines the same abstract feeds;
`Filters.Bloom` is the filter over words; `Codec` is how keys and values are
bytes; `Lookups` looks an observable up, and `LookupRuns` does with
its reads apart.

**Entities** (`crates/goliath-graph`). `Partitions` is what following edges makes
of identifiers, `UnionFind.Groups` the structure that computes it, halving the
paths it walks, and `Resolving.Resolve` the whole resolution, of which
`Resolutions` says what it means and `Provenance` why each row is there.

**Context** (`crates/goliath-enrich`). `Contexts` is a plain scan of all records
and what it finds; `Snapshots.Snapshot` finds the same by its indexes.

**Normalizing** (`crates/goliath-normalize`). `Trees` and `Normalizing` are the
writes of fields into an event and what a definition accepts; `SourcePaths` is the
search for what a path names in a record, and `Unmapped` what an event keeps of a
record beside its fields; `Framing` frames syslog messages; `Rows` reads
comma-separated values.

**Dates** (`crates/goliath-gen`). `Calendar` computes dates from days against the
proleptic Gregorian calendar.

## What differs from what the code says of itself

- A regular expression over a boolean is tested on `true` or `false` by the
  reference and passed over by the engine. They agree for every expression
  exactly when each boolean its paths reach has its text in a string or a number
  there too (`Agreement.BooleansUnreadExactlyWhenEchoed`), and for one expression
  exactly when the booleans it accepts come with another value it accepts
  (`Agreement.BooleansUnreadExactly`); `Agreement.BooleanDivides` is an event on
  which they do not.
- The engine computes tests that serialize alike as one, and an infinite number
  serializes as `null` whatever its sign, so two rules of one class that compare
  with different infinities share the first one's answer
  (`Agreement.InfinitiesAreConfused`). Which numbers among the values tell two
  such tests apart is `Agreement.BoundsAgree`, operator by operator
  (`Agreement.WrittenAlikeAgreeExactly`). A rule is answered as the reference
  answers it whenever neither divides one of its own tests, whatever the other
  rules are (`Agreement.EngineAnswersAsReference`), and a rule of one test only
  then (`Agreement.TestsWrittenAlikeAgreeExactly`).
- A reader of the store opens its iterator before it reads what is current, though
  the store promises a feed as it was or as it is. It is answered with what the
  entries pinned say of the feeds read later, whatever is published between
  (`StoreHistory.ThreeReads`). If a replacement was part written when it pinned
  and is published when it reads, it sees that part of the feed and no more: the
  new answer exactly when the part says of the key what the whole does, the old
  one exactly when it says what was asserted before
  (`StoreHistory.PublicationBetweenReads`; `StoreHistory.PartOfAFeedIsSeen` is a
  run in which one key is answered as new and another not at all). If the
  replacement began after it pinned, the answer lacks the feed
  (`StoreHistory.GenerationBetweenReads`, `StoreHistory.PublicationCanHideAFeed`).
- A lookup of an address reads the lengths in use and then each key by itself. Its
  hits are each what its own key's reads saw, of the networks whose length was in use
  when the lengths were read (`LookupRuns.LookupAcrossARun`), so it can miss an
  address that a feed names before and after (`LookupRuns.BothNetworksAreMissed`).
- An error from replacing a feed is said to leave the feed as it was. The last
  thing a replacement may do is build its filter again, and an error there is
  returned after the feed was replaced. Where nothing else fails it is returned
  exactly when the filter, rebuilt first if it had no room, counts more keys with
  the input than it was sized for (`RocksStores.RocksStore.ReplaceFeed`), as in
  `RocksStores.ErrorAfterReplacement`. It never is when the iterator said how many
  indicators it has, unless it has none and the filter was full before.
- A publishing write may be told to have failed and be on disk all the same.
  Readers then go on with the feed as it was, and the store opens with it replaced
  (`StoreHistory.ReadersSeeTheDisk`, `RocksStores.ReplacedAfterError`).
- An assertion stored with a confidence over 100 reads back with 100
  (`Codec.DecodeUndoesEncode`), so the store on disk and the one in memory hold a
  feed alike exactly when the last assertion of each of its indicators has at most
  100 (`Feeds.StoresAgreeExactly`).
- A snapshot is said to give a record that ended if a source lists an identifier
  only in records that did. The code gives it whenever none of the source's
  records holds (`Contexts.EndedIsFound`), as beside one that has not begun
  (`Contexts.EndedBesideOneToCome`).
- Nothing a source sends is said to be dropped. Of a listed object, a member that is
  not null is saved exactly when no path used up names it and one of its two names
  is free or has an equal value at its turn, or the first reading of a field's path
  leads to it and the field converts it or is the last of its name to fail, or the
  last has an equal value (`Unmapped.MemberIsSavedExactly`). Each part fails of some
  record: a member whose names are both taken (`Unmapped.MemberIsDropped`), one that
  a path names and does not read (`Unmapped.OtherReadingIsDropped`), and a value that
  did not convert and whose name another such value takes
  (`Unmapped.FirstFailureIsDropped`). Nothing is dropped where no member's path is
  also a name, no two different failures have one name, and every path used up reads
  the members it names (`Unmapped.NothingIsDropped`); what is saved is in the event
  (`Unmapped.SavedIsInEvent`).
- Definitions whose targets overlap are said to be rejected, so that the way of a
  write is always clear. Two targets that spell one index in two ways are both
  accepted and the first one's value is lost (`Normalizing.TwoSpellingsCollide`);
  an index after an index is accepted and what is written there is always lost
  (`Normalizing.IndexAfterIndexIsLost`). Two targets never interfere exactly when
  their paths part, both by name or both by index (`Trees.TargetsKeepApartExactly`).

## Model

| member | source | states |
|---|---|---|
| Glob.Search | crates/goliath-sigma/src/value.rs:178-232 | the backtracking search with one remembered star finds a match exactly when the pattern, read as a recursive definition, matches the text |
| Glob.LaterStarSubsumes | crates/goliath-sigma/src/value.rs:178-232 | retrying only the last star is enough: what an earlier star could still reach, the later one can |
| Glob.EqualsShape | crates/goliath-match/src/engine.rs:775-781 | a lone literal matches exactly the text itself |
| Glob.ContainsShape | crates/goliath-match/src/engine.rs:775-781 | a literal between two stars matches exactly the texts that contain it |
| Glob.StartsWithShape | crates/goliath-match/src/engine.rs:775-781 | a literal before a star matches exactly the texts that start with it |
| Glob.EndsWithShape | crates/goliath-match/src/engine.rs:775-781 | a literal after a star matches exactly the texts that end with it |
| Glob.LiteralIsContained | crates/goliath-match/src/engine.rs:795-804 | every text a pattern matches contains each of its literals |
| Exact.FindExact | crates/goliath-match/src/required.rs:128-155 | the loops over parts and branches compute the exact texts, and give up where the specification does |
| Exact.FindSameFolding | crates/goliath-match/src/required.rs:223-234 | the loop finds the one character all members of a class fold to, if there is one |
| Exact.ExactIsComplete | crates/goliath-match/src/required.rs:128-155 | if an expression has exact texts, the folding of every text it matches is one of them |
| Exact.ExactIsSpoken | crates/goliath-match/src/required.rs:128-155 | and each of them is the folding of a text the expression can speak: none is idle |
| Required.FindRequired | crates/goliath-match/src/required.rs:62-117 | the loop that joins runs computes the required literals, as the recursive specification does |
| Required.RequiredIsContained | crates/goliath-match/src/required.rs:62-86 | by induction over the expression: the folding of every match contains a member of its required set |
| Required.RunsAreContained | crates/goliath-match/src/required.rs:88-117 | the run-joining loop keeps, at each part, that every set found is contained and the text ends with a member of the run |
| Required.LiteralsAreRequired | crates/goliath-match/src/required.rs:41-60 | a folded text that holds a match anywhere contains one of the literals, so a text in which none is found need not be searched; each is long enough |
| Sharing.FirstIsKept | crates/goliath-match/src/engine.rs:674-683 | the first test seen with a key stays the one that key stands for |
| Sharing.SharedIsKept | crates/goliath-match/src/engine.rs:674-683 | the condition a compiled node computes is not changed by tests compiled after it |
| Sharing.SharedIsOwn | crates/goliath-match/src/engine.rs:674-683 | a condition is computed as written exactly when each of its tests is the first that serializes so |
| Compiled.SourceReadsWhatTestsCompare | crates/goliath-match/src/engine.rs:425-447 | what a source reads of a pooled value is the text a string test compares, folded or not |
| Compiled.PredNeedsAtoms | crates/goliath-match/src/engine.rs:511-561 | a predicate with literals holds only if one of them occurs in its source |
| Compiled.ConditionNeedsTrigger | crates/goliath-match/src/engine.rs:837-858 | a condition that holds has a literal of its trigger in the event, through the cheapest operand of an And and the union over an Or |
| Growth.ShapeDecidesPattern | crates/goliath-match/src/engine.rs:772-813 | a shaped pattern matches a text exactly when its flag's condition on the literal holds |
| Growth.StringTestReadsSource | crates/goliath-match/src/semantics.rs:92-145 | a string test holds exactly when its pattern matches a text of its source |
| Growth.MeaningKept | crates/goliath-match/src/engine.rs:581-652 | what a node means is kept as sources, literals and predicates are added |
| Waking.WakeLists | crates/goliath-match/src/engine.rs:603-614 | every rule with a trigger is in the lists of all its trigger's literals, and every other is evaluated always |
| Waking.GlobalIsInjective | crates/goliath-match/src/engine.rs:486-488 | literals of different sources have different numbers |
| Building.GroupBuilder.SourceOf | crates/goliath-match/src/engine.rs:747-758 | a source is added once, and adding it changes no meaning |
| Building.GroupBuilder.LiteralOf | crates/goliath-match/src/engine.rs:760-770 | a literal is added once to its source, and adding it changes no meaning |
| Building.GroupBuilder.StringPredicate | crates/goliath-match/src/engine.rs:772-813 | the predicate of a pattern is true of an event exactly when the string test is |
| Building.GroupBuilder.PredicateOf | crates/goliath-match/src/engine.rs:674-745 | a leaf's predicate means the first test that serializes as it does; an error exactly when its expression does not compile |
| Building.GroupBuilder.NodeOf | crates/goliath-match/src/engine.rs:654-672 | a compiled condition is true of exactly the events the condition is, its tests shared; an error exactly when the reference has one |
| Building.GroupBuilder.Build | crates/goliath-match/src/engine.rs:581-652 | a group's rules mean their conditions and are woken by their triggers; an error exactly when a condition does not compile |
| Building.LiteralsSuffice | crates/goliath-match/src/engine.rs:698-711 | an expression's required literals, found in its folded source, are all it need wait for |
| Hits.FlagsAddUp | crates/goliath-match/src/engine.rs:343-367 | a flag set by any occurrence in any text stays, and flags of several texts combine |
| Hits.ReportIsExact | crates/goliath-match/src/engine.rs:343-367 | over an automaton's report of all overlapping occurrences, each flag is set exactly when some occurrence sets it |
| Hits.ScannedMeans | crates/goliath-match/src/engine.rs:343-367 | after one text more, a literal's flags mean contained in, prefix of, suffix of, or equal to some text |
| Scratches.Gather | crates/goliath-match/src/engine.rs:425-447 | the texts of a source are gathered into buffers used before, exactly those and in order |
| Scratches.GroupScratch.NextGeneration | crates/goliath-match/src/engine.rs:289-297 | no mark equals the new generation, even when the 32-bit counter wraps and all marks are cleared |
| Scanning.ScanAll | crates/goliath-match/src/engine.rs:341-367 | after the scan every literal's flags are exact for its source, and every literal with a flag is listed |
| Evaluation.ChooseCandidates | crates/goliath-match/src/engine.rs:369-382 | the candidates are the untriggered rules and those a found literal wakes, each once |
| Evaluation.HoldingIsCandidate | crates/goliath-match/src/engine.rs:369-382 | no rule that is not a candidate could hold |
| Evaluation.AskPredicate | crates/goliath-match/src/engine.rs:511-561 | a predicate asked of the flags and the texts gathered answers as its meaning on the event does |
| Evaluation.AskNode | crates/goliath-match/src/engine.rs:490-509 | a node asked through the memo answers as its meaning does, and every mark of this generation stays right |
| Evaluation.Evaluate | crates/goliath-match/src/engine.rs:338-418 | a group adds exactly the positions of its rules that hold, and leaves all hits zero and none listed |
| Evaluation.Reset | crates/goliath-match/src/engine.rs:413-416 | the literals found are zeroed and the list emptied, so the scratch is idle again |
| Engines.New | crates/goliath-match/src/engine.rs:153-180 | compiling succeeds exactly when the reference compiles every condition, and every rule is in the one group of its class |
| Engines.MatchesInto | crates/goliath-match/src/engine.rs:225-241 | for every event and any idle scratch, of this engine or another, exactly the indices of the rules the engine answers, ascending, each once |
| Engines.GroupAdds | crates/goliath-match/src/engine.rs:225-241 | what one group adds is its rules that match, none matched before |
| Agreement.EngineAnswersAsReference | crates/goliath-match/src/reference.rs:82-125 | in any rule list, each rule none of whose own tests the event divides is matched exactly when the reference matches it, whatever the other rules are |
| Agreement.BooleansUnreadExactlyWhenEchoed | crates/goliath-match/src/semantics.rs:80-90 | passing booleans over is the same as reading them, for every expression, exactly when each one's text is in the pool otherwise |
| Agreement.UndividedReadAlike | crates/goliath-match/src/semantics.rs:77-135 | a whole condition, its tests shared and its expressions blind to booleans, is answered as it reads wherever none of its tests is divided |
| Agreement.BooleanDivides | crates/goliath-match/src/semantics.rs:147-154 | an event on which reference and engine differ: an expression that matches `true`, over a boolean |
| Agreement.TestsWrittenAlikeAgreeExactly | crates/goliath-match/src/engine.rs:674-683 | in any rule list, a rule of one test is answered as the reference answers it, on events of its class, exactly when the event does not divide the test |
| Agreement.InfinitiesAreConfused | crates/goliath-match/src/engine.rs:674-683 | a rule list and an event on which the shared key gives the wrong answer |
| Agreement.WrittenAlikeAgreeExactly | crates/goliath-match/src/semantics.rs:104-125 | two tests with one key answer alike exactly under a condition on the pooled numbers, which it gives for each operator and pair of bounds |
| Agreement.BooleansUnreadExactly | crates/goliath-match/src/semantics.rs:80-90 | passing booleans over changes nothing for one expression exactly when a boolean it accepts comes with another value it accepts |
| Agreement.AllBuiltOfTestsAgreeExactly | crates/goliath-match/src/engine.rs:654-683 | every condition built of some tests is answered as the reference answers it exactly when the event divides none of the tests |
| Agreement.WrittenFirstIsUndivided | crates/goliath-match/src/engine.rs:674-683 | a rule whose shared condition is its own and whose booleans are echoed is never divided |
| PromisesKept.PromisesCanBeKept | crates/goliath-match/src/engine.rs:26-39 | whatever parses expressions, a world exists in which the search and the matching keep their contracts |
| Addresses.HoldsIsMasked | crates/goliath-intel/src/key.rs:373-384 | a network without host bits holds an address exactly when masking the address to its length gives the network, lengths 0 and full included |
| Addresses.MaskedIsCanonical | crates/goliath-enrich/src/record.rs:259-276 | a masked address has no host bits left and holds the address |
| Codec.SplitUndoesEntryKey | crates/goliath-intel/src/rocks.rs:423-445 | an entry's key splits into what made it, whatever NULs the generation's bytes hold |
| Codec.ScanHoldsItsEntries | crates/goliath-intel/src/rocks.rs:245-257 | the range scanned for an indicator holds exactly that indicator's entries |
| Codec.EntriesAreOrderedByFeed | crates/goliath-intel/src/rocks.rs:245-279 | an indicator's entries stand in the order of their feeds' names, then of their generations |
| Codec.DecodeUndoesEncode | crates/goliath-intel/src/rocks.rs:474-509 | an assertion reads back for every subset of the five times exactly when its confidence is at most 100; its times always do |
| Codec.Encode | crates/goliath-intel/src/rocks.rs:474-492 | the loop over the times writes the specified bytes, with the bit of each time present |
| Codec.Decode | crates/goliath-intel/src/rocks.rs:494-509 | the loop over the shrinking rest reads what the specification reads, errors included |
| Filters.AllAreKept | crates/goliath-intel/src/bloom.rs:55-67 | what was ever added may be contained, and nothing is lost by later adds |
| Filters.BlockIsInRange | crates/goliath-intel/src/bloom.rs:74-77 | the scaled block index is in bounds for every hash |
| Filters.Bloom.AddKey | crates/goliath-intel/src/bloom.rs:55-62 | the words hold the old bits and those of the key |
| Filters.Bloom.Probe | crates/goliath-intel/src/bloom.rs:65-67 | the words answer as the set of bits does |
| Keys.NetworkKeyIsOk | crates/goliath-intel/src/key.rs:387-399 | a network as written becomes a key without host bits exactly when its length fits its family |
| Keys.AllAreCovered | crates/goliath-intel/src/key.rs:331-347 | the length of every network added is asked for, and none added before is lost |
| Keys.NetworksAreThese | crates/goliath-intel/src/key.rs:349-361 | the networks asked for are the masked address at exactly the lengths in use |
| Keys.NetworksAreLongestFirst | crates/goliath-intel/src/key.rs:349-361 | longest prefix first |
| Feeds.AnswerIsUnique | crates/goliath-intel/src/store.rs:32-32 | what the feeds assert of a key, ordered by feed, is one answer |
| Feeds.ReplacedInTwo | crates/goliath-intel/src/rocks.rs:338-345 | replacing in chunks is replacing at once |
| Feeds.StoresAgreeExactly | crates/goliath-intel/src/rocks.rs:494-509 | what is stored of a replacement and what is given are the same feed exactly when the last assertion of each indicator has a confidence within 100 |
| Feeds.StoredIsCarried | crates/goliath-intel/src/rocks.rs:398-414 | carrying a time over and then storing is storing and then carrying |
| StoreSafety.LookupIsExact | crates/goliath-intel/src/rocks.rs:238-279 | where the invariant holds a lookup through filter, scan and generation answers exactly what the feeds assert |
| StoreRuns.BeginKeeps | crates/goliath-intel/src/rocks.rs:299-309 | giving out a generation keeps the invariant and what readers see |
| StoreRuns.RebuildKeeps | crates/goliath-intel/src/rocks.rs:202-234 | building the filter and the lengths again keeps every current entry reachable |
| StoreRuns.ChunkKeeps | crates/goliath-intel/src/rocks.rs:379-419 | a chunk adds what its part of the input says to the new generation, with the times carried over, and changes nothing readers see |
| StoreRuns.ChunkFailsKeeps | crates/goliath-intel/src/rocks.rs:408-418 | a write that fails leaves keys in the filter and nothing else |
| StoreRuns.TakeLengthsKeeps | crates/goliath-intel/src/rocks.rs:347-348 | asking for the new networks before they are current loses none of the old |
| StoreRuns.PublishDurablyKeeps | crates/goliath-intel/src/rocks.rs:350-358 | the one synced write keeps the invariant, and readers see no change yet |
| StoreRuns.PublishWithErrorKeeps | crates/goliath-intel/src/rocks.rs:356-358 | a publishing write that is on disk though told to have failed keeps the invariant, and readers see what they saw |
| StoreRuns.NamedDisk | crates/goliath-intel/src/rocks.rs:350-358 | what the store would open with after that write is one feed replaced, carried over from what readers see |
| StoreRuns.PublishToReadersKeeps | crates/goliath-intel/src/rocks.rs:359-362 | readers then see the feed replaced whole, and no other feed changed |
| StoreRuns.GiveUpKeeps | crates/goliath-intel/src/rocks.rs:379-419 | an error before publication leaves the feed as it was |
| StoreRuns.SyncKeeps | crates/goliath-intel/src/rocks.rs:408-419 | batches that become durable by themselves change nothing readers see |
| StoreRuns.CompactKeeps | crates/goliath-intel/src/rocks.rs:99-118 | the compaction filter drops nothing anyone reads, nor anything being written |
| StoreRuns.CrashKeeps | crates/goliath-intel/src/rocks.rs:90-156 | after losing any suffix of what was not synced, the store opened again holds what the last publishing write left |
| StoreHistory.StepKeeps | crates/goliath-intel/src/rocks.rs:285-373 | every step keeps the invariant, and does to what readers see and to what would be opened exactly what it is for: one feed replaced whole, or nothing |
| StoreHistory.RunsKeep | crates/goliath-intel/src/rocks.rs:285-373 | over every run, what is on disk and what readers see are the replacements published to each, in order |
| StoreHistory.ReadersSeeTheDisk | crates/goliath-intel/src/rocks.rs:356-362 | over every run readers see each feed as the disk has it, but for one on its way to them and those whose publication was told to have failed |
| StoreHistory.CountsKeep | crates/goliath-intel/src/rocks.rs:350-355 | over every run no feed holds more indicators than its record counts |
| StoreHistory.LookupsAnswerWhatWasPublished | crates/goliath-intel/src/rocks.rs:238-279 | after any run a lookup is answered with exactly what was published to readers, as it was stored |
| StoreHistory.CurrentEntriesAreFound | crates/goliath-intel/src/bloom.rs:65-67 | after any run every current entry passes the filter and its network's length is asked for |
| StoreHistory.AddedIsKept | crates/goliath-intel/src/rocks.rs:389-405 | an indicator named by every replacement keeps the time it was first added, over any number of them |
| StoreHistory.PublicationBetweenReads | crates/goliath-intel/src/rocks.rs:253-267 | a reader pinned at any state of a replacement and reading the feeds after it is answered from what was written by then: new, or old, exactly when that part says of the key what the whole does, or what was asserted before |
| StoreHistory.PublicationCanHideAFeed | crates/goliath-intel/src/rocks.rs:253-267 | a run in which a key asserted before and after is answered with nothing |
| StoreHistory.PartOfAFeedIsSeen | crates/goliath-intel/src/rocks.rs:253-267 | a run in which a reader is answered with one key of a replacement and not with another, asserted before and after |
| StoreHistory.GenerationBetweenReads | crates/goliath-intel/src/rocks.rs:253-267 | pinned before a generation is given out, an answer lacks its feed: it is the old one, or the one of whatever the feed holds now, exactly when that does not name the key |
| StoreHistory.PinnedReads | crates/goliath-intel/src/rocks.rs:253-267 | entries pinned at a state answer, by feeds read there or later, exactly what they say of each: as it was, the part written, or nothing |
| StoreHistory.ReaderAcrossPublications | crates/goliath-intel/src/rocks.rs:253-267 | in any run, whatever is published between the pin and the read of the feeds, the answer is what the pinned entries say |
| StoreHistory.ThreeReads | crates/goliath-intel/src/rocks.rs:240-267 | the same with the filter asked at a state before the pin |
| DiskStores.DateChunk | crates/goliath-intel/src/rocks.rs:387-405 | reading only what the filter may hold dates the chunk as reading everything would, and counts exactly the new |
| DiskStores.Gather | crates/goliath-intel/src/rocks.rs:406-415 | the batch is the chunk's replaced content as it will read back, as entries of the generation, and the filter has all its keys |
| DiskStores.FoundAreTheRest | crates/goliath-intel/src/rocks.rs:386-405 | those found and those new are together the chunk |
| RocksStores.RocksStore.Assertions | crates/goliath-intel/src/rocks.rs:238-279 | exactly what the feeds hold of the key, ordered by feed |
| RocksStores.RocksStore.ReplaceFeed | crates/goliath-intel/src/rocks.rs:285-373 | the feed replaced whole with exact counts, or an error and the feed as it was, but for the last rebuild, whose error is returned exactly when the filter is over full; what the disk holds in every case, a publishing write that reached it included |
| RocksStores.RocksStore.WriteGeneration | crates/goliath-intel/src/rocks.rs:299-345 | everything before the publishing write: the input as a new generation, and how many keys the filter counts and was sized for then |
| RocksStores.RocksStore.CountedIsEnough | crates/goliath-intel/src/rocks.rs:311-326 | where the iterator says how many indicators it has, the filter has room for them |
| RocksStores.CurrentAreGiven | crates/goliath-intel/src/rocks.rs:203-210 | no more entries are current than the feeds' counts add up to |
| RocksStores.ErrorAfterReplacement | crates/goliath-intel/src/rocks.rs:364-367 | an input whose replacement returns an error after the feed was replaced |
| RocksStores.ReplacedAfterError | crates/goliath-intel/src/rocks.rs:356-358 | a publishing write told to have failed, and the store opened again with the feed replaced |
| RocksStores.RocksStore.WriteAll | crates/goliath-intel/src/rocks.rs:330-345 | the loop in chunks of ten thousand writes all of the input as it is stored, counts its keys in the filter, and changes nothing readers see |
| RocksStores.RocksStore.WriteNext | crates/goliath-intel/src/rocks.rs:379-419 | one chunk written and counted, or given up with nothing readers see changed |
| RocksStores.RocksStore.BuildFilter | crates/goliath-intel/src/rocks.rs:202-234 | the filter and lengths are those of the current entries, counted and sized, or stay on an error |
| RocksStores.RocksStore.Publish | crates/goliath-intel/src/rocks.rs:346-362 | the lengths, the write and the readers in that order; on an error readers keep the feed as it was, and the disk has it replaced exactly if the write reached it |
| RocksStores.RocksStore.Compact | crates/goliath-intel/src/rocks.rs:186-192 | exactly the superseded entries are gone |
| RocksStores.RocksStore.CrashAndReopen | crates/goliath-intel/src/rocks.rs:90-156 | at any point the store opens with what the disk names, each feed whole |
| RocksStores.ScanIsOfKey | crates/goliath-intel/src/rocks.rs:245-257 | what is scanned for a key is its entries, ordered by feed |
| MemoryStores.MemoryStore.ReplaceFeed | crates/goliath-intel/src/store.rs:107-153 | the same abstract replacement, with distinct new indicators counted once |
| MemoryStores.MemoryStore.Assertions | crates/goliath-intel/src/store.rs:89-98 | the same abstract answer |
| MemoryStores.AnswersAfter | crates/goliath-intel/src/store.rs:136-147 | removing a feed's assertion, pushing the new one and sorting gives the answer after the replacement |
| MemoryStores.CarriedLate | crates/goliath-intel/src/store.rs:124-135 | carrying times over after the input was gathered is carrying them over as it is read |
| Lookups.Lookup | crates/goliath-intel/src/matcher.rs:71-82 | exactly the stored, valid indicators that are the value or a network that holds it, the value first and longer networks before shorter |
| Lookups.HitOf | crates/goliath-intel/src/matcher.rs:88-105 | a hit exactly when some feed asserts the indicator at the time, with every such assertion, suppressed as the observed value is |
| Lookups.AskedFor | crates/goliath-intel/src/key.rs:349-361 | a stored network holds an address exactly when it is among those asked for |
| Lookups.AskedExactly | crates/goliath-intel/src/key.rs:349-361 | what names the value is asked for exactly when it is the value or its length is in use |
| LookupRuns.LookupAcrossARun | crates/goliath-intel/src/matcher.rs:71-105 | over a run, whatever is published between the reads of a lookup, there is a hit for a key exactly when it names the value, its length was in use at the read of the lengths, and its own reads saw it asserted; each hit is what those saw, in order |
| LookupRuns.HeldIsAsked | crates/goliath-intel/src/matcher.rs:77-79 | a network that readers saw asserted when the lengths were read is asked for |
| LookupRuns.AtOneState | crates/goliath-intel/src/matcher.rs:71-82 | reads all at one state answer exactly what names the value and is asserted there |
| LookupRuns.BothNetworksAreMissed | crates/goliath-intel/src/matcher.rs:77-79 | a publication between the lengths and the keys by which an address named before and after has no hit |
| Identifiers.TextTellsApart | crates/goliath-graph/src/identifier.rs:291-301 | an identifier's text tells it from every other |
| Identifiers.NameOrder | crates/goliath-graph/src/identifier.rs:265-280 | rank and then text is a total order of identifiers |
| Partitions.DifferentAreNeverTogether | crates/goliath-graph/src/resolve.rs:285-299 | no group holds both identifiers of a pair said to be different |
| Partitions.EveryEdgeIsSettled | crates/goliath-graph/src/resolve.rs:285-299 | every edge left between two groups has a pair with one identifier in each |
| Partitions.GroupsArePartition | crates/goliath-graph/src/resolve.rs:285-299 | the groups partition exactly the identifiers of the edges |
| Partitions.TogetherAreConnected | crates/goliath-graph/src/resolve.rs:285-299 | identifiers of one group are connected by edges |
| Partitions.ComponentsExactlyWithoutConflict | crates/goliath-graph/src/resolve.rs:285-299 | the groups are the connected components exactly when no pair said to be different is connected |
| Partitions.MembersAreBrought | crates/goliath-graph/src/resolve.rs:288-306 | whatever is in a group with another was named by an edge that joined, of which one is the first |
| UnionFind.HalvingKeeps | crates/goliath-graph/src/resolve.rs:521-527 | halving a path leads no identifier to another root and climbs |
| UnionFind.LinkingKeeps | crates/goliath-graph/src/resolve.rs:546-556 | putting a root below another leads all its identifiers there and keeps the forest free of cycles |
| UnionFind.MovedIsKept | crates/goliath-graph/src/resolve.rs:553-555 | after a join the members of each place are exactly the identifiers that lead to it, each once, and none for a place that is no root |
| UnionFind.Groups.Root | crates/goliath-graph/src/resolve.rs:521-527 | the loop ends at the root, which no halving changes |
| UnionFind.Groups.Of | crates/goliath-graph/src/resolve.rs:506-513 | the group of an identifier, one of its own if it is new, and no other changed |
| UnionFind.Groups.Find | crates/goliath-graph/src/resolve.rs:516-519 | the group of an identifier exactly if it is in any |
| UnionFind.Groups.IsApart | crates/goliath-graph/src/resolve.rs:531-544 | true exactly when a pair has one identifier in each of the two groups |
| UnionFind.Groups.Join | crates/goliath-graph/src/resolve.rs:546-556 | the two groups are one and the others as they were |
| Resolving.FollowAll | crates/goliath-graph/src/resolve.rs:285-299 | the loop over the edges makes the specified groups, counts the edges held apart and lists those that joined |
| Resolving.FindShared | crates/goliath-graph/src/resolve.rs:385-405 | the shared set by its nested maps is that of the definition |
| Resolving.FindAliases | crates/goliath-graph/src/resolve.rs:449-482 | exactly the weak identifiers with the entities they were claimed with, each shown with its first claim and with the events, the first and the last time of all of them |
| Resolving.FindBrought | crates/goliath-graph/src/resolve.rs:301-306 | of each identifier the first edge that joined and names it |
| Resolving.RowsAreExplained | crates/goliath-graph/src/resolve.rs:333-372 | every row says what brought it in: a member its first edge, an alias its claims added up, the entity's own name and a shared one nothing |
| Resolving.MemberRows | crates/goliath-graph/src/resolve.rs:325-341 | one row for each member of a group of two and more, under the group's name, and the counts of both |
| Resolving.Least | crates/goliath-graph/src/resolve.rs:311-319 | the name of a group is its least identifier by rank and text |
| Resolving.Resolve | crates/goliath-graph/src/resolve.rs:277-381 | the rows are exactly those of the definition, in strict order, the summary counts them, and each has why it is there |
| Resolutions.OrderOfEvidenceIsForgotten | crates/goliath-graph/src/resolve.rs:277-381 | the same claims in any order give the same rows and the same counts |
| Provenance.ReasonsIgnoreOrder | crates/goliath-graph/src/resolve.rs:333-372 | in any order of the evidence a row is there for the same reason: an alias's events and times are the same, and so is what brought a member in, with its times if no claim was counted twice |
| Provenance.TotalIs | crates/goliath-graph/src/resolve.rs:461-466 | what is added up for an alias is all its events, from the earliest first to the latest last |
| Provenance.ToldAreEdges | crates/goliath-graph/src/resolve.rs:409-445 | the edges with what they say are the edges the claims decide |
| Resolutions.SameEdges | crates/goliath-graph/src/resolve.rs:409-445 | sorting makes one sequence of edges of any arrangement of the claims |
| Resolutions.OneEntityIsOneGroup | crates/goliath-graph/src/resolve.rs:306-358 | two members have one entity exactly when they are in one group |
| Resolutions.DifferentHaveTwoEntities | crates/goliath-graph/src/resolve.rs:258-270 | two identifiers said to be different are never members of one entity |
| Records.PutIs | crates/goliath-enrich/src/snapshot.rs:55-66 | putting a source replaces it whole and keeps the others and their order |
| Records.DroppedIs | crates/goliath-enrich/src/snapshot.rs:69-75 | removing a source keeps the others |
| Records.EntriesAre | crates/goliath-enrich/src/snapshot.rs:87-108 | the scan visits every record of every source in the order of names and places |
| Contexts.DirectFinds | crates/goliath-enrich/src/snapshot.rs:124-166 | by the identifier itself: the records that list it and hold, and of a source of which none holds the one that ended last |
| Contexts.EndedIsFound | crates/goliath-enrich/src/snapshot.rs:141-166 | a source none of whose records holds is answered with an ended one if it has one |
| Contexts.EndedBesideOneToCome | crates/goliath-enrich/src/snapshot.rs:141-166 | a source with one record that ended and one that has not begun is answered with the one that ended |
| Contexts.NarrowestIsFound | crates/goliath-enrich/src/snapshot.rs:209-241 | of each source and kind with a range that holds the address exactly one record, by the narrowest such range, the first of one width |
| Contexts.NearestDomainIsFound | crates/goliath-enrich/src/snapshot.rs:179-206 | of each source that lists a parent domain and was not found as a list exactly one row, of the nearest |
| Contexts.LastEndedIs | crates/goliath-enrich/src/snapshot.rs:141-158 | the ended record kept is of the latest end |
| Contexts.FirstOfIs | crates/goliath-enrich/src/snapshot.rs:179-241 | taking the first of each key finds exactly the first ones of the keys not taken |
| Snapshots.Snapshot.Replace | crates/goliath-enrich/src/snapshot.rs:55-66 | a source's records are those of its last load and no other, and the indexes are exact again |
| Snapshots.Snapshot.Remove | crates/goliath-enrich/src/snapshot.rs:69-75 | the source is gone, exactly if it was held, and the indexes are exact again |
| Snapshots.Snapshot.Index | crates/goliath-enrich/src/snapshot.rs:87-108 | each key's places are those of the records that list it, in the order of the scan, and the lengths are those of all ranges |
| Snapshots.Snapshot.Lookup | crates/goliath-enrich/src/snapshot.rs:124-172 | a lookup by the indexes is the plain scan of all records |
| Snapshots.Snapshot.LookDirectly | crates/goliath-enrich/src/snapshot.rs:124-166 | the loop with its sets and map of ended records finds what the scan does |
| Snapshots.Snapshot.LookByRange | crates/goliath-enrich/src/snapshot.rs:209-241 | asking only the lengths in use finds what asking all would |
| Snapshots.Snapshot.LookByDomain | crates/goliath-enrich/src/snapshot.rs:179-206 | the walk up a name finds what the scan of its parents does |
| Decimals.DecimalReadsBack | crates/goliath-normalize/src/syslog.rs:63-66 | a number in decimal reads back exactly if it fits the machine's word |
| Trees.ReadsBackExactlyWhenClear | crates/goliath-normalize/src/normalizer.rs:1023-1053 | a write reads back its value exactly when nothing of another kind stands in its way; otherwise nothing is read there |
| Trees.NewIsClear | crates/goliath-normalize/src/normalizer.rs:1023-1053 | where nothing was written a way is clear exactly when no index follows an index |
| Trees.WriteLeavesOthers | crates/goliath-normalize/src/normalizer.rs:1023-1053 | a write leaves what is read at any path that parts from its own |
| Trees.WriteLeavesClear | crates/goliath-normalize/src/normalizer.rs:1023-1053 | and leaves clear any way that parts alike, resized arrays included |
| Trees.EveryFieldReadsBack | crates/goliath-normalize/src/normalizer.rs:594-616 | after all fields are written each reads back its own value |
| Trees.TargetsKeepApartExactly | crates/goliath-normalize/src/normalizer.rs:759-773 | two targets never interfere, whatever is written, exactly when their paths part, both by name or both by index |
| Normalizing.CheckOverlaps | crates/goliath-normalize/src/normalizer.rs:759-773 | no error exactly when no target is a prefix of another |
| Normalizing.AttributePath | crates/goliath-normalize/src/normalizer.rs:861-903 | accepted exactly when every index follows an array and every array is followed by one; the path without its indexes |
| Normalizing.AcceptedTargetsPart | crates/goliath-normalize/src/normalizer.rs:759-903 | accepted targets with canonical indexes, none after another, never interfere |
| Normalizing.EveryTargetReadsBack | crates/goliath-normalize/src/normalizer.rs:594-616 | in the event of any record every field that has a value reads it back |
| Normalizing.TwoSpellingsCollide | crates/goliath-normalize/src/normalizer.rs:759-773 | two accepted targets that spell one element in two ways: the first value is lost |
| Normalizing.IndexAfterIndexIsLost | crates/goliath-normalize/src/normalizer.rs:861-903 | an accepted target with an index after an index: its value is always lost |
| Normalizing.Event.Set | crates/goliath-normalize/src/normalizer.rs:1009-1021 | writing at a target is writing along its path, whose first segment is a name |
| Normalizing.Event.WriteFields | crates/goliath-normalize/src/normalizer.rs:591-630 | the loop writes the fields that have a value, in order, lists those that could not be converted, keeps their values, and collects the paths used up |
| SourcePaths.FindValue | crates/goliath-normalize/src/normalizer.rs:108-131 | the search with a name that grows finds what the definition finds: by the shortest name that leads anywhere |
| SourcePaths.FindsWhatLeads | crates/goliath-normalize/src/normalizer.rs:108-131 | it finds a value exactly when, of all ways of joining the segments into names that lead anywhere, the one with the shortest names first leads to that value, and nothing exactly when none does |
| SourcePaths.NamedIsLedTo | crates/goliath-normalize/src/normalizer.rs:95-106 | a path that names a member of an object has a reading that leads to that member |
| Unmapped.KeepEach | crates/goliath-normalize/src/normalizer.rs:635-647 | the loop over one object keeps its members as the definition does |
| Unmapped.KeepAll | crates/goliath-normalize/src/normalizer.rs:631-648 | the loop over the listed objects does |
| Unmapped.Normalize | crates/goliath-normalize/src/normalizer.rs:586-658 | the event of a record: its fields written, and what is kept beside them under `unmapped` if anything is |
| Unmapped.MemberIsKeptExactly | crates/goliath-normalize/src/normalizer.rs:635-647 | a member no path used up names is kept by its name or its path exactly unless both are taken by other values at its turn |
| Unmapped.AllMembersAreKept | crates/goliath-normalize/src/normalizer.rs:631-648 | if no member's path is also a name, every such member is kept |
| Unmapped.NamedIsGiven | crates/goliath-normalize/src/normalizer.rs:95-131 | a path that names a member of a listed object reads it exactly when its first reading leads to it, as it does if the path has one reading |
| Unmapped.MemberIsSavedExactly | crates/goliath-normalize/src/normalizer.rs:594-648 | each non-null member of a listed object is saved exactly when none of the paths used up names it and it is not crowded out, or a field reads it first and converts it or fails with it last |
| Unmapped.FailedIsKeptExactly | crates/goliath-normalize/src/normalizer.rs:613-628 | one value that did not convert is kept to the end exactly when the last failure of its name has an equal value |
| Unmapped.SavedIsInEvent | crates/goliath-normalize/src/normalizer.rs:586-658 | what is saved is read from the event: under `unmapped` by a name of its own or its field's, or converted at the field's target |
| Unmapped.NothingIsDropped | crates/goliath-normalize/src/normalizer.rs:586-658 | every member of a listed object is saved, where no member's path is a name, no two different failures have one name, and the paths used up read the members they name |
| Unmapped.FailedAreKeptExactly | crates/goliath-normalize/src/normalizer.rs:613-628 | the values that did not convert are all kept, to the end, exactly when no two of them that differ have one name |
| Unmapped.EventHasBoth | crates/goliath-normalize/src/normalizer.rs:649-651 | the event reads back what is kept, and each field as it was written |
| Unmapped.MemberIsDropped | crates/goliath-normalize/src/normalizer.rs:639-646 | a record of which a member is dropped, both its names being taken |
| Unmapped.OtherReadingIsDropped | crates/goliath-normalize/src/normalizer.rs:635-638 | a record of which a member is dropped that a path names and does not read |
| Unmapped.FirstFailureIsDropped | crates/goliath-normalize/src/normalizer.rs:618-627 | a record of which a value that did not convert is dropped for another, though names and paths are apart and both are read where they are named |
| Framing.Messages | crates/goliath-normalize/src/syslog.rs:48-86 | the loop frames as the recursive definition does and takes some of the rest at every turn |
| Framing.FramingUndoesSending | crates/goliath-normalize/src/syslog.rs:48-86 | framing undoes octet counting for any messages, and lines among them that a line can carry |
| Framing.BrokenIsTheRest | crates/goliath-normalize/src/syslog.rs:66-76 | only the last frame can be broken, and it is the rest of the stream |
| Rows.ReadQuoted | crates/goliath-normalize/src/csv.rs:75-94 | the loop over a quoted value reads what the definition reads, errors included |
| Rows.ReadValues | crates/goliath-normalize/src/csv.rs:54-71 | the loop over a row reads what the definition reads, errors included |
| Rows.ReadingUndoesWriting | crates/goliath-normalize/src/csv.rs:54-94 | reading a row undoes writing it, quoted with doubled quotes or bare, for any values but none |
| Rows.RowsReadAreRowsWritten | crates/goliath-normalize/src/csv.rs:54-94 | a row reads as some values exactly when it is those values written, each bare or quoted |
| Rows.QuotedIsWritten | crates/goliath-normalize/src/csv.rs:75-94 | what reads as a quoted value is that value with its quotes doubled, and its end |
| Rows.BareExactly | crates/goliath-normalize/src/csv.rs:54-71 | text reads back as one bare value exactly when it has no comma and does not begin with a quote |
| Calendar.DateHasItsNumber | crates/goliath-gen/src/time.rs:3-17 | the date computed from any integer day is of the calendar, and its day number is that day |
| Calendar.DatesAndDaysUndoEachOther | crates/goliath-gen/src/time.rs:3-17 | days to dates and dates to days are inverse of each other, both ways |
| Calendar.DaysFollowTheCalendar | crates/goliath-gen/src/time.rs:3-17 | the next day has the calendar's next date, across leap years and eras, and day 0 is the first of January 1970 |
| Calendar.YearIsItsMonths | crates/goliath-gen/src/time.rs:3-17 | the reference calendar's years are as long as their months |
| Calendar.StampRebuildsTime | crates/goliath-gen/src/time.rs:3-27 | date and clock are in range and rebuild the milliseconds, before the epoch too |

## Left out

- PromisesKept.PromisesCanBeKept: the search for literals, the parsing and compiling of regular expressions, Unicode folding tables, number parsing and address parsing are functions of the model with contracts, not code, since they belong to other libraries.
- Engines.New: groups stand in the order their classes are first met, not in that of their serialized class; the answer is sorted either way. Errors of building an automaton do not occur.
- Evaluation.Evaluate: the buffer of borrowed values that is handed on between events is not modelled, and a scratch of an engine whose groups differ in size is replaced rather than refitted.
- Scratches.GroupScratch.NextGeneration: marks are numbers below the 32-bit limit; texts' buffers keep their strings, and their capacity is not modelled.
- Required.FindRequired: an expression whose parsing fails has no literals, and byte classes follow the same rule as character classes.
- StoreSteps: locks and atomics. Steps interleave with one replacement at a time, which the writer's lock ensures. A chunk or a counter that is written though its write fails is a chunk written, or a replacement begun, and then given up. The generation is not bounded by 64 bits.
- Filters.Bloom.AddKey: a word is a set of its bits, and mixing and hashing are arbitrary functions. The store on disk holds the value that the words refine.
- Lookups.Lookup: all its reads are of one state of the store; `LookupRuns.LookupAcrossARun` is about reads apart, with answers given and no store to call. Canonical spelling of keys is not modelled: a key is a value, and its bytes hold no NUL and tell keys apart. Allowlists are a function of the observed key.
- MemoryStores.MemoryStore.ReplaceFeed: hash maps are visited in an arbitrary order.
- Resolving.Resolve: why each row is there is found once the rows are sorted, not as they are made; reading decisions from YAML, which is where pairs of one identifier are refused.
- Snapshots.Snapshot.Lookup: reading addresses and host names from text is a parameter; typed fields, labels and groups of records are not looked at.
- Normalizing.Event.WriteFields: the choice of a record's kind; the conversions themselves are parameters.
- Unmapped.KeepAll: an object's members are visited in an order that is a parameter, of which that of their names is one.
- Framing.Messages: decoding a message after it is framed.
- Rows.ReadValues: naming a row's values by its columns.
- Calendar.StampRebuildsTime: the padding of printed fields.
- The pipe between services, feeds' formats, STIX, findings, OCSF tables, telemetry generators other than their clock, the benchmark, search, and the interface are not part of this model.
