/** A lookup whose reads are apart: the lengths in use at one state of a run, and
    each key asked for at states of its own, whatever is published between. */
module LookupRuns {
  import opened Base
  import opened Ordering
  import opened Addresses
  import opened Codec
  import opened Keys
  import opened Feeds
  import opened Filters
  import opened StoreSteps
  import opened StoreSafety
  import opened StoreRuns
  import opened StoreHistory
  import opened Lookups

  /** The states one key is read at: where the filter is asked, where the entries
      are pinned, and where the feeds are read. */
  datatype Reading = Reading(filter: nat, pin: nat, feeds: nat)

  /** What a key's answer adds to the hits. */
  function HitFrom(
      key: Key, answer: seq<Assertion>, observed: Key, at: int, allows: Key -> Option<string>): seq<Hit>
  {
    var kept := RetainedOf(answer, at);
    if kept == [] then [] else [Hit(key, kept, allows(observed))]
  }

  /** The hits of the keys asked for, in the order asked. */
  function HitsFrom(
      asked: seq<Key>, answers: Key -> seq<Assertion>, observed: Key, at: int, allows: Key -> Option<string>): seq<Hit>
  {
    if asked == [] then []
    else
      var last := asked[|asked| - 1];
      HitsFrom(asked[..|asked| - 1], answers, observed, at, allows) + HitFrom(last, answers(last), observed, at, allows)
  }

  lemma HitFromIs(
      feeds: map<Name, Feed>, key: Key, answer: seq<Assertion>, observed: Key, at: int, allows: Key -> Option<string>)
    requires Answers(feeds, key, answer)
    ensures var hit := HitFrom(key, answer, observed, at, allows);
            if IsAsserted(feeds, key, at) then
                |hit| == 1 && hit[0].indicator == key && HitIs(feeds, observed, at, allows, hit[0])
            else hit == []
  {
    hide ValidAt, LexLe, RetainedOf;
    RetainedIs(answer, at);
    var kept := RetainedOf(answer, at);
    if f :| f in feeds && key in feeds[f].indicators && ValidAt(feeds[f].indicators[key], at) {
      assert Assertion(f, feeds[f].version, feeds[f].indicators[key]) in kept;
    }
    NoneOrFirst(kept);
  }

  /** The hits are those of what each key was seen to be asserted by, in order. */
  ghost predicate AreHits(
      hits: seq<Hit>, asked: seq<Key>, seen: map<Key, map<Name, Feed>>, observed: Key, at: int,
      allows: Key -> Option<string>)
  {
    && InOrder(observed, Indicators(hits))
    && (forall key :: key in Indicators(hits) <==> key in asked && key in seen && IsAsserted(seen[key], key, at))
    && (forall h :: h in hits ==> h.indicator in seen && HitIs(seen[h.indicator], observed, at, allows, h))
  }

  lemma {:induction false} HitsFromAre(
      asked: seq<Key>, answers: Key -> seq<Assertion>, seen: map<Key, map<Name, Feed>>, observed: Key, at: int,
      allows: Key -> Option<string>)
    requires InOrder(observed, asked)
    requires forall key :: key in asked ==> key in seen && Answers(seen[key], key, answers(key))
    ensures AreHits(HitsFrom(asked, answers, observed, at, allows), asked, seen, observed, at, allows)
  {
    hide Answers, HitFrom, IsAsserted, HitIs;
    if asked != [] {
      var n := |asked| - 1;
      var last := asked[n];
      assert asked == asked[..n] + [last];
      HitsFromAre(asked[..n], answers, seen, observed, at, allows);
      HitFromIs(seen[last], last, answers(last), observed, at, allows);
      var rest := HitsFrom(asked[..n], answers, observed, at, allows);
      var one := HitFrom(last, answers(last), observed, at, allows);
      hide AreHits, HitsFrom;
      OneKeyMore(rest, one, asked, n, seen, observed, at, allows);
    }
  }

  lemma OneKeyMore(
      rest: seq<Hit>, one: seq<Hit>, asked: seq<Key>, n: nat, seen: map<Key, map<Name, Feed>>, observed: Key, at: int,
      allows: Key -> Option<string>)
    requires InOrder(observed, asked) && n < |asked| && asked == asked[..n] + [asked[n]] && asked[n] in seen
    requires AreHits(rest, asked[..n], seen, observed, at, allows)
    requires if IsAsserted(seen[asked[n]], asked[n], at) then
               |one| == 1 && one[0].indicator == asked[n] && HitIs(seen[asked[n]], observed, at, allows, one[0])
             else one == []
    ensures AreHits(rest + one, asked, seen, observed, at, allows)
  {
    hide IsAsserted, HitIs, InOrder;
    if one == [] {
      assert rest + one == rest;
    } else {
      OrderedOneMore(observed, Indicators(rest), asked, n);
      assert Indicators(rest + one) == Indicators(rest) + [asked[n]];
    }
  }

  // ------------------------------------------------------------ over a run

  /** In a run that does not open the store again from `first` on, a key is read at
      three states, and answered so. */
  ghost predicate IsRead(
      e: Setting, states: seq<State>, steps: seq<Step>, first: nat, r: Reading, key: Key, answer: seq<Assertion>)
  {
    && |states| == |steps| + 1 && first <= r.filter <= r.pin <= r.feeds <= |steps|
    && LookupReturns(e, View(states[r.pin]), states[r.feeds].feeds, states[r.filter].filter, key, answer)
  }

  /** What a key's reads see of the feeds: the entries pinned, or, if the filter
      said no, those of then, by the feeds read last. */
  ghost function SeenBy(e: Setting, states: seq<State>, r: Reading, key: Key): map<Name, Feed>
    requires r.filter < |states| && r.pin < |states| && r.feeds < |states|
  {
    var may := MayContain(e.hashing, states[r.filter].filter, e.bytes(key));
    Pinned(states[if may then r.pin else r.filter], states[r.feeds].feeds)
  }

  ghost predicate IsApart(
      e: Setting, states: seq<State>, steps: seq<Step>, first: nat, lengths: nat, observed: Key, readAt: Key -> Reading,
      answers: Key -> seq<Assertion>)
    requires KeyOk(observed)
  {
    && IsRun(e, states, steps) && first <= lengths <= |steps|
    && (forall n :: first <= n < |steps| ==> !steps[n].CrashAndReopen?)
    && (forall key :: key in Asked(observed, states[lengths].lengths) ==>
          IsRead(e, states, steps, first, readAt(key), key, answers(key)))
  }

  /** Whatever is published between its reads, a lookup's hits are in order, each is
      what its own key's reads saw, and there is one for a key exactly when it
      names the value, its length was in use when the lengths were read, and its
      own reads saw it asserted. */
  lemma LookupAcrossARun(
      e: Setting, states: seq<State>, steps: seq<Step>, first: nat, lengths: nat, observed: Key, at: int,
      allows: Key -> Option<string>, readAt: Key -> Reading, answers: Key -> seq<Assertion>)
    requires KeyOk(observed) && IsApart(e, states, steps, first, lengths, observed, readAt, answers)
    ensures var asked := Asked(observed, states[lengths].lengths);
            var hits := HitsFrom(asked, answers, observed, at, allows);
            && InOrder(observed, Indicators(hits))
            && (forall key :: key in asked <==>
                  NamesIt(key, observed)
                  && (key == observed || HasLength(states[lengths].lengths, observed.address, key.length)))
            && (forall key :: key in Indicators(hits) <==>
                  key in asked && IsAsserted(SeenBy(e, states, readAt(key), key), key, at))
            && (forall h :: h in hits ==>
                  h.indicator in asked
                  && HitIs(SeenBy(e, states, readAt(h.indicator), h.indicator), observed, at, allows, h))
  {
    hide Asked, NamesIt, Answers, IsAsserted, HitIs, InOrder, SeenBy, LookupReturns;
    var asked := Asked(observed, states[lengths].lengths);
    AskedInOrder(states[lengths].lengths, observed);
    forall key { AskedExactly(states[lengths].lengths, observed, key); }
    forall key | key in asked ensures Answers(SeenBy(e, states, readAt(key), key), key, answers(key)) {
      AnswerIsSeen(e, states, steps, first, readAt(key), key, answers(key));
    }
    var seen := map key | key in asked :: SeenBy(e, states, readAt(key), key);
    HitsFromAre(asked, answers, seen, observed, at, allows);
    var hits := HitsFrom(asked, answers, observed, at, allows);
    forall h | h in hits ensures h.indicator in asked {
      var i :| 0 <= i < |hits| && hits[i] == h;
      assert Indicators(hits)[i] == h.indicator;
    }
  }

  lemma AnswerIsSeen(
      e: Setting, states: seq<State>, steps: seq<Step>, first: nat, r: Reading, key: Key, answer: seq<Assertion>)
    requires IsRun(e, states, steps) && IsRead(e, states, steps, first, r, key, answer)
    requires forall n :: first <= n < |steps| ==> !steps[n].CrashAndReopen?
    ensures Answers(SeenBy(e, states, r, key), key, answer)
  {
    hide IsRun, Answers, LookupReturns, Pinned;
    ThreeReads(e, states, steps, r.filter, r.pin, r.feeds, key, answer);
  }

  /** A network that readers saw asserted when the lengths were read is asked for. */
  lemma HeldIsAsked(e: Setting, states: seq<State>, steps: seq<Step>, lengths: nat, observed: Key, key: Key, at: int)
    requires IsRun(e, states, steps) && lengths <= |steps| && KeyOk(observed)
    requires IsAsserted(Holding(states[lengths]), key, at) && NamesIt(key, observed)
    ensures key in Asked(observed, states[lengths].lengths)
  {
    assert IsRun(e, states[..lengths + 1], steps[..lengths]);
    RunsKeep(e, states[..lengths + 1], steps[..lengths]);
    AssertedIsAskedFor(e, states[lengths], key, observed, at);
  }

  /** Reads at one state see what it holds, so a lookup all at one state answers
      exactly what names the value and is asserted there. */
  lemma AtOneState(
      e: Setting, states: seq<State>, steps: seq<Step>, n: nat, observed: Key, at: int, allows: Key -> Option<string>,
      answers: Key -> seq<Assertion>, key: Key)
    requires KeyOk(observed) && IsApart(e, states, steps, n, n, observed, _ => Reading(n, n, n), answers)
    ensures key in Indicators(HitsFrom(Asked(observed, states[n].lengths), answers, observed, at, allows)) <==>
            NamesIt(key, observed) && IsAsserted(Holding(states[n]), key, at)
  {
    hide Asked, NamesIt, IsAsserted, HitIs, InOrder, Holding, HitsFrom;
    LookupAcrossARun(e, states, steps, n, n, observed, at, allows, _ => Reading(n, n, n), answers);
    PinnedAtOnce(states[n]);
    if IsAsserted(Holding(states[n]), key, at) && NamesIt(key, observed) {
      HeldIsAsked(e, states, steps, n, observed, key, at);
    }
  }

  lemma PinnedAtOnce(s: State)
    ensures Pinned(s, s.feeds) == Holding(s)
  {
  }

  // ---------------------------------------------------------------- a witness

  /** The network of a length that holds an address. */
  function NetworkOf(address: Address, length: nat): Key
    requires length < Width(address)
  {
    Cidr(Masked(address, length), length)
  }

  /** A feed names one network of an address, and is replaced to name another, of a
      length not in use. A lookup that read the lengths before and the keys after
      has no hit, though the feed names the address before and after. */
  lemma BothNetworksAreMissed(
      e: Setting, address: Address, entry: Entry, at: int, allows: Key -> Option<string>)
    requires InFamily(address) && ValidAt(entry, at)
    ensures var old_, new_, observed := NetworkOf(address, 24), NetworkOf(address, 16), Ip(address);
            var s := WholeReplacement(e, EMPTY, [1], "1", [(old_, entry)]);
            var t := WholeReplacement(e, s, [1], "2", [(new_, entry)]);
            && NamesIt(old_, observed) && IsAsserted(Holding(s), old_, at)
            && NamesIt(new_, observed) && IsAsserted(Holding(t), new_, at)
            && (forall key :: key in Asked(observed, s.lengths) ==>
                  LookupReturns(e, View(t), t.feeds, t.filter, key, []))
            && HitsFrom(Asked(observed, s.lengths), _ => [], observed, at, allows) == []
  {
    var old_, new_, observed := NetworkOf(address, 24), NetworkOf(address, 16), Ip(address);
    var s := WholeReplacement(e, EMPTY, [1], "1", [(old_, entry)]);
    var t := WholeReplacement(e, s, [1], "2", [(new_, entry)]);
    EmptyIsOk(e);
    NothingHeld();
    hide WholeReplacement, Inv, Holding, View, LookupReturns, StoredInput, Masked, ValidAt, HitsFrom, IsAsserted,
         Answers,
         Asked, Canonical;
    NamesOfNetwork(address, 24);
    NamesOfNetwork(address, 16);
    ReplacedByOne(e, EMPTY, "1", old_, entry, at);
    ReplacedByOne(e, s, "2", new_, entry, at);
    OneLength(address, 24);
    forall key | key in Asked(observed, s.lengths) ensures LookupReturns(e, View(t), t.feeds, t.filter, key, []) {
      AskedExactly(s.lengths, observed, key);
      hide NamesIt;
      assert key != new_;
      LookupIsExact(e, t, key, []);
    }
    NoAnswersNoHits(Asked(observed, s.lengths), observed, at, allows);
  }

  lemma NamesOfNetwork(address: Address, length: nat)
    requires InFamily(address) && length < Width(address)
    ensures KeyOk(NetworkOf(address, length)) && NamesIt(NetworkOf(address, length), Ip(address))
  {
    MaskedIsCanonical(address, length);
  }

  lemma OneLength(address: Address, length: nat)
    requires length < Width(address)
    ensures forall other :: HasLength(AddLength(NO_LENGTHS, NetworkOf(address, length)), address, other) ==>
            other == length
  {
  }

  /** The only feed replaced by one indicator. */
  lemma ReplacedByOne(e: Setting, s: State, version: string, key: Key, entry: Entry, at: int)
    requires Inv(e, s) && s.job.None? && Holding(s).Keys <= {[1]} && KeyOk(key) && ValidAt(entry, at)
    ensures var t := WholeReplacement(e, s, [1], version, [(key, entry)]);
            && Inv(e, t) && t.job.None? && Holding(t).Keys == {[1]} && t.lengths == AddLength(s.lengths, key)
            && IsAsserted(Holding(t), key, at)
            && forall other :: other != key ==> Answers(Holding(t), other, [])
  {
    var input := [(key, entry)];
    NothingHeld();
    hide WholeReplacement, Inv, Holding, ValidAt, AddLength, AddLengths, Answers, IsAsserted, Feeds.ReplaceFeed;
    WholeReplacementIs(e, s, [1], version, input);
    WholeReplacementLengths(e, s, [1], version, input);
    OneKeyLength(s.lengths, key, entry);
    OnlyOneIsHeld(Holding(s), version, key, entry, at);
  }

  lemma OnlyOneIsHeld(feeds: map<Name, Feed>, version: string, key: Key, entry: Entry, at: int)
    requires feeds.Keys <= {[1]} && ValidAt(entry, at)
    ensures var after := Feeds.ReplaceFeed(feeds, [1], version, StoredInput([(key, entry)]));
            && after.Keys == {[1]} && IsAsserted(after, key, at)
            && forall other :: other != key ==> Answers(after, other, [])
  {
    hide ValidAt, Replaced, StoredInput, Answers;
    var after := Feeds.ReplaceFeed(feeds, [1], version, StoredInput([(key, entry)]));
    OneIsReplaced(Held(feeds, [1]), key, entry, at);
    HeldAfter(feeds, [1], version, [(key, entry)]);
    forall other | other != key ensures Answers(after, other, []) { NoFeedAsserts(after, other); }
  }

  lemma OneKeyLength(lengths: PrefixLengths, key: Key, entry: Entry)
    ensures AddLengths(lengths, KeysOf([(key, entry)])) == AddLength(lengths, key)
  {
    assert KeysOf([(key, entry)])[..0] == [];
  }

  lemma OneIsReplaced(before: map<Key, Entry>, key: Key, entry: Entry, at: int)
    requires ValidAt(entry, at)
    ensures var after := Replaced(before, StoredInput([(key, entry)]));
            after.Keys == {key} && ValidAt(after[key], at)
  {
    var stored := StoredInput([(key, entry)]);
    assert stored[..0] == [] && stored[0] == (key, AsStored(entry));
    DecodeUndoesEncode(entry);
    hide Encoded, Decoded;
  }

  lemma {:induction false} NoAnswersNoHits(asked: seq<Key>, observed: Key, at: int, allows: Key -> Option<string>)
    ensures HitsFrom(asked, _ => [], observed, at, allows) == []
  {
    if asked != [] { NoAnswersNoHits(asked[..|asked| - 1], observed, at, allows); }
  }
}
