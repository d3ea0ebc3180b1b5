/** The store in memory, which keeps what each feed asserts by indicator. */
module MemoryStores {
  import opened Base
  import opened Ordering
  import opened Codec
  import opened Keys
  import opened Feeds
  import opened DiskStores

  /** The assertions of other feeds. */
  function Without(assertions: seq<Assertion>, feed: Name): (r: seq<Assertion>)
    ensures forall a :: a in r <==> a in assertions && a.feed != feed
  {
    if assertions == [] then []
    else
      assert assertions == [assertions[0]] + assertions[1..];
      (if assertions[0].feed == feed then [] else [assertions[0]]) + Without(assertions[1..], feed)
  }

  /** The first assertion of a feed. */
  function Find(assertions: seq<Assertion>, feed: Name): (r: Option<Assertion>)
    ensures r.None? ==> forall a :: a in assertions ==> a.feed != feed
    ensures r.Some? ==> r.value in assertions && r.value.feed == feed
  {
    if assertions == [] then None
    else if assertions[0].feed == feed then Some(assertions[0])
    else Find(assertions[1..], feed)
  }

  predicate Ascending(assertions: seq<Assertion>) {
    forall i, j :: 0 <= i < j < |assertions| ==> BytesLt(assertions[i].feed, assertions[j].feed)
  }

  lemma {:induction false} WithoutKeepsOrder(assertions: seq<Assertion>, feed: Name)
    requires Ascending(assertions)
    ensures Ascending(Without(assertions, feed))
  {
    if assertions != [] {
      WithoutKeepsOrder(assertions[1..], feed);
      var rest := Without(assertions[1..], feed);
      forall j | 0 <= j < |rest| ensures BytesLt(assertions[0].feed, rest[j].feed) {
        assert rest[j] in rest;
        var k :| 0 <= k < |assertions[1..]| && assertions[1..][k] == rest[j];
        assert assertions[k + 1] == rest[j];
      }
    }
  }

  lemma ByFeedIsPreorder()
    ensures Preorder(FeedLe)
  {
    BytesOrder();
  }

  /** Sorting the kept assertions with one of the feed among them. */
  lemma SortedIsAscending(kept: seq<Assertion>, one: Assertion)
    requires Ascending(kept) && forall a :: a in kept ==> a.feed != one.feed
    ensures Ascending(Sort(FeedLe, kept + [one]))
    ensures forall a :: a in Sort(FeedLe, kept + [one]) <==> a in kept || a == one
  {
    hide Sort, LexLe, Ascending;
    var all, sorted := kept + [one], Sort(FeedLe, kept + [one]);
    ByFeedIsPreorder();
    SortSorts(FeedLe, all);
    forall a ensures a in sorted <==> a in all { assert a in multiset(sorted) <==> a in multiset(all); }
    DistinctFeeds(kept, one);
    forall i, j | 0 <= i < j < |sorted| ensures BytesLt(sorted[i].feed, sorted[j].feed) {
      assert FeedLe(sorted[i], sorted[j]);
      assert sorted[i] in all && sorted[j] in all;
      TwiceInMultiset(sorted, i, j);
      if sorted[i].feed == sorted[j].feed { SameFeedSame(kept, one, sorted[i], sorted[j]); }
    }
    AscendingIs(sorted);
  }

  lemma AscendingIs(s: seq<Assertion>)
    requires forall i, j :: 0 <= i < j < |s| ==> BytesLt(s[i].feed, s[j].feed)
    ensures Ascending(s)
  {
  }

  lemma SameFeedSame(kept: seq<Assertion>, one: Assertion, a: Assertion, b: Assertion)
    requires Ascending(kept) && forall x :: x in kept ==> x.feed != one.feed
    requires a in kept + [one] && b in kept + [one] && a.feed == b.feed
    ensures a == b
  {
    if a in kept && b in kept {
      var i :| 0 <= i < |kept| && kept[i] == a;
      var j :| 0 <= j < |kept| && kept[j] == b;
    }
  }

  lemma {:induction false} DistinctFeeds(kept: seq<Assertion>, one: Assertion)
    requires Ascending(kept) && forall x :: x in kept ==> x.feed != one.feed
    ensures forall a :: multiset(kept + [one])[a] <= 1
  {
    if kept == [] {
      assert kept + [one] == [one];
    } else {
      DistinctFeeds(kept[1..], one);
      assert kept + [one] == [kept[0]] + (kept[1..] + [one]);
      assert kept[0] !in kept[1..];
      assert kept[0] in kept;
      assert multiset(kept + [one]) == multiset{kept[0]} + multiset(kept[1..] + [one]);
      assert kept[0] !in multiset(kept[1..] + [one]);
    }
  }

  lemma TwiceInMultiset(s: seq<Assertion>, i: nat, j: nat)
    requires i < j < |s|
    ensures s[i] == s[j] ==> multiset(s)[s[i]] >= 2
  {
    assert s == s[..j] + [s[j]] + s[j + 1..];
    assert s[i] in s[..j];
  }

  /** What the feeds assert of a key after one is replaced. */
  lemma AnswersAfter(
      feeds: map<Name, Feed>, feed: Name, version: string, input: Input, key: Key, assertions: seq<Assertion>)
    requires Answers(feeds, key, assertions)
    ensures var content := Replaced(Held(feeds, feed), input);
            Answers(ReplaceFeed(feeds, feed, version, input), key,
                    Sort(FeedLe, Exchanged(assertions, feed, version, content, key)))
  {
    WithoutKeepsOrder(assertions, feed);
    hide Replaced, LexLe, Sort, Without;
    var content, kept := Replaced(Held(feeds, feed), input), Without(assertions, feed);
    if key in content {
      SortedIsAscending(kept, Assertion(feed, version, content[key]));
    } else {
      AscendingIsSorted(kept);
    }
    AnswersOf(feeds, feed, version, content, key, assertions,
        Sort(FeedLe, Exchanged(assertions, feed, version, content, key)));
  }

  lemma AnswersOf(
      feeds: map<Name, Feed>, feed: Name, version: string, content: map<Key, Entry>, key: Key,
      assertions: seq<Assertion>,
      after: seq<Assertion>)
    requires Answers(feeds, key, assertions) && Ascending(after)
    requires forall a :: a in after <==>
               (a in assertions && a.feed != feed) || (key in content && a == Assertion(feed, version, content[key]))
    ensures Answers(feeds[feed := Feed(version, content)], key, after)
  {
    hide LexLe;
  }

  lemma AscendingIsSorted(kept: seq<Assertion>)
    requires Ascending(kept)
    ensures Sort(FeedLe, kept) == kept
  {
    hide LexLe;
    if kept != [] { AscendingIsSorted(kept[1..]); }
  }

  /** What is carried over can be carried over late. */
  lemma {:induction false} CarriedLate(before: map<Key, Entry>, input: Input)
    ensures Replaced(before, input)
            == map key | key in Replaced(map[], input) :: Carried(before, key, Replaced(map[], input)[key])
  {
    if input != [] { CarriedLate(before, input[..|input| - 1]); }
  }

  /** The lengths of the networks among `keys`. */
  ghost predicate AreLengthsOf(lengths: PrefixLengths, keys: set<Key>) {
    && lengths.v4 == (set key | key in keys && key.Cidr? && key.network.V4? && key.length < 32 :: key.length)
    && lengths.v6 == (set key | key in keys && key.Cidr? && key.network.V6? && key.length < 128 :: key.length)
  }

  function At(indicators: map<Key, seq<Assertion>>, key: Key): seq<Assertion> {
    if key in indicators then indicators[key] else []
  }

  /** Each indicator's assertions with one feed's exchanged. */
  function Exchanged(
      assertions: seq<Assertion>, feed: Name, version: string, incoming: map<Key, Entry>, key: Key): seq<Assertion> {
    if key in incoming then Without(assertions, feed) + [Assertion(feed, version, incoming[key])]
    else Without(assertions, feed)
  }

  class MemoryStore {
    var indicators: map<Key, seq<Assertion>>
    var lengths: PrefixLengths
    /** The feeds as they were replaced. */
    ghost var feeds: map<Name, Feed>

    ghost predicate Valid()
      reads this
    {
      && (forall key :: Answers(feeds, key, At(indicators, key)))
      && (forall key :: key in indicators ==> indicators[key] != [])
      && AreLengthsOf(lengths, indicators.Keys)
    }

    constructor ()
      ensures Valid() && feeds == map[]
    {
      indicators, lengths, feeds := map[], NO_LENGTHS, map[];
    }

    method Assertions(key: Key) returns (answer: seq<Assertion>)
      requires Valid()
      ensures Answers(feeds, key, answer)
    {
      answer := At(indicators, key);
    }

    /** Replaces everything `feed` asserted. */
    method ReplaceFeed(feed: Name, version: string, input: Input) returns (r: Counts)
      requires Valid()
      modifies this
      ensures Valid() && feeds == Feeds.ReplaceFeed(old(feeds), feed, version, input)
      ensures r == Counts(|input|, |Replaced(Held(old(feeds), feed), input).Keys - Held(old(feeds), feed).Keys|)
    {
      ghost var before := Held(feeds, feed);
      hide Answers, Held, Replaced, AreLengthsOf, Sort, Exchanged, Carried;
      var incoming := Incoming(input);
      var added;
      assert incoming.Keys == Replaced(before, input).Keys by { CarriedLate(before, input); }
      incoming, added := Dated(indicators, feed, incoming, before, feeds);
      CarriedLate(before, input);
      assert incoming == Replaced(before, input);
      Exchange(feed, version, incoming);
      forall key ensures Answers(Feeds.ReplaceFeed(feeds, feed, version, input), key, At(indicators, key)) {
        AnswersAfter(feeds, feed, version, input, key, At(old(indicators), key));
      }
      feeds := Feeds.ReplaceFeed(feeds, feed, version, input);
      r := Counts(|input|, added);
    }

    /** Takes out what the feed asserted, puts `incoming` in its place, and
        sorts what every indicator has. */
    method Exchange(feed: Name, version: string, incoming: map<Key, Entry>)
      modifies this`indicators, this`lengths
      ensures forall key ::
        At(indicators, key) == Sort(FeedLe, Exchanged(At(old(indicators), key), feed, version, incoming, key))
      ensures forall key :: key in indicators ==> indicators[key] != []
      ensures AreLengthsOf(lengths, indicators.Keys)
    {
      hide Without, Sort, AreLengthsOf;
      indicators := map key | key in indicators && Without(indicators[key], feed) != [] ::
          Without(indicators[key], feed);
      WithoutNothing(feed);
      var left := incoming.Keys;
      while left != {}
        invariant left <= incoming.Keys
        invariant forall key :: key in indicators ==> indicators[key] != []
        invariant forall key ::
          At(indicators, key) == if key in left then Without(At(old(indicators), key), feed)
          else Exchanged(At(old(indicators), key), feed, version, incoming, key)
      {
        var key :| key in left;
        indicators := indicators[key := At(indicators, key) + [Assertion(feed, version, incoming[key])]];
        left := left - {key};
      }
      Sorted();
    }

    /** Sorts every indicator's assertions, and takes the lengths. */
    method Sorted()
      requires forall key :: key in indicators ==> indicators[key] != []
      modifies this`indicators, this`lengths
      ensures forall key :: At(indicators, key) == Sort(FeedLe, At(old(indicators), key))
      ensures forall key :: key in indicators ==> indicators[key] != []
      ensures AreLengthsOf(lengths, indicators.Keys)
    {
      hide Sort, AreLengthsOf, AddLength, At;
      var left, sums := indicators.Keys, NO_LENGTHS;
      NoLengths();
      assert indicators.Keys - left == {};
      NothingAt(indicators);
      while left != {}
        invariant left <= indicators.Keys && indicators.Keys == old(indicators.Keys)
        invariant forall key :: key in indicators ==> indicators[key] != []
        invariant forall key ::
          At(indicators, key) == if key in left then At(old(indicators), key)
          else Sort(FeedLe, At(old(indicators), key))
        invariant AreLengthsOf(sums, indicators.Keys - left)
      {
        var key :| key in left;
        assert indicators.Keys - (left - {key}) == indicators.Keys - left + {key};
        LengthsOfOneMore(sums, indicators.Keys - left, key);
        sums := AddLength(sums, key);
        SortedNotEmpty(indicators[key]);
        OneAt(indicators, key, Sort(FeedLe, indicators[key]));
        indicators := indicators[key := Sort(FeedLe, indicators[key])];
        left := left - {key};
      }
      assert indicators.Keys - {} == indicators.Keys;
      lengths := sums;
    }
  }

  lemma WithoutNothing(feed: Name)
    ensures Without([], feed) == []
  {
  }

  lemma NoLengths()
    ensures AreLengthsOf(NO_LENGTHS, {})
  {
  }

  lemma SortedNotEmpty(assertions: seq<Assertion>)
    ensures |Sort(FeedLe, assertions)| == |assertions|
  {
  }

  lemma OneAt(indicators: map<Key, seq<Assertion>>, key: Key, assertions: seq<Assertion>)
    ensures forall other: Key :: At(indicators[key := assertions], other) ==
              if other == key then assertions else At(indicators, other)
    ensures key in indicators ==> At(indicators, key) == indicators[key]
  {
    forall other: Key
      ensures At(indicators[key := assertions], other) == if other == key then assertions else At(indicators, other)
    {
      var after := indicators[key := assertions];
      assert other in after <==> other in indicators || other == key;
    }
  }

  lemma NothingAt(indicators: map<Key, seq<Assertion>>)
    ensures Sort(FeedLe, []) == []
    ensures forall key :: key !in indicators ==> At(indicators, key) == []
  {
    assert |Sort(FeedLe, [])| == 0;
  }

  lemma LengthsOfOneMore(lengths: PrefixLengths, keys: set<Key>, key: Key)
    requires AreLengthsOf(lengths, keys)
    ensures AreLengthsOf(AddLength(lengths, key), keys + {key})
  {
  }

  /** The indicators given, the later of one named twice. */
  method Incoming(input: Input) returns (incoming: map<Key, Entry>)
    ensures incoming == Replaced(map[], input)
  {
    incoming := map[];
    for i := 0 to |input|
      invariant incoming == Replaced(map[], input[..i])
    {
      OneMore(map[], input, i);
      incoming := incoming[input[i].0 := input[i].1];
    }
    assert input[..|input|] == input;
  }

  lemma OneLess(before: map<Key, Entry>, incoming: map<Key, Entry>, left: set<Key>, added: nat, key: Key)
    requires key in left && left <= incoming.Keys && CountsNew(before, incoming, left, added)
    ensures CountsNew(before, incoming, left - {key}, added + if key in before then 0 else 1)
  {
    OneKeyLess(incoming.Keys, left, before.Keys, key);
  }

  lemma OneKeyLess(all: set<Key>, left: set<Key>, before: set<Key>, key: Key)
    requires key in left && left <= all
    ensures |all - (left - {key}) - before| == |all - left - before| + if key in before then 0 else 1
  {
    if key in before {
      assert all - (left - {key}) - before == all - left - before;
    } else {
      assert all - (left - {key}) - before == (all - left - before) + {key};
    }
  }

  lemma FoundIsBefore(feeds: map<Name, Feed>, feed: Name, key: Key, assertions: seq<Assertion>, entry: Entry)
    requires Answers(feeds, key, assertions)
    ensures Find(assertions, feed).Some? <==> key in Held(feeds, feed)
    ensures Carried(Held(feeds, feed), key, entry) ==
            if Find(assertions, feed).Some? then WithAdded(entry, Find(assertions, feed).value.entry) else entry
  {
    if key in Held(feeds, feed) {
      assert Assertion(feed, feeds[feed].version, feeds[feed].indicators[key]) in assertions;
    }
  }

  /** Those the feed asserted before keep when they were added; the others are
      counted. */
  method Dated(
      indicators: map<Key, seq<Assertion>>, feed: Name, incoming: map<Key, Entry>, ghost before: map<Key, Entry>,
      ghost feeds: map<Name, Feed>)
    returns (dated: map<Key, Entry>, added: nat)
    requires before == Held(feeds, feed)
    requires forall key :: Answers(feeds, key, At(indicators, key))
    ensures dated == map key | key in incoming :: Carried(before, key, incoming[key])
    ensures added == |incoming.Keys - before.Keys|
  {
    hide *;
    dated, added := incoming, 0;
    var left := incoming.Keys;
    DatingBegins(before, incoming);
    while left != {}
      invariant left <= incoming.Keys && DatedBut(before, incoming, left, dated)
                && CountsNew(before, incoming, left, added)
    {
      var key :| key in left;
      var earlier := Find(At(indicators, key), feed);
      OneLess(before, incoming, left, added, key);
      FoundIsBefore(feeds, feed, key, At(indicators, key), incoming[key]);
      DatingGoesOn(before, incoming, left, dated, key);
      if earlier.Some? {
        dated := dated[key := WithAdded(dated[key], earlier.value.entry)];
      } else {
        added := added + 1;
      }
      left := left - {key};
    }
    DatingEnds(before, incoming, dated, added);
  }

  /** Of those no longer left, so many were not held before. */
  ghost predicate CountsNew(before: map<Key, Entry>, incoming: map<Key, Entry>, left: set<Key>, added: nat) {
    added == |incoming.Keys - left - before.Keys|
  }

  /** All but those left are dated. */
  ghost predicate DatedBut(before: map<Key, Entry>, incoming: map<Key, Entry>, left: set<Key>, dated: map<Key, Entry>) {
    && dated.Keys == incoming.Keys
    && forall key :: key in incoming ==>
         dated[key] == if key in left then incoming[key] else Carried(before, key, incoming[key])
  }

  lemma DatingBegins(before: map<Key, Entry>, incoming: map<Key, Entry>)
    ensures DatedBut(before, incoming, incoming.Keys, incoming) && CountsNew(before, incoming, incoming.Keys, 0)
  {
    assert incoming.Keys - incoming.Keys - before.Keys == {};
  }

  lemma DatingGoesOn(
      before: map<Key, Entry>, incoming: map<Key, Entry>, left: set<Key>, dated: map<Key, Entry>, key: Key)
    requires DatedBut(before, incoming, left, dated) && key in left && left <= incoming.Keys
    ensures key in dated && dated[key] == incoming[key]
    ensures DatedBut(before, incoming, left - {key}, dated[key := Carried(before, key, incoming[key])])
    ensures key !in before ==> DatedBut(before, incoming, left - {key}, dated)
  {
  }

  lemma DatingEnds(before: map<Key, Entry>, incoming: map<Key, Entry>, dated: map<Key, Entry>, added: nat)
    requires DatedBut(before, incoming, {}, dated) && CountsNew(before, incoming, {}, added)
    ensures dated == map key | key in incoming :: Carried(before, key, incoming[key])
    ensures added == |incoming.Keys - before.Keys|
  {
    assert incoming.Keys - {} == incoming.Keys;
  }
}
