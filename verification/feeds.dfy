/** What a store of indicators holds, as its callers see it: every feed's
    version and what it asserts of each indicator. */
module Feeds {
  import opened Base
  import opened Ordering
  import opened Codec
  import opened Keys

  /** An assertion without the feed and version that are stored once a feed. */
  type Entry = s: Stored | StoredOk(s) witness Stored(0, [None, None, None, None, None])

  /** A feed's name in UTF-8. */
  type Name = Bytes

  datatype Feed = Feed(version: string, indicators: map<Key, Entry>)

  datatype Assertion = Assertion(feed: Name, version: string, entry: Entry)

  type Input = seq<(Key, Entry)>

  /** What reads back of an entry once it was written: what a store on disk holds
      of it. */
  function AsStored(entry: Entry): Entry {
    DecodeUndoesEncode(entry);
    Decoded(Encoded(entry)).value
  }

  function StoredInput(input: Input): (r: Input)
    ensures |r| == |input| && forall i :: 0 <= i < |r| ==> r[i] == (input[i].0, AsStored(input[i].1))
  {
    seq(|input|, i requires 0 <= i < |input| => (input[i].0, AsStored(input[i].1)))
  }

  /** Storing is entry by entry, and leaves what is named as it is. */
  lemma StoredPart(input: Input, a: nat, b: nat)
    requires a <= b <= |input|
    ensures StoredInput(input[a..b]) == StoredInput(input)[a..b]
  {
  }

  /** Which of the five times survives replacements. */
  const ADDED := 4

  function WithAdded(entry: Entry, earlier: Entry): Entry {
    entry.(times := entry.times[ADDED := earlier.times[ADDED]])
  }

  /** What is kept of an earlier entry under the same key: one time, and nothing
      else. */
  function Carried(before: map<Key, Entry>, key: Key, entry: Entry): Entry {
    if key in before then WithAdded(entry, before[key]) else entry
  }

  /** What a feed asserts once `input` takes the place of `before`: of an
      indicator named twice, the later. */
  function Replaced(before: map<Key, Entry>, input: Input): map<Key, Entry> {
    if input == [] then map[]
    else
      var (key, entry) := input[|input| - 1];
      Replaced(before, input[..|input| - 1])[key := Carried(before, key, entry)]
  }

  function Held(feeds: map<Name, Feed>, feed: Name): map<Key, Entry> {
    if feed in feeds then feeds[feed].indicators else map[]
  }

  /** A feed replaced whole. */
  function ReplaceFeed(feeds: map<Name, Feed>, feed: Name, version: string, input: Input): map<Name, Feed> {
    feeds[feed := Feed(version, Replaced(Held(feeds, feed), input))]
  }

  lemma {:induction false} ReplacedInTwo(before: map<Key, Entry>, a: Input, b: Input)
    ensures Replaced(before, a + b) == Replaced(before, a) + Replaced(before, b)
  {
    if b == [] {
      assert a + b == a;
    } else {
      var rest := b[..|b| - 1];
      ReplacedInTwo(before, a, rest);
      assert (a + b)[..|a + b| - 1] == a + rest;
    }
  }

  lemma {:induction false} ReplacedHoldsKeys(before: map<Key, Entry>, input: Input, key: Key)
    ensures key in Replaced(before, input) <==> exists i :: 0 <= i < |input| && input[i].0 == key
  {
    if input != [] {
      ReplacedHoldsKeys(before, input[..|input| - 1], key);
      if i :| 0 <= i < |input| && input[i].0 == key {
        assert i < |input| - 1 ==> input[..|input| - 1][i].0 == key;
      }
    }
  }

  /** Of how many of the indicators given the feed asserted nothing before, one
      named twice counted twice. */
  function AddedCount(before: map<Key, Entry>, input: Input): nat {
    if input == [] then 0
    else AddedCount(before, input[..|input| - 1]) + if input[|input| - 1].0 in before then 0 else 1
  }

  lemma {:induction false} AddedCountInTwo(before: map<Key, Entry>, a: Input, b: Input)
    ensures AddedCount(before, a + b) == AddedCount(before, a) + AddedCount(before, b)
  {
    if b == [] {
      assert a + b == a;
    } else {
      AddedCountInTwo(before, a, b[..|b| - 1]);
      assert (a + b)[..|a + b| - 1] == a + b[..|b| - 1];
    }
  }

  /** Only what is named is counted. */
  lemma {:induction false} StoredAreCounted(before: map<Key, Entry>, input: Input)
    ensures AddedCount(before, StoredInput(input)) == AddedCount(before, input)
  {
    if input != [] {
      StoredAreCounted(before, input[..|input| - 1]);
      StoredPart(input, 0, |input| - 1);
    }
  }

  // ------------------------------------------------------- what is stored of it

  /** Carrying a time over and writing to disk do not disturb each other. */
  lemma StoredIsCarried(before: map<Key, Entry>, key: Key, entry: Entry)
    ensures AsStored(Carried(before, key, entry)) == Carried(before, key, AsStored(entry))
  {
    DecodeUndoesEncode(entry);
    DecodeUndoesEncode(Carried(before, key, entry));
  }

  /** The last assertion of each indicator named is made with a confidence that
      is kept. */
  ghost predicate LastAreKept(input: Input) {
    forall i :: 0 <= i < |input| && (forall j :: i < j < |input| ==> input[j].0 != input[i].0) ==>
      input[i].1.confidence <= 100
  }

  lemma {:induction false} LastOfKey(before: map<Key, Entry>, input: Input, i: nat)
    requires i < |input| && forall j :: i < j < |input| ==> input[j].0 != input[i].0
    ensures input[i].0 in Replaced(before, input)
    ensures Replaced(before, input)[input[i].0] == Carried(before, input[i].0, input[i].1)
  {
    if i < |input| - 1 { LastOfKey(before, input[..|input| - 1], i); }
  }

  lemma {:induction false} KeyHasLast(input: Input, n: nat) returns (i: nat)
    requires n < |input|
    ensures i < |input| && input[i].0 == input[n].0 && forall j :: i < j < |input| ==> input[j].0 != input[i].0
    decreases |input| - n
  {
    if j :| n < j < |input| && input[j].0 == input[n].0 {
      i := KeyHasLast(input, j);
    } else {
      i := n;
    }
  }

  /** A store on disk and one that keeps entries as they are hold the same feed
      exactly when every indicator's last assertion is within 100. */
  lemma StoresAgreeExactly(feeds: map<Name, Feed>, feed: Name, version: string, input: Input)
    ensures ReplaceFeed(feeds, feed, version, StoredInput(input)) == ReplaceFeed(feeds, feed, version, input)
            <==> LastAreKept(input)
  {
    var before, stored := Held(feeds, feed), StoredInput(input);
    hide Encoded, Decoded;
    if LastAreKept(input) {
      forall key
        ensures key in Replaced(before, stored) <==> key in Replaced(before, input)
        ensures key in Replaced(before, input) ==> Replaced(before, stored)[key] == Replaced(before, input)[key]
      {
        SameKeys(before, input, key);
        if key in Replaced(before, input) {
          var n :| 0 <= n < |input| && input[n].0 == key;
          var i := KeyHasLast(input, n);
          LastOfKey(before, input, i);
          LastOfKey(before, stored, i);
          DecodeUndoesEncode(input[i].1);
        }
      }
      assert Replaced(before, stored).Keys == Replaced(before, input).Keys;
      assert Replaced(before, stored) == Replaced(before, input);
    } else {
      var i :| 0 <= i < |input| && (forall j :: i < j < |input| ==> input[j].0 != input[i].0)
          && input[i].1.confidence > 100;
      LastOfKey(before, input, i);
      LastOfKey(before, stored, i);
      DecodeUndoesEncode(input[i].1);
      assert Replaced(before, input)[input[i].0].confidence != Replaced(before, stored)[input[i].0].confidence;
      assert ReplaceFeed(feeds, feed, version, input)[feed].indicators
             != ReplaceFeed(feeds, feed, version, stored)[feed].indicators;
    }
  }

  lemma SameKeys(before: map<Key, Entry>, input: Input, key: Key)
    ensures key in Replaced(before, StoredInput(input)) <==> key in Replaced(before, input)
    ensures key in Replaced(before, input) <==> exists i :: 0 <= i < |input| && input[i].0 == key
  {
    var stored := StoredInput(input);
    ReplacedHoldsKeys(before, input, key);
    ReplacedHoldsKeys(before, stored, key);
    if i :| 0 <= i < |input| && input[i].0 == key { assert stored[i].0 == key; }
  }

  // ---------------------------------------------------------------- lookups

  predicate FeedLe(a: Assertion, b: Assertion) { BytesLe(a.feed, b.feed) }

  predicate FeedLt(a: Assertion, b: Assertion) { BytesLt(a.feed, b.feed) }

  /** What the feeds assert of `key`, ordered by feed, each once. */
  ghost predicate Answers(feeds: map<Name, Feed>, key: Key, answer: seq<Assertion>) {
    && (forall i, j :: 0 <= i < j < |answer| ==> BytesLt(answer[i].feed, answer[j].feed))
    && (forall a :: a in answer <==>
          a.feed in feeds && key in feeds[a.feed].indicators
          && a == Assertion(a.feed, feeds[a.feed].version, feeds[a.feed].indicators[key]))
  }

  /** There is one answer. */
  lemma AnswerIsUnique(feeds: map<Name, Feed>, key: Key, a: seq<Assertion>, b: seq<Assertion>)
    requires Answers(feeds, key, a) && Answers(feeds, key, b)
    ensures a == b
  {
    BytesOrder();
    AscendingIsUnique(FeedLt, a, b);
  }
}
