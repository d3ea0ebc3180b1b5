/** From an observed value to the hits: which keys are asked for, and that no held
    network is missed by asking for those alone. */
module Lookups {
  import opened Base
  import opened Ordering
  import opened Addresses
  import opened Codec
  import opened Keys
  import opened Feeds
  import opened StoreSteps
  import opened StoreSafety
  import opened DiskStores
  import opened RocksStores

  const VALID_FROM := 0
  const VALID_UNTIL := 1

  /** Whether an assertion holds at a time. */
  predicate ValidAt(entry: Entry, at: int) {
    && (entry.times[VALID_FROM].Some? ==> entry.times[VALID_FROM].value <= at)
    && (entry.times[VALID_UNTIL].Some? ==> at < entry.times[VALID_UNTIL].value)
  }

  /** What a lookup answers with, one for each key that is asserted. */
  datatype Hit = Hit(indicator: Key, assertions: seq<Assertion>, suppressed: Option<string>)

  /** Some feed asserts `key` at the time. */
  ghost predicate IsAsserted(feeds: map<Name, Feed>, key: Key, at: int) {
    exists f :: f in feeds && key in feeds[f].indicators && ValidAt(feeds[f].indicators[key], at)
  }

  /** The relation a lookup is to decide between a stored key and the observed
      value: equality, or containment of an address. */
  ghost predicate NamesIt(key: Key, observed: Key) {
    key == observed || (observed.Ip? && key.Cidr? && KeyOk(key) && Holds(key.network, key.length, observed.address))
  }

  /** A hit has every assertion of its indicator that holds at the time, ordered
      by feed, and is suppressed as the observed value is. */
  ghost predicate HitIs(feeds: map<Name, Feed>, observed: Key, at: int, allows: Key -> Option<string>, hit: Hit) {
    && hit.suppressed == allows(observed) && hit.assertions != []
    && (forall i, j :: 0 <= i < j < |hit.assertions| ==> BytesLt(hit.assertions[i].feed, hit.assertions[j].feed))
    && (forall a :: a in hit.assertions <==>
          a.feed in feeds && hit.indicator in feeds[a.feed].indicators && ValidAt(a.entry, at)
          && a == Assertion(a.feed, feeds[a.feed].version, feeds[a.feed].indicators[hit.indicator]))
  }

  function Indicators(hits: seq<Hit>): (r: seq<Key>)
    ensures |r| == |hits| && forall i :: 0 <= i < |hits| ==> r[i] == hits[i].indicator
  {
    seq(|hits|, i requires 0 <= i < |hits| => hits[i].indicator)
  }

  /** The value itself, then longer networks before shorter. */
  ghost predicate InOrder(observed: Key, indicators: seq<Key>) {
    forall i, j :: 0 <= i < j < |indicators| ==> Precedes(observed, indicators[i], indicators[j])
  }

  predicate Precedes(observed: Key, a: Key, b: Key) {
    b.Cidr? && b != observed && (a == observed || (a.Cidr? && a.length > b.length))
  }

  /** The assertions that hold at a time. */
  function RetainedOf(assertions: seq<Assertion>, at: int): seq<Assertion> {
    if assertions == [] then []
    else
      var last := assertions[|assertions| - 1];
      RetainedOf(assertions[..|assertions| - 1], at) + if ValidAt(last.entry, at) then [last] else []
  }

  lemma {:induction false} RetainedIs(assertions: seq<Assertion>, at: int)
    requires forall i, j :: 0 <= i < j < |assertions| ==> BytesLt(assertions[i].feed, assertions[j].feed)
    ensures var kept := RetainedOf(assertions, at);
            && (forall i, j :: 0 <= i < j < |kept| ==> BytesLt(kept[i].feed, kept[j].feed))
            && (forall a :: a in kept <==> a in assertions && ValidAt(a.entry, at))
  {
    hide LexLe, ValidAt;
    if assertions != [] {
      var rest, last := assertions[..|assertions| - 1], assertions[|assertions| - 1];
      RetainedIs(rest, at);
      assert assertions == rest + [last];
      var kept := RetainedOf(rest, at);
      forall i | 0 <= i < |kept| ensures BytesLt(kept[i].feed, last.feed) {
        assert kept[i] in kept;
        var j :| 0 <= j < |rest| && rest[j] == kept[i];
      }
    }
  }

  method Retain(assertions: seq<Assertion>, at: int) returns (kept: seq<Assertion>)
    ensures kept == RetainedOf(assertions, at)
  {
    kept := [];
    for n := 0 to |assertions|
      invariant kept == RetainedOf(assertions[..n], at)
    {
      assert assertions[..n + 1][..n] == assertions[..n];
      if ValidAt(assertions[n].entry, at) { kept := kept + [assertions[n]]; }
    }
    assert assertions[..|assertions|] == assertions;
  }

  /** One key's hit: there is one exactly when at least one feed's assertion is
      valid then. */
  method HitOf(store: RocksStore, indicator: Key, observed: Key, at: int, allows: Key -> Option<string>)
    returns (hit: Option<Hit>)
    requires store.Valid() && SettingOk(store.e) && KeyOk(indicator)
    ensures hit.Some? <==> IsAsserted(store.Contents(), indicator, at)
    ensures hit.Some? ==> hit.value.indicator == indicator && HitIs(store.Contents(), observed, at, allows, hit.value)
  {
    hide Inv, Holding, ValidAt, LexLe, RetainedOf;
    var all := store.Assertions(indicator);
    var kept := Retain(all, at);
    RetainedIs(all, at);
    ghost var feeds := store.Contents();
    forall f | f in feeds && indicator in feeds[f].indicators
      ensures Assertion(f, feeds[f].version, feeds[f].indicators[indicator]) in all
    {
    }
    if kept != [] {
      assert kept[0] in kept;
      hit := Some(Hit(indicator, kept, allows(observed)));
    } else {
      assert forall a :: a in all ==> a !in kept;
      hit := None;
    }
  }

  /** A held network that holds an address is among those asked for. */
  lemma AskedFor(e: Setting, s: State, f: Name, key: Key, address: Address)
    requires Inv(e, s) && f in s.feeds && key in Holding(s)[f].indicators && key.Cidr? && InFamily(address)
    ensures KeyOk(key)
    ensures Holds(key.network, key.length, address) <==> key in NetworksFor(s.lengths, address, Width(address))
  {
    var id := EntryId(key, f, s.feeds[f].generation);
    ContentIs(s.durable.entries, f, s.feeds[f].generation, key);
    assert Reachable(e, s, key);
    NetworksAreThese(s.lengths, address, Width(address));
    hide Masked, Pow2, JobOk;
    if key.network.V4? == address.V4? {
      HoldsIsMasked(key.network, key.length, address);
    } else if key.length <= Width(address) {
      assert Masked(address, key.length).V4? == address.V4?;
    }
  }

  lemma AskedForIsOk(lengths: PrefixLengths, address: Address)
    requires InFamily(address)
    ensures forall key :: key in NetworksFor(lengths, address, Width(address)) ==>
              KeyOk(key) && key.Cidr? && Holds(key.network, key.length, address)
  {
    NetworksAreThese(lengths, address, Width(address));
    forall key | key in NetworksFor(lengths, address, Width(address))
      ensures KeyOk(key) && key.Cidr? && Holds(key.network, key.length, address)
    {
      MaskedIsCanonical(address, key.length);
    }
  }

  /** All hits of an observed value. Sound and complete with respect to `NamesIt`,
      without repeats, and in the order a reader of hits relies on. */
  method Lookup(store: RocksStore, observed: Option<Key>, at: int, allows: Key -> Option<string>)
    returns (hits: seq<Hit>)
    requires store.Valid() && SettingOk(store.e) && (observed.Some? ==> KeyOk(observed.value))
    ensures observed.None? ==> hits == []
    ensures observed.Some? ==> forall h :: h in hits ==> HitIs(store.Contents(), observed.value, at, allows, h)
    ensures observed.Some? ==> InOrder(observed.value, Indicators(hits))
    ensures observed.Some? ==> forall key :: key in Indicators(hits) <==>
              NamesIt(key, observed.value) && IsAsserted(store.Contents(), key, at)
  {
    if observed.None? { return []; }
    var key := observed.value;
    var asked := Asked(key, store.lengths);
    AskedInOrder(store.lengths, key);
    hide Inv, Holding, ValidAt, HitIs, IsAsserted, NamesIt, KeyOk, Asked;
    hits := HitsOf(store, asked, key, at, allows);
    forall k: Key ensures k in Indicators(hits) <==> NamesIt(k, key) && IsAsserted(store.Contents(), k, at) {
      AssertedIsAskedFor(store.e, store.Now(), k, key, at);
    }
  }

  /** What is asked for: the value, then the networks of the lengths in use that
      hold it. */
  function Asked(observed: Key, lengths: PrefixLengths): seq<Key>
    requires KeyOk(observed)
  {
    if observed.Ip? then [observed] + NetworksFor(lengths, observed.address, Width(observed.address)) else [observed]
  }

  /** What names the value is asked for exactly when it is the value, or its length
      is in use. */
  lemma AskedExactly(lengths: PrefixLengths, observed: Key, key: Key)
    requires KeyOk(observed)
    ensures key in Asked(observed, lengths) <==>
            NamesIt(key, observed) && (key == observed || HasLength(lengths, observed.address, key.length))
  {
    hide Masked, Pow2;
    if observed.Ip? {
      var address := observed.address;
      NetworksAreThese(lengths, address, Width(address));
      AskedForIsOk(lengths, address);
      if key != observed && NamesIt(key, observed) { HoldsIsMasked(key.network, key.length, address); }
    }
  }

  lemma AskedInOrder(lengths: PrefixLengths, key: Key)
    requires KeyOk(key)
    ensures InOrder(key, Asked(key, lengths))
    ensures forall k :: k in Asked(key, lengths) ==> KeyOk(k)
  {
    if key.Ip? {
      NetworksAreLongestFirst(lengths, key.address, Width(key.address));
      AskedForIsOk(lengths, key.address);
    }
  }

  /** The hits of the indicators asked for, in the order asked. */
  method HitsOf(store: RocksStore, asked: seq<Key>, observed: Key, at: int, allows: Key -> Option<string>)
    returns (hits: seq<Hit>)
    requires store.Valid() && SettingOk(store.e) && InOrder(observed, asked)
    requires forall key :: key in asked ==> KeyOk(key)
    ensures forall h :: h in hits ==> HitIs(store.Contents(), observed, at, allows, h)
    ensures InOrder(observed, Indicators(hits))
    ensures forall key :: key in Indicators(hits) <==> key in asked && IsAsserted(store.Contents(), key, at)
  {
    hide Inv, Holding, ValidAt, HitIs, IsAsserted, KeyOk;
    hits := [];
    for n := 0 to |asked|
      invariant forall h :: h in hits ==> HitIs(store.Contents(), observed, at, allows, h)
      invariant InOrder(observed, Indicators(hits))
      invariant forall key :: key in Indicators(hits) <==> key in asked[..n] && IsAsserted(store.Contents(), key, at)
    {
      assert asked[n] in asked && asked[..n + 1] == asked[..n] + [asked[n]];
      var hit := HitOf(store, asked[n], observed, at, allows);
      if hit.Some? {
        OrderedOneMore(observed, Indicators(hits), asked, n);
        assert Indicators(hits + [hit.value]) == Indicators(hits) + [asked[n]];
        hits := hits + [hit.value];
      }
    }
    assert asked[..|asked|] == asked;
  }

  lemma OrderedOneMore(observed: Key, indicators: seq<Key>, asked: seq<Key>, n: nat)
    requires InOrder(observed, asked) && InOrder(observed, indicators) && n < |asked|
    requires forall key :: key in indicators ==> key in asked[..n]
    ensures InOrder(observed, indicators + [asked[n]])
  {
    var all, next := indicators + [asked[n]], asked[n];
    forall i | 0 <= i < |indicators| ensures Precedes(observed, indicators[i], next) {
      assert indicators[i] in indicators;
      var k :| 0 <= k < n && asked[k] == indicators[i];
    }
    assert forall i, j :: 0 <= i < j < |indicators| ==> Precedes(observed, indicators[i], indicators[j]);
    assert forall i, j :: 0 <= i < j < |all| ==> Precedes(observed, all[i], all[j]);
  }

  lemma AssertedIsAskedFor(e: Setting, s: State, key: Key, observed: Key, at: int)
    requires Inv(e, s) && KeyOk(observed)
    ensures IsAsserted(Holding(s), key, at) ==>
              (NamesIt(key, observed) <==>
               key in Asked(observed, s.lengths))
  {
    hide Inv, ValidAt, Holds;
    if IsAsserted(Holding(s), key, at) && observed.Ip? {
      if key.Cidr? {
        var f :| f in Holding(s) && key in Holding(s)[f].indicators && ValidAt(Holding(s)[f].indicators[key], at);
        AskedFor(e, s, f, key, observed.address);
      } else {
        AskedForIsOk(s.lengths, observed.address);
      }
    }
  }
}
