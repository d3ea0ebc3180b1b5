/** How the store on disk writes its keys and values as bytes. */
module Codec {
  import opened Base
  import opened Ordering

  type Bytes = seq<Byte>

  // ---------------------------------------------------------------- numbers

  function Pow256(width: nat): (r: nat)
    ensures r > 0
  {
    if width == 0 then 1 else 256 * Pow256(width - 1)
  }

  /** `n` in `width` bytes, the most significant first. */
  function BigEndian(n: nat, width: nat): (r: Bytes)
    ensures |r| == width
  {
    if width == 0 then [] else BigEndian(n / 256, width - 1) + [n % 256]
  }

  function FromBigEndian(bytes: Bytes): nat {
    if bytes == [] then 0 else FromBigEndian(bytes[..|bytes| - 1]) * 256 + bytes[|bytes| - 1]
  }

  lemma {:induction false} BigEndianReadsBack(n: nat, width: nat)
    requires n < Pow256(width)
    ensures FromBigEndian(BigEndian(n, width)) == n
  {
    if width > 0 {
      BigEndianReadsBack(n / 256, width - 1);
      assert BigEndian(n, width)[..width - 1] == BigEndian(n / 256, width - 1);
    }
  }

  function ByteCode(b: Byte): int { b }

  /** The order of byte strings. */
  predicate BytesLe(a: Bytes, b: Bytes) { LexLe(ByteCode, a, b) }

  predicate BytesLt(a: Bytes, b: Bytes) { BytesLe(a, b) && a != b }

  lemma BytesOrder()
    ensures TotalOrder(BytesLe)
  {
    forall a, b ensures BytesLe(a, b) || BytesLe(b, a) { LexTotal(ByteCode, a, b); }
    forall a, b, c | BytesLe(a, b) && BytesLe(b, c) ensures BytesLe(a, c) { LexTransitive(ByteCode, a, b, c); }
    forall a, b | BytesLe(a, b) && BytesLe(b, a) ensures a == b { LexAntisymmetric(ByteCode, a, b); }
  }

  lemma {:induction false} LastByteDecides(a: Bytes, b: Bytes, x: Byte, y: Byte)
    requires |a| == |b|
    ensures BytesLe(a + [x], b + [y]) <==> (BytesLe(a, b) && a != b) || (a == b && x <= y)
  {
    if a == [] {
      assert a + [x] == [x] && b + [y] == [y];
      assert [x][1..] == [] && [y][1..] == [] && LexLe(ByteCode, [x][1..], [y][1..]);
      assert b == [] ==> (BytesLe([x], [y]) <==> x <= y);
    } else {
      LastByteDecides(a[1..], b[1..], x, y);
      assert (a + [x])[1..] == a[1..] + [x] && (b + [y])[1..] == b[1..] + [y];
      assert a == [a[0]] + a[1..] && b == [b[0]] + b[1..];
    }
  }

  /** Numbers of one width are in the order of their bytes. */
  lemma {:induction false} BigEndianKeepsOrder(m: nat, n: nat, width: nat)
    requires m < Pow256(width) && n < Pow256(width)
    ensures BytesLe(BigEndian(m, width), BigEndian(n, width)) <==> m <= n
    ensures BigEndian(m, width) == BigEndian(n, width) <==> m == n
  {
    BigEndianReadsBack(m, width);
    BigEndianReadsBack(n, width);
    if width > 0 {
      BigEndianKeepsOrder(m / 256, n / 256, width - 1);
      LastByteDecides(BigEndian(m / 256, width - 1), BigEndian(n / 256, width - 1), m % 256, n % 256);
    }
  }

  // ------------------------------------------------------------ entry keys

  /** How an entry is stored: two parts that hold no NUL, each closed by one, before
      eight bytes that may hold any. */
  function EntryKey(indicator: Bytes, feed: Bytes, generation: nat): Bytes {
    indicator + [0] + feed + [0] + BigEndian(generation, 8)
  }

  predicate NoNul(bytes: Bytes) { forall i :: 0 <= i < |bytes| ==> bytes[i] != 0 }

  /** Where the first NUL is. */
  function FirstNul(bytes: Bytes): (r: Option<nat>)
    ensures r.Some? ==> r.value < |bytes| && bytes[r.value] == 0 && NoNul(bytes[..r.value])
    ensures r.None? ==> NoNul(bytes)
  {
    if bytes == [] then None
    else if bytes[0] == 0 then Some(0)
    else
      match FirstNul(bytes[1..])
      case None => None
      case Some(at) =>
        assert bytes[..at + 1] == [bytes[0]] + bytes[1..][..at];
        Some(at + 1)
  }

  /** Takes a stored key apart from both ends. What is text is a parameter: `isText`
      is asked of the feed's bytes. */
  function Split(isText: Bytes -> bool, key: Bytes): Option<(Bytes, Bytes, nat)> {
    if |key| < 8 then None
    else
      var rest := key[..|key| - 8];
      if rest == [] || rest[|rest| - 1] != 0 then None
      else
        var names := rest[..|rest| - 1];
        match FirstNul(names)
        case None => None
        case Some(end) =>
          if !isText(names[end + 1..]) then None
          else Some((names[..end], names[end + 1..], FromBigEndian(key[|key| - 8..])))
  }

  lemma FirstNulOfPair(a: Bytes, b: Bytes)
    requires NoNul(a)
    ensures FirstNul(a + [0] + b) == Some(|a|)
  {
    var all := a + [0] + b;
    assert all[|a|] == 0 && forall i :: 0 <= i < |a| ==> all[i] == a[i] && a[i] != 0;
    var at := FirstNul(all).value;
    assert at >= |a|;
    assert forall i :: 0 <= i < at ==> all[..at][i] == all[i];
  }

  /** Splitting undoes joining, whatever NULs the generation's bytes hold. */
  lemma SplitUndoesEntryKey(isText: Bytes -> bool, indicator: Bytes, feed: Bytes, generation: nat)
    requires NoNul(indicator) && isText(feed) && generation < Pow256(8)
    ensures Split(isText, EntryKey(indicator, feed, generation)) == Some((indicator, feed, generation))
  {
    var key := EntryKey(indicator, feed, generation);
    var names := indicator + [0] + feed;
    assert key[..|key| - 8] == names + [0] && (names + [0])[..|names|] == names;
    assert key[|key| - 8..] == BigEndian(generation, 8);
    FirstNulOfPair(indicator, feed);
    assert names[..|indicator|] == indicator && names[|indicator| + 1..] == feed;
    BigEndianReadsBack(generation, 8);
  }

  // ------------------------------------------------------- the range scanned

  /** The keys read for an indicator: from its bytes and a NUL, up to its bytes
      and a one. */
  predicate InScan(indicator: Bytes, key: Bytes) {
    BytesLe(indicator + [0], key) && BytesLt(key, indicator + [1])
  }

  lemma {:induction false} ScanIsPrefix(indicator: Bytes, key: Bytes)
    ensures InScan(indicator, key) <==> indicator + [0] <= key
  {
    if indicator == [] {
      assert [0][1..] == [] && [1][1..] == [];
      if key != [] {
        assert key == [key[0]] + key[1..];
        assert key[0] == 1 && key[1..] == [] ==> key == [1];
        assert [0] <= key <==> key[0] == 0;
        assert LexLe(ByteCode, [0][1..], key[1..]);
        assert LexLe(ByteCode, key[1..], [1][1..]) <==> key[1..] == [];
      }
      assert indicator + [0] == [0] && indicator + [1] == [1];
    } else if key != [] {
      ScanIsPrefix(indicator[1..], key[1..]);
      assert (indicator + [0])[1..] == indicator[1..] + [0] && (indicator + [1])[1..] == indicator[1..] + [1];
      assert key == [key[0]] + key[1..];
      assert indicator + [1] == [indicator[0]] + (indicator[1..] + [1]);
      assert indicator + [0] == [indicator[0]] + (indicator[1..] + [0]);
    }
  }

  /** The range scanned for an indicator holds exactly its entries. */
  lemma ScanHoldsItsEntries(indicator: Bytes, other: Bytes, feed: Bytes, generation: nat)
    requires NoNul(indicator) && NoNul(other)
    ensures InScan(indicator, EntryKey(other, feed, generation)) <==> other == indicator
  {
    var key := EntryKey(other, feed, generation);
    ScanIsPrefix(indicator, key);
    if indicator + [0] <= key {
      assert key[|indicator|] == 0 && key[|other|] == 0;
      assert forall i :: 0 <= i < |other| ==> key[i] == other[i];
      assert forall i :: 0 <= i < |indicator| ==> key[i] == indicator[i];
      assert other == key[..|other|] == indicator;
    }
    if other == indicator { assert key[..|indicator| + 1] == indicator + [0]; }
  }

  lemma {:induction false} SharedPrefixDrops(prefix: Bytes, a: Bytes, b: Bytes)
    ensures BytesLe(prefix + a, prefix + b) <==> BytesLe(a, b)
  {
    if prefix == [] {
      assert prefix + a == a && prefix + b == b;
    } else {
      SharedPrefixDrops(prefix[1..], a, b);
      assert (prefix + a)[1..] == prefix[1..] + a && (prefix + b)[1..] == prefix[1..] + b;
    }
  }

  lemma {:induction false} NulEndsAName(a: Bytes, b: Bytes, x: Bytes, y: Bytes)
    requires NoNul(a) && NoNul(b)
    ensures BytesLe(a + [0] + x, b + [0] + y) <==> BytesLt(a, b) || (a == b && BytesLe(x, y))
  {
    if a == [] || b == [] {
      var p, q := a + [0] + x, b + [0] + y;
      assert a == [] ==> p[0] == 0 && p[1..] == x;
      assert b == [] ==> q[0] == 0 && q[1..] == y;
      assert a != [] ==> p[0] == a[0];
      assert b != [] ==> q[0] == b[0];
    } else {
      NulEndsAName(a[1..], b[1..], x, y);
      assert (a + [0] + x)[1..] == a[1..] + [0] + x && (b + [0] + y)[1..] == b[1..] + [0] + y;
      assert a == [a[0]] + a[1..] && b == [b[0]] + b[1..];
    }
  }

  /** An indicator's entries stand in the order of their feeds' names, those of
      one feed in the order of their generations. */
  lemma EntriesAreOrderedByFeed(indicator: Bytes, f: Bytes, g: nat, f': Bytes, g': nat)
    requires NoNul(f) && NoNul(f') && g < Pow256(8) && g' < Pow256(8)
    ensures BytesLe(EntryKey(indicator, f, g), EntryKey(indicator, f', g')) <==> BytesLt(f, f') || (f == f' && g <= g')
  {
    var x, y := BigEndian(g, 8), BigEndian(g', 8);
    assert EntryKey(indicator, f, g) == (indicator + [0]) + (f + [0] + x);
    assert EntryKey(indicator, f', g') == (indicator + [0]) + (f' + [0] + y);
    SharedPrefixDrops(indicator + [0], f + [0] + x, f' + [0] + y);
    NulEndsAName(f, f', x, y);
    BigEndianKeepsOrder(g, g', 8);
  }

  // ------------------------------------------------------------- assertions

  /** What an entry stores of an assertion: the confidence, and the times that
      are present. */
  datatype Stored = Stored(confidence: Byte, times: seq<Option<int>>)

  const TIMES := 5
  const HALF := 0x8000_0000_0000_0000
  const WHOLE := 0x1_0000_0000_0000_0000

  predicate InSigned(t: int) { -HALF <= t < HALF }

  /** Five times of 64 bits each. */
  predicate StoredOk(s: Stored) {
    |s.times| == TIMES && forall i :: 0 <= i < TIMES ==> s.times[i].Some? ==> InSigned(s.times[i].value)
  }

  function ToSigned(n: nat): int { if n >= HALF then n - WHOLE else n }

  function FromSigned(t: int): nat
    requires InSigned(t)
  {
    if t < 0 then t + WHOLE else t
  }

  /** Which times are present, the first in the lowest bit. */
  function Present(times: seq<Option<int>>): nat {
    if times == [] then 0 else (if times[0].Some? then 1 else 0) + 2 * Present(times[1..])
  }

  predicate TimesOk(times: seq<Option<int>>) {
    forall i :: 0 <= i < |times| && times[i].Some? ==> InSigned(times[i].value)
  }

  function TimesWritten(times: seq<Option<int>>): Bytes
    requires TimesOk(times)
  {
    if times == [] then []
    else (if times[0].Some? then BigEndian(FromSigned(times[0].value), 8) else []) + TimesWritten(times[1..])
  }

  lemma {:induction false} PresentFits(times: seq<Option<int>>)
    requires |times| <= TIMES
    ensures |times| == 0 ==> Present(times) < 1
    ensures |times| == 1 ==> Present(times) < 2
    ensures |times| == 2 ==> Present(times) < 4
    ensures |times| == 3 ==> Present(times) < 8
    ensures |times| == 4 ==> Present(times) < 16
    ensures |times| == 5 ==> Present(times) < 32
  {
    if times != [] { PresentFits(times[1..]); }
  }

  function Encoded(s: Stored): Bytes
    requires StoredOk(s)
  {
    PresentFits(s.times);
    [s.confidence, Present(s.times)] + TimesWritten(s.times)
  }

  /** The times read so far, and those that `present` says follow. */
  function TimesRead(present: nat, rest: Bytes, times: seq<Option<int>>): Option<seq<Option<int>>>
    decreases TIMES - |times|
  {
    if |times| >= TIMES then Some(times)
    else if present % 2 == 1 then
      if |rest| < 8 then None
      else TimesRead(present / 2, rest[8..], times + [Some(ToSigned(FromBigEndian(rest[..8])))])
    else TimesRead(present / 2, rest, times + [None])
  }

  /** What is read caps the confidence at 100, as every assertion made is. */
  function Decoded(bytes: Bytes): Option<Stored> {
    if |bytes| < 2 then None
    else
      match TimesRead(bytes[1], bytes[2..], [])
      case None => None
      case Some(times) => Some(Stored(if bytes[0] > 100 then 100 else bytes[0], times))
  }

  lemma {:induction false} TimesReadBack(read: seq<Option<int>>, times: seq<Option<int>>)
    requires TimesOk(times) && |read| + |times| == TIMES
    ensures TimesRead(Present(times), TimesWritten(times), read) == Some(read + times)
    decreases times
  {
    if times == [] {
      assert read + times == read;
    } else {
      TimesReadBack(read + [times[0]], times[1..]);
      assert read + times == read + [times[0]] + times[1..];
      TimeReadsBack(times);
      hide BigEndian, FromBigEndian, FromSigned, ToSigned, TimesWritten;
    }
  }

  lemma TimeReadsBack(times: seq<Option<int>>)
    requires TimesOk(times) && times != []
    ensures var written := TimesWritten(times);
            if times[0].None? then written == TimesWritten(times[1..])
            else |written| >= 8 && written[8..] == TimesWritten(times[1..])
                 && ToSigned(FromBigEndian(written[..8])) == times[0].value
  {
    if times[0].Some? {
      var bytes := BigEndian(FromSigned(times[0].value), 8);
      assert TimesWritten(times)[..8] == bytes && TimesWritten(times)[8..] == TimesWritten(times[1..]);
      EightBytesHold(FromSigned(times[0].value));
    }
    hide BigEndian, FromBigEndian;
  }

  lemma EightBytesHold(n: nat)
    requires n < WHOLE
    ensures FromBigEndian(BigEndian(n, 8)) == n
  {
    assert Pow256(1) == 256 && Pow256(2) == 0x1_0000 && Pow256(3) == 0x100_0000 && Pow256(4) == 0x1_0000_0000;
    assert Pow256(5) == 0x100_0000_0000 && Pow256(6) == 0x1_0000_0000_0000 && Pow256(7) == 0x100_0000_0000_0000;
    assert Pow256(8) == WHOLE;
    BigEndianReadsBack(n, 8);
  }

  /** An entry reads back as what was stored, for every subset of the times,
      exactly when its confidence is one an assertion can be made with. */
  lemma DecodeUndoesEncode(s: Stored)
    requires StoredOk(s)
    ensures Decoded(Encoded(s)) == Some(s) <==> s.confidence <= 100
    ensures Decoded(Encoded(s)) == Some(s.(confidence := if s.confidence > 100 then 100 else s.confidence))
  {
    PresentFits(s.times);
    assert TimesOk(s.times);
    TimesReadBack([], s.times);
    assert [] + s.times == s.times;
    assert Encoded(s)[2..] == TimesWritten(s.times);
  }

  /** What is written so far, with the bits that follow, is the whole. */
  ghost predicate Adds(present: nat, bit: nat, rest: nat, whole: nat) { present + bit * rest == whole }

  lemma NextBit(present: nat, bit: nat, head: nat, tail: nat, whole: nat)
    requires Adds(present, bit, head + 2 * tail, whole) && head <= 1
    ensures Adds(present + if head == 1 then bit else 0, bit * 2, tail, whole)
  {
    assert bit * (head + 2 * tail) == bit * head + (bit * 2) * tail;
  }

  /** The loop that writes an assertion. */
  method Encode(s: Stored) returns (value: Bytes)
    requires StoredOk(s)
    ensures value == Encoded(s)
  {
    PresentFits(s.times);
    var present: nat, bit: nat := 0, 1;
    ghost var body: Bytes := [];
    value := [s.confidence, 0];
    assert TimesOk(s.times);
    assert s.times[0..] == s.times && Adds(0, 1, Present(s.times), Present(s.times));
    assert IsBody(body, s.times, 0);
    hide Adds, BigEndian, FromSigned, IsBody, TimesWritten;
    for i := 0 to TIMES
      invariant value == [s.confidence, 0] + body
      invariant Adds(present, bit, Present(s.times[i..]), Present(s.times))
      invariant IsBody(body, s.times, i)
    {
      TimesInTwo(s.times, i);
      NextTime(body, s.times, i);
      NextBit(present, bit, if s.times[i].Some? then 1 else 0, Present(s.times[i + 1..]), Present(s.times));
      if s.times[i].Some? {
        var bytes := BigEndian(FromSigned(s.times[i].value), 8);
        present, body, value := present + bit, body + bytes, value + bytes;
      }
      bit := bit * 2;
    }
    AllAdded(present, bit, body, s.times);
    value := value[1 := present];
  }

  /** The times before `i`, written. */
  ghost predicate IsBody(body: Bytes, times: seq<Option<int>>, i: nat) {
    TimesOk(times) && i <= |times| && TimesOk(times[i..]) && body + TimesWritten(times[i..]) == TimesWritten(times)
  }

  lemma NextTime(body: Bytes, times: seq<Option<int>>, i: nat)
    requires IsBody(body, times, i) && i < |times|
    ensures times[i].Some? ==> IsBody(body + BigEndian(FromSigned(times[i].value), 8), times, i + 1)
    ensures times[i].None? ==> IsBody(body, times, i + 1)
  {
    hide BigEndian, FromSigned;
    TimesInTwo(times, i);
    var tail := TimesWritten(times[i + 1..]);
    if times[i].Some? {
      var bytes := BigEndian(FromSigned(times[i].value), 8);
      assert body + (bytes + tail) == body + bytes + tail;
    } else {
      assert [] + tail == tail;
    }
  }

  lemma AllAdded(present: nat, bit: nat, body: Bytes, times: seq<Option<int>>)
    requires |times| == TIMES && TimesOk(times) && Adds(present, bit, Present(times[TIMES..]), Present(times))
    requires IsBody(body, times, TIMES)
    ensures present == Present(times) && body == TimesWritten(times)
  {
    assert times[TIMES..] == [] && body + [] == body;
  }

  lemma TimesInTwo(times: seq<Option<int>>, i: nat)
    requires TimesOk(times) && i < |times|
    ensures Present(times[i..]) == (if times[i].Some? then 1 else 0) + 2 * Present(times[i + 1..])
    ensures TimesWritten(times[i..])
            == (if times[i].Some? then BigEndian(FromSigned(times[i].value), 8) else []) + TimesWritten(times[i + 1..])
  {
    hide BigEndian, FromSigned;
    assert times[i..][1..] == times[i + 1..];
  }

  /** The loop that reads one, over a shrinking rest. */
  method Decode(bytes: Bytes) returns (r: Option<Stored>)
    ensures r == Decoded(bytes)
  {
    if |bytes| < 2 { return None; }
    var present: nat, rest, times: seq<Option<int>> := bytes[1], bytes[2..], [];
    for i := 0 to TIMES
      invariant |times| == i && TimesRead(bytes[1], bytes[2..], []) == TimesRead(present, rest, times)
    {
      if present % 2 == 1 {
        if |rest| < 8 { return None; }
        times, rest := times + [Some(ToSigned(FromBigEndian(rest[..8])))], rest[8..];
      } else {
        times := times + [None];
      }
      present := present / 2;
    }
    r := Some(Stored(if bytes[0] > 100 then 100 else bytes[0], times));
  }
}
