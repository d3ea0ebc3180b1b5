/** Splitting a byte stream into syslog messages, with the two framings of RFC 6587
    told apart by a number and a space before a message. */
module Framing {
  import opened Base
  import opened Decimals

  type Bytes = seq<Byte>

  const SPACE := 32
  const LF := 10
  const CR := 13

  predicate IsSpace(b: Byte) { b == SPACE || b == 9 || b == LF || b == 12 || b == CR }

  /** A message, or what is left when a count runs past the end. */
  datatype Frame = Message(bytes: Bytes) | Broken(rest: Bytes)

  /** How many bytes at the start are white space. */
  function Blank(bytes: Bytes): (r: nat)
    ensures r <= |bytes| && (forall i :: 0 <= i < r ==> IsSpace(bytes[i])) && (r < |bytes| ==> !IsSpace(bytes[r]))
  {
    if bytes == [] || !IsSpace(bytes[0]) then 0 else 1 + Blank(bytes[1..])
  }

  /** How many bytes at the start are digits. */
  function Digits(bytes: Bytes): (r: nat)
    ensures r <= |bytes| && (forall i :: 0 <= i < r ==> IsDigit(bytes[i])) && (r < |bytes| ==> !IsDigit(bytes[r]))
  {
    if bytes == [] || !IsDigit(bytes[0]) then 0 else 1 + Digits(bytes[1..])
  }

  /** Where the line ends. */
  function LineEnd(bytes: Bytes): (r: nat)
    ensures r <= |bytes| && (forall i :: 0 <= i < r ==> bytes[i] != LF) && (r < |bytes| ==> bytes[r] == LF)
  {
    if bytes == [] || bytes[0] == LF then 0 else 1 + LineEnd(bytes[1..])
  }

  predicate IsCounted(bytes: Bytes) { Digits(bytes) > 0 && Digits(bytes) < |bytes| && bytes[Digits(bytes)] == SPACE }

  function WithoutCr(line: Bytes): Bytes { if line != [] && line[|line| - 1] == CR then line[..|line| - 1] else line }

  /** The first message of what begins with no white space, and how many bytes
      it takes; none are left when its count runs past the end. */
  function FirstFrame(rest: Bytes): (r: (Frame, Option<nat>))
    requires rest != [] && !IsSpace(rest[0])
    ensures r.1.Some? ==> 0 < r.1.value <= |rest|
    ensures r.0.Broken? <==> r.1.None?
    ensures r.0.Broken? ==> r.0.rest == rest
  {
    if IsCounted(rest) then
      var digits := Digits(rest);
      var length := Parse(rest[..digits]);
      if length.Some? && length.value <= |rest| - digits - 1 then
        (Message(rest[digits + 1..][..length.value]), Some(digits + 1 + length.value))
      else (Broken(rest), None)
    else
      (Message(WithoutCr(rest[..LineEnd(rest)])), Some(LineEnd(rest)))
  }

  /** The messages of a stream. */
  function Frames(bytes: Bytes): seq<Frame>
    decreases |bytes|
  {
    var rest := bytes[Blank(bytes)..];
    if rest == [] then []
    else
      var (frame, used) := FirstFrame(rest);
      if used.None? then [frame] else [frame] + Frames(rest[used.value..])
  }

  lemma FramesOf(bytes: Bytes)
    ensures var rest := bytes[Blank(bytes)..];
            Frames(bytes) ==
            if rest == [] then []
            else if FirstFrame(rest).1.None? then [FirstFrame(rest).0]
            else [FirstFrame(rest).0] + Frames(rest[FirstFrame(rest).1.value..])
  {
    hide FirstFrame;
  }

  /** The frames found, and those of what is left, are all. */
  ghost predicate AreFound(found: seq<Frame>, rest: Bytes, bytes: Bytes) { found + Frames(rest) == Frames(bytes) }

  lemma OneFrameMore(found: seq<Frame>, left: Bytes, bytes: Bytes)
    requires AreFound(found, left, bytes)
    ensures var rest := left[Blank(left)..];
            if rest == [] then found == Frames(bytes)
            else
              var (frame, used) := FirstFrame(rest);
              if used.None? then found + [frame] == Frames(bytes)
              else AreFound(found + [frame], rest[used.value..], bytes)
  {
    FramesOf(left);
    hide Frames, FirstFrame, IsSpace;
    var rest := left[Blank(left)..];
    if rest != [] && FirstFrame(rest).1.Some? {
      var next := Frames(rest[FirstFrame(rest).1.value..]);
      assert found + ([FirstFrame(rest).0] + next) == found + [FirstFrame(rest).0] + next;
    }
  }

  /** The loop that frames them: every turn takes some of the rest. */
  method Messages(bytes: Bytes) returns (found: seq<Frame>)
    ensures found == Frames(bytes)
  {
    found := [];
    var rest := bytes;
    assert [] + Frames(rest) == Frames(rest);
    assert AreFound(found, rest, bytes);
    hide *;
    while true
      invariant AreFound(found, rest, bytes)
      decreases |rest|
    {
      OneFrameMore(found, rest, bytes);
      rest := rest[Blank(rest)..];
      if rest == [] { return; }
      var frame, used := Take(rest);
      found := found + [frame];
      if used.None? { return; }
      rest := rest[used.value..];
    }
  }

  /** The first message of the rest, by its count or by its line. */
  method Take(rest: Bytes) returns (frame: Frame, used: Option<nat>)
    requires rest != [] && !IsSpace(rest[0])
    ensures (frame, used) == FirstFrame(rest)
  {
    var digits := Digits(rest);
    if digits > 0 && digits < |rest| && rest[digits] == SPACE {
      var length := Parse(rest[..digits]);
      var body := rest[digits + 1..];
      if length.None? || length.value > |body| { return Broken(rest), None; }
      return Message(body[..length.value]), Some(digits + 1 + length.value);
    }
    var end := LineEnd(rest);
    return Message(WithoutCr(rest[..end])), Some(end);
  }

  // ---------------------------------------------------------------- round trip

  /** A message as a sender writes it: counted, or as a line. */
  datatype Sent = Counted(message: Bytes) | Line(message: Bytes, cr: bool)

  function Wire(s: Sent): Bytes {
    match s
    case Counted(m) => Decimal(|m|) + [SPACE] + m
    case Line(m, cr) => m + if cr then [CR, LF] else [LF]
  }

  /** What a line can carry; a counted message may be any bytes. */
  predicate CanSend(s: Sent) {
    match s
    case Counted(m) => |m| < LIMIT
    case Line(m, cr) =>
      m != [] && !IsSpace(m[0]) && LF !in m && !IsCounted(m) && (m[|m| - 1] == CR ==> cr)
  }

  function Stream(sent: seq<Sent>): Bytes { if sent == [] then [] else Wire(sent[0]) + Stream(sent[1..]) }

  function Received(sent: seq<Sent>): seq<Frame> {
    if sent == [] then [] else [Message(sent[0].message)] + Received(sent[1..])
  }

  lemma {:induction false} DigitsAre(a: Bytes, rest: Bytes)
    requires forall i :: 0 <= i < |a| ==> IsDigit(a[i])
    requires rest != [] ==> !IsDigit(rest[0])
    ensures Digits(a + rest) == |a|
  {
    var all := a + rest;
    assert forall i :: 0 <= i < |a| ==> all[i] == a[i];
    assert rest != [] ==> all[|a|] == rest[0];
  }

  lemma StartsAtOnce(bytes: Bytes)
    requires bytes != [] && !IsSpace(bytes[0])
    ensures var (frame, used) := FirstFrame(bytes);
            Frames(bytes) == if used.None? then [frame] else [frame] + Frames(bytes[used.value..])
  {
    hide FirstFrame;
    assert bytes[Blank(bytes)..] == bytes;
  }

  lemma CountedIsFirst(m: Bytes, rest: Bytes)
    requires |m| < LIMIT
    ensures var all := Wire(Counted(m)) + rest;
            all != [] && !IsSpace(all[0]) && FirstFrame(all) == (Message(m), Some(|Wire(Counted(m))|))
  {
    DecimalReadsBack(|m|);
    CountIsFirst(Decimal(|m|), m, rest);
  }

  lemma CountIsFirst(count: Bytes, m: Bytes, rest: Bytes)
    requires count != [] && (forall i :: 0 <= i < |count| ==> IsDigit(count[i])) && Parse(count) == Some(|m|)
    ensures var all := count + [SPACE] + m + rest;
            all != [] && !IsSpace(all[0]) && FirstFrame(all) == (Message(m), Some(|count| + 1 + |m|))
  {
    var all := count + [SPACE] + m + rest;
    var tail := [SPACE] + m + rest;
    assert all == count + tail && all[0] == count[0];
    CountIsRead(count, tail);
    hide *;
    assert all[|count| + 1..] == m + rest;
    CountedFrame(all, m);
  }

  lemma CountedFrame(all: Bytes, m: Bytes)
    requires all != [] && !IsSpace(all[0]) && IsCounted(all)
    requires Parse(all[..Digits(all)]) == Some(|m|) && m <= all[Digits(all) + 1..]
    ensures FirstFrame(all) == (Message(m), Some(Digits(all) + 1 + |m|))
  {
    hide Digits, Parse, IsSpace;
    assert all[Digits(all) + 1..][..|m|] == m;
  }

  lemma CountIsRead(count: Bytes, tail: Bytes)
    requires count != [] && forall i :: 0 <= i < |count| ==> IsDigit(count[i])
    requires tail != [] && tail[0] == SPACE
    ensures IsCounted(count + tail) && Digits(count + tail) == |count| && (count + tail)[..|count|] == count
  {
    DigitsAre(count, tail);
    assert (count + tail)[|count|] == tail[0];
  }

  lemma CountedIsReceived(m: Bytes, rest: Bytes)
    requires |m| < LIMIT
    ensures Frames(Wire(Counted(m)) + rest) == [Message(m)] + Frames(rest)
  {
    hide Frames, FirstFrame, Wire;
    CountedIsFirst(m, rest);
    var all := Wire(Counted(m)) + rest;
    StartsAtOnce(all);
    assert all[|Wire(Counted(m))|..] == rest;
  }

  lemma LineFeedIsSkipped(rest: Bytes)
    ensures Frames([LF] + rest) == Frames(rest)
  {
    assert ([LF] + rest)[1..] == rest;
    assert ([LF] + rest)[Blank([LF] + rest)..] == rest[Blank(rest)..];
  }

  lemma LineIsFirst(m: Bytes, cr: bool, rest: Bytes)
    requires CanSend(Line(m, cr))
    ensures var all := Wire(Line(m, cr)) + rest;
            all != [] && !IsSpace(all[0]) && FirstFrame(all) == (Message(m), Some(|m| + if cr then 1 else 0))
  {
    assert forall i :: 0 <= i < |m| ==> m[i] in m;
    var line := m + if cr then [CR] else [];
    assert Wire(Line(m, cr)) + rest == line + ([LF] + rest);
    LineOfMessage(m, line, cr, rest);
  }

  lemma LineOfMessage(m: Bytes, line: Bytes, cr: bool, rest: Bytes)
    requires m != [] && !IsSpace(m[0]) && !IsCounted(m) && (m[|m| - 1] == CR ==> cr)
    requires line == (if cr then m + [CR] else m) && forall i :: 0 <= i < |line| ==> line[i] != LF
    ensures var all := line + ([LF] + rest); all[0] == m[0] && FirstFrame(all) == (Message(m), Some(|line|))
  {
    var all := line + ([LF] + rest);
    NotCounted(m, line, all);
    EndOfLine(line, rest);
    assert WithoutCr(line) == m by { if cr { assert line[..|line| - 1] == m; } }
    hide IsCounted, LineEnd, IsSpace, WithoutCr;
  }

  lemma EndOfLine(line: Bytes, rest: Bytes)
    requires forall i :: 0 <= i < |line| ==> line[i] != LF
    ensures var all := line + ([LF] + rest); LineEnd(all) == |line| && all[..|line|] == line
  {
    var all := line + ([LF] + rest);
    assert forall i :: 0 <= i < |line| ==> all[i] == line[i];
    assert all[|line|] == LF;
  }

  lemma LineIsReceived(m: Bytes, cr: bool, rest: Bytes)
    requires CanSend(Line(m, cr))
    ensures Frames(Wire(Line(m, cr)) + rest) == [Message(m)] + Frames(rest)
  {
    hide Frames, FirstFrame, CanSend;
    LineIsFirst(m, cr, rest);
    var all := Wire(Line(m, cr)) + rest;
    StartsAtOnce(all);
    assert all[|m| + if cr then 1 else 0..] == [LF] + rest;
    LineFeedIsSkipped(rest);
  }

  lemma NotCounted(m: Bytes, line: Bytes, all: Bytes)
    requires m != [] && !IsCounted(m) && m <= line && line <= all
    requires (|m| < |line| && line[|m|] == CR) || (line == m && |line| < |all| && all[|m|] == LF)
    ensures !IsCounted(all)
  {
    var n := Digits(m);
    assert forall i :: 0 <= i < |m| ==> all[i] == m[i];
    assert all[|m|] == if |m| < |line| then line[|m|] else LF;
    assert !IsDigit(all[|m|]) && all[|m|] != SPACE;
    assert all[..n] == m[..n] && all == all[..n] + all[n..];
    DigitsAre(all[..n], all[n..]);
  }

  /** Framing undoes sending, for any messages counted, and for lines among them
      that a line can carry. */
  lemma {:induction false} FramingUndoesSending(sent: seq<Sent>)
    requires forall i :: 0 <= i < |sent| ==> CanSend(sent[i])
    ensures Frames(Stream(sent)) == Received(sent)
  {
    if sent != [] {
      FramingUndoesSending(sent[1..]);
      match sent[0]
      case Counted(m) => CountedIsReceived(m, Stream(sent[1..]));
      case Line(m, cr) => LineIsReceived(m, cr, Stream(sent[1..]));
    }
  }

  /** How the frames of a stream begin. */
  lemma FramesBegin(bytes: Bytes) returns (start: nat, next: Option<nat>)
    requires Frames(bytes) != []
    ensures start <= |bytes| && (next.Some? ==> start < next.value <= |bytes|)
    ensures Frames(bytes)[0].Broken? ==> next.None? && Frames(bytes)[0].rest == bytes[start..]
    ensures Frames(bytes)[1..] == if next.None? then [] else Frames(bytes[next.value..])
  {
    hide FirstFrame, IsSpace, Frames;
    FramesOf(bytes);
    start := Blank(bytes);
    var rest := bytes[start..];
    var (frame, used) := FirstFrame(rest);
    next := if used.None? then None else Some(start + used.value);
    if used.Some? { assert rest[used.value..] == bytes[start + used.value..]; }
  }

  ghost predicate IsRestOf(rest: Bytes, bytes: Bytes) { |rest| <= |bytes| && bytes[|bytes| - |rest|..] == rest }

  /** Only the last frame can be broken, and it is then the rest of the stream. */
  lemma {:induction false} BrokenIsTheRest(bytes: Bytes, i: nat)
    requires i < |Frames(bytes)| && Frames(bytes)[i].Broken?
    ensures i == |Frames(bytes)| - 1 && IsRestOf(Frames(bytes)[i].rest, bytes)
    decreases |bytes|
  {
    hide Frames;
    var start, next := FramesBegin(bytes);
    var found := Frames(bytes);
    if i > 0 {
      assert found[1..][i - 1] == found[i];
      var after := bytes[next.value..];
      BrokenIsTheRest(after, i - 1);
      var rest := found[i].rest;
      assert bytes[|bytes| - |rest|..] == after[|after| - |rest|..];
    }
  }
}
