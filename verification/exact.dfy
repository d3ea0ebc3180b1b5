/** Expressions that match a handful of texts only: which texts they are, and the
    loops that find out, proved both sound and complete. */
module Exact {
  import opened Base
  import opened Text
  import opened Regexes

  /** Texts kept at most, beyond which there is no answer. */
  const MOST_ALTERNATIVES := 32
  /** Characters of a class looked at, at most. */
  const LARGEST_CASE_CLASS := 4

  type Texts = seq<string>

  // ---------------------------------------------------------------- classes

  /** The character after `c`; there are none among the surrogates. */
  function Next(c: char): char
    requires c as int < 0x10_FFFF
  {
    if c as int == 0xD7FF then 0xE000 as char else (c as int + 1) as char
  }

  /** Every character from `first` to `last`. */
  function CharsFrom(first: char, last: char): (r: seq<char>)
    ensures forall c :: c in r <==> first <= c <= last
    decreases last as int - first as int
  {
    if first > last then []
    else if first == last then [first]
    else [first] + CharsFrom(Next(first), last)
  }

  function CharsOfRanges(ranges: seq<CharRange>): (r: seq<char>)
    ensures forall c :: c in r <==> InClass(Unicode(ranges), c)
  {
    if ranges == [] then []
    else
      assert ranges == [ranges[0]] + ranges[1..];
      CharsFrom(ranges[0].first, ranges[0].last) + CharsOfRanges(ranges[1..])
  }

  function BytesFrom(first: Byte, last: Byte): (r: seq<Byte>)
    ensures forall b: Byte :: b in r <==> first <= b <= last
    decreases last - first
  {
    if first > last then [] else if first == last then [first] else [first] + BytesFrom(first + 1, last)
  }

  function BytesOfRanges(ranges: seq<ByteRange>): (r: seq<Byte>)
    ensures forall b: Byte :: b in r <==> exists k :: 0 <= k < |ranges| && ranges[k].first <= b <= ranges[k].last
  {
    if ranges == [] then []
    else
      assert ranges == [ranges[0]] + ranges[1..];
      BytesFrom(ranges[0].first, ranges[0].last) + BytesOfRanges(ranges[1..])
  }

  function SizeOfChars(ranges: seq<CharRange>): int {
    if ranges == [] then 0 else ranges[0].last as int - ranges[0].first as int + 1 + SizeOfChars(ranges[1..])
  }

  function SizeOfBytes(ranges: seq<ByteRange>): int {
    if ranges == [] then 0 else ranges[0].last - ranges[0].first + 1 + SizeOfBytes(ranges[1..])
  }

  /** What characters have in common once folded, which is nothing unless their
      foldings are equal. */
  function SameFolding(beyond: Beyond, chars: seq<char>): Option<string> {
    if chars != [] && forall k :: 0 <= k < |chars| ==> FoldChar(beyond, chars[k]) == FoldChar(beyond, chars[0])
    then Some(Fold(beyond, [chars[0]]))
    else None
  }

  method FindSameFolding(beyond: Beyond, chars: seq<char>) returns (r: Option<string>)
    ensures r == SameFolding(beyond, chars)
  {
    r := None;
    for at := 0 to |chars|
      invariant r == SameFolding(beyond, chars[..at]) && (at > 0 ==> r.Some?)
    {
      var next := Fold(beyond, [chars[at]]);
      assert next[0] == FoldChar(beyond, chars[at]);
      if r.None? {
        r := Some(next);
      } else if r.value != next {
        assert r.value[0] == FoldChar(beyond, chars[0]);
        return None;
      } else {
        assert r.value[0] == FoldChar(beyond, chars[0]);
      }
    }
    assert chars[..|chars|] == chars;
  }

  /** The single text that an expression of one character or one literal folds to.
      */
  function CharacterText(beyond: Beyond, h: Hir): Option<string> {
    match h
    case Literal(text) => Some(Fold(beyond, text))
    case OneOf(Unicode(ranges)) =>
      if SizeOfChars(ranges) > LARGEST_CASE_CLASS then None else SameFolding(beyond, CharsOfRanges(ranges))
    case OneOf(Bytes(ranges)) =>
      if SizeOfBytes(ranges) > LARGEST_CASE_CLASS then None
      else
        var bytes := BytesOfRanges(ranges);
        // Above ASCII a byte is no character.
        if exists k :: 0 <= k < |bytes| && bytes[k] >= 128 then None
        else SameFolding(beyond, seq(|bytes|, k requires 0 <= k < |bytes| => bytes[k] as char))
    case _ => None
  }

  // ------------------------------------------------------------ exact texts

  /** All concatenations of one text of each side, unless they are too many. */
  function Cross(left: Texts, right: Texts): (r: Texts)
    ensures |r| == |left| * |right|
  {
    if left == [] then [] else Each(left[0], right) + Cross(left[1..], right)
  }

  function Each(first: string, right: Texts): (r: Texts)
    ensures |r| == |right| && forall k :: 0 <= k < |r| ==> r[k] == first + right[k]
  {
    seq(|right|, k requires 0 <= k < |right| => first + right[k])
  }

  lemma {:induction false} CrossHolds(left: Texts, right: Texts, a: string, b: string)
    requires a in left && b in right
    ensures a + b in Cross(left, right)
  {
    if a == left[0] {
      var k :| 0 <= k < |right| && right[k] == b;
      assert Each(left[0], right)[k] == a + b;
    } else {
      CrossHolds(left[1..], right, a, b);
    }
  }

  lemma {:induction false} CrossComesFrom(left: Texts, right: Texts, t: string) returns (a: string, b: string)
    requires t in Cross(left, right)
    ensures a in left && b in right && t == a + b
  {
    if t in Each(left[0], right) {
      var k :| 0 <= k < |right| && Each(left[0], right)[k] == t;
      a, b := left[0], right[k];
    } else {
      a, b := CrossComesFrom(left[1..], right, t);
    }
  }

  /** The finite language of an expression up to folding, if it is found to be
      finite and small: `ExactIsComplete` and `ExactIsSpoken` are its two halves. */
  function ExactTexts(beyond: Beyond, h: Hir): Option<Texts>
    decreases h, 0
  {
    match h
    case Literal(_) => Some([CharacterText(beyond, h).value])
    case OneOf(_) => if CharacterText(beyond, h).Some? then Some([CharacterText(beyond, h).value]) else None
    case Capture(sub) => ExactTexts(beyond, sub)
    case Concat(parts) => ExactConcat(beyond, parts, [""])
    case Alternation(branches) => ExactBranches(beyond, branches, [])
    case _ => None
  }

  function ExactConcat(beyond: Beyond, parts: seq<Hir>, texts: Texts): Option<Texts>
    decreases parts, 0
  {
    if parts == [] then Some(texts)
    else match ExactTexts(beyond, parts[0])
      case None => None
      case Some(next) =>
        if |texts| * |next| > MOST_ALTERNATIVES then None
        else ExactConcat(beyond, parts[1..], Cross(texts, next))
  }

  function ExactBranches(beyond: Beyond, branches: seq<Hir>, all: Texts): Option<Texts>
    decreases branches, 0
  {
    if branches == [] then Some(all)
    else match ExactTexts(beyond, branches[0])
      case None => None
      case Some(texts) =>
        if |all| + |texts| > MOST_ALTERNATIVES then None
        else ExactBranches(beyond, branches[1..], all + texts)
  }

  /** The loops that find the exact texts. */
  method FindExact(beyond: Beyond, h: Hir) returns (r: Option<Texts>)
    ensures r == ExactTexts(beyond, h)
    decreases h
  {
    match h
    case Literal(_) => r := Some([CharacterText(beyond, h).value]);
    case OneOf(_) =>
      var text := CharacterText(beyond, h);
      r := if text.Some? then Some([text.value]) else None;
    case Capture(sub) => r := FindExact(beyond, sub);
    case Concat(parts) =>
      var texts: Texts := [""];
      for k := 0 to |parts|
        invariant ExactConcat(beyond, parts, [""]) == ExactConcat(beyond, parts[k..], texts)
      {
        assert parts[k..][0] == parts[k] && parts[k..][1..] == parts[k + 1..];
        var next := FindExact(beyond, parts[k]);
        if next.None? || |texts| * |next.value| > MOST_ALTERNATIVES { return None; }
        texts := Cross(texts, next.value);
      }
      r := Some(texts);
    case Alternation(branches) =>
      var all: Texts := [];
      for k := 0 to |branches|
        invariant ExactBranches(beyond, branches, []) == ExactBranches(beyond, branches[k..], all)
      {
        assert branches[k..][0] == branches[k] && branches[k..][1..] == branches[k + 1..];
        var texts := FindExact(beyond, branches[k]);
        if texts.None? { return None; }
        all := all + texts.value;
        if |all| > MOST_ALTERNATIVES { return None; }
      }
      r := Some(all);
    case _ => r := None;
  }

  // ----------------------------------------- what the exact texts are worth

  /** A match folds to one of the exact texts. */
  lemma {:induction false} ExactIsComplete(look: Looks, beyond: Beyond, h: Hir, s: string, i: nat, j: nat)
    requires i <= j <= |s| && ExactTexts(beyond, h).Some? && Matches(look, h, s, i, j)
    ensures Fold(beyond, s[i..j]) in ExactTexts(beyond, h).value
    decreases h, 0
  {
    match h
    case Literal(_) =>
    case OneOf(kinds) => ClassIsOneText(beyond, kinds, s[i]); assert s[i..j] == [s[i]];
    case Capture(sub) => ExactIsComplete(look, beyond, sub, s, i, j);
    case Concat(parts) =>
      assert Fold(beyond, s[i..i]) == "";
      ExactConcatIsComplete(look, beyond, parts, [""], s, i, i, j);
    case Alternation(branches) =>
      var b :| 0 <= b < |branches| && Matches(look, branches[b], s, i, j);
      ExactBranchesIsComplete(look, beyond, branches, [], b, s, i, j);
  }

  lemma ClassIsOneText(beyond: Beyond, kinds: Class, c: char)
    requires CharacterText(beyond, OneOf(kinds)).Some? && InClass(kinds, c)
    ensures CharacterText(beyond, OneOf(kinds)).value == Fold(beyond, [c])
  {
    match kinds
    case Unicode(ranges) => assert c in CharsOfRanges(ranges);
    case Bytes(ranges) =>
      var b: Byte := c as int;
      var bytes := BytesOfRanges(ranges);
      assert b in bytes;
      var chars := seq(|bytes|, k requires 0 <= k < |bytes| => bytes[k] as char);
      assert CharacterText(beyond, OneOf(kinds)) == SameFolding(beyond, chars);
      var k :| 0 <= k < |bytes| && bytes[k] == b;
      assert chars[k] == c;
  }

  lemma {:induction false} ExactConcatIsComplete(
    look: Looks, beyond: Beyond, parts: seq<Hir>, texts: Texts, s: string, i: nat, m: nat, j: nat)
    requires i <= m <= j <= |s| && ExactConcat(beyond, parts, texts).Some?
    requires Fold(beyond, s[i..m]) in texts && MatchesAll(look, parts, s, m, j)
    ensures Fold(beyond, s[i..j]) in ExactConcat(beyond, parts, texts).value
    decreases parts, 0
  {
    if parts != [] {
      var k: nat :| Within(m, k, j) && Matches(look, parts[0], s, m, k) && MatchesAll(look, parts[1..], s, k, j);
      ExactIsComplete(look, beyond, parts[0], s, m, k);
      var next := ExactTexts(beyond, parts[0]).value;
      CrossHolds(texts, next, Fold(beyond, s[i..m]), Fold(beyond, s[m..k]));
      assert s[i..m] + s[m..k] == s[i..k];
      FoldOfConcat(beyond, s[i..m], s[m..k]);
      ExactConcatIsComplete(look, beyond, parts[1..], Cross(texts, next), s, i, k, j);
    }
  }

  lemma {:induction false} ExactBranchesKeep(beyond: Beyond, branches: seq<Hir>, all: Texts)
    requires ExactBranches(beyond, branches, all).Some?
    ensures forall t :: t in all ==> t in ExactBranches(beyond, branches, all).value
    decreases branches
  {
    if branches != [] {
      ExactBranchesKeep(beyond, branches[1..], all + ExactTexts(beyond, branches[0]).value);
    }
  }

  lemma {:induction false} ExactBranchesIsComplete(
    look: Looks, beyond: Beyond, branches: seq<Hir>, all: Texts, b: nat, s: string, i: nat, j: nat)
    requires i <= j <= |s| && ExactBranches(beyond, branches, all).Some?
    requires b < |branches| && Matches(look, branches[b], s, i, j)
    ensures Fold(beyond, s[i..j]) in ExactBranches(beyond, branches, all).value
    decreases branches, 0
  {
    var texts := ExactTexts(beyond, branches[0]).value;
    if b == 0 {
      ExactIsComplete(look, beyond, branches[0], s, i, j);
      ExactBranchesKeep(beyond, branches[1..], all + texts);
    } else {
      ExactBranchesIsComplete(look, beyond, branches[1..], all + texts, b - 1, s, i, j);
    }
  }

  /** Wherever `w` stands, `h` matches it. */
  ghost predicate Speaks(look: Looks, h: Hir, w: string) {
    forall s: string, i: nat :: OccursAt(s, w, i) ==> Matches(look, h, s, i, i + |w|)
  }

  ghost predicate SpeaksAll(look: Looks, parts: seq<Hir>, w: string) {
    forall s: string, i: nat :: OccursAt(s, w, i) ==> MatchesAll(look, parts, s, i, i + |w|)
  }

  /** Each exact text is the folding of a text `h` matches: the set holds
      nothing else. */
  lemma {:induction false} ExactIsSpoken(look: Looks, beyond: Beyond, h: Hir, t: string) returns (w: string)
    requires ExactTexts(beyond, h).Some? && t in ExactTexts(beyond, h).value
    ensures Fold(beyond, w) == t && Speaks(look, h, w)
    decreases h, 0
  {
    match h
    case Literal(text) => w := text;
    case OneOf(kinds) =>
      var c := ClassIsInhabited(beyond, kinds);
      ClassIsOneText(beyond, kinds, c);
      w := [c];
      forall s: string, i: nat | OccursAt(s, w, i) ensures Matches(look, h, s, i, i + |w|) {
        assert s[i..i + 1][0] == c;
      }
    case Capture(sub) => w := ExactIsSpoken(look, beyond, sub, t);
    case Concat(parts) =>
      var r;
      r, w := ExactConcatIsSpoken(look, beyond, parts, [""], t);
      assert t == Fold(beyond, w);
    case Alternation(branches) =>
      var b := ExactBranchesComeFrom(beyond, branches, [], t);
      w := ExactIsSpoken(look, beyond, branches[b], t);
  }

  lemma ClassIsInhabited(beyond: Beyond, kinds: Class) returns (c: char)
    requires CharacterText(beyond, OneOf(kinds)).Some?
    ensures InClass(kinds, c)
  {
    match kinds
    case Unicode(ranges) => c := CharsOfRanges(ranges)[0];
    case Bytes(ranges) =>
      var b := BytesOfRanges(ranges)[0];
      assert b in BytesOfRanges(ranges);
      c := b as char;
  }

  lemma {:induction false} ExactConcatIsSpoken(
    look: Looks, beyond: Beyond, parts: seq<Hir>, texts: Texts, t: string) returns (r: string, w: string)
    requires ExactConcat(beyond, parts, texts).Some? && t in ExactConcat(beyond, parts, texts).value
    ensures r in texts && t == r + Fold(beyond, w) && SpeaksAll(look, parts, w)
    decreases parts, 0
  {
    if parts == [] {
      r, w := t, "";
    } else {
      var next := ExactTexts(beyond, parts[0]).value;
      var joined, tail := ExactConcatIsSpoken(look, beyond, parts[1..], Cross(texts, next), t);
      var piece;
      r, piece := CrossComesFrom(texts, next, joined);
      var head := ExactIsSpoken(look, beyond, parts[0], piece);
      w := head + tail;
      FoldOfConcat(beyond, head, tail);
      SpeaksInTurn(look, parts, head, tail);
    }
  }

  lemma SpeaksInTurn(look: Looks, parts: seq<Hir>, head: string, tail: string)
    requires parts != [] && Speaks(look, parts[0], head) && SpeaksAll(look, parts[1..], tail)
    ensures SpeaksAll(look, parts, head + tail)
  {
    var w := head + tail;
    forall s: string, i: nat | OccursAt(s, w, i) ensures MatchesAll(look, parts, s, i, i + |w|) {
      var k := i + |head|;
      assert s[i..k] == w[..|head|] == head && s[k..i + |w|] == w[|head|..] == tail;
      assert OccursAt(s, head, i) && OccursAt(s, tail, k);
      assert Within(i, k, i + |w|) && Matches(look, parts[0], s, i, k) && MatchesAll(look, parts[1..], s, k, i + |w|);
    }
  }

  lemma {:induction false} ExactBranchesComeFrom(beyond: Beyond, branches: seq<Hir>, all: Texts, t: string)
    returns (b: nat)
    requires ExactBranches(beyond, branches, all).Some?
    requires t in ExactBranches(beyond, branches, all).value && t !in all
    ensures b < |branches| && ExactTexts(beyond, branches[b]).Some? && t in ExactTexts(beyond, branches[b]).value
    decreases branches
  {
    var texts := ExactTexts(beyond, branches[0]).value;
    if t in texts {
      b := 0;
    } else {
      b := ExactBranchesComeFrom(beyond, branches[1..], all + texts, t);
      b := b + 1;
    }
  }
}
