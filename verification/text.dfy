/** Text as the evaluators compare it: case folding, which changes a string
    character by character, and where one string occurs in another. */
module Text {
  import opened Base

  /** Simple folding beyond ASCII, as the Unicode tables give it. */
  type Beyond = char -> char

  /** One character folded: ASCII letters to lower case, and what is beyond
      ASCII by the tables. */
  function FoldChar(beyond: Beyond, c: char): char {
    if c as int >= 128 then beyond(c)
    else if 'A' <= c <= 'Z' then (c as int + 32) as char
    else c
  }

  /** Folding a string is folding each of its characters, so lengths and positions
      stay. */
  function Fold(beyond: Beyond, s: string): (r: string)
    ensures |r| == |s|
    ensures forall i :: 0 <= i < |s| ==> r[i] == FoldChar(beyond, s[i])
  {
    seq(|s|, i requires 0 <= i < |s| => FoldChar(beyond, s[i]))
  }

  lemma FoldOfPart(beyond: Beyond, s: string, i: nat, j: nat)
    requires i <= j <= |s|
    ensures Fold(beyond, s[i..j]) == Fold(beyond, s)[i..j]
  {
  }

  lemma FoldOfConcat(beyond: Beyond, a: string, b: string)
    ensures Fold(beyond, a + b) == Fold(beyond, a) + Fold(beyond, b)
  {
  }

  /** `part` stands in `s` from `at` on. */
  predicate OccursAt(s: string, part: string, at: int) {
    0 <= at <= |s| - |part| && s[at..at + |part|] == part
  }

  ghost predicate Contains(s: string, part: string) {
    exists at :: OccursAt(s, part, at)
  }

  predicate StartsWith(s: string, part: string) { OccursAt(s, part, 0) }

  predicate EndsWith(s: string, part: string) { OccursAt(s, part, |s| - |part|) }

  lemma ContainsWithin(s: string, i: nat, j: nat, part: string)
    requires i <= j <= |s| && Contains(s[i..j], part)
    ensures Contains(s, part)
  {
    var at :| OccursAt(s[i..j], part, at);
    var inner, outer := s[i..j][at..at + |part|], s[i + at..i + at + |part|];
    assert forall k :: 0 <= k < |part| ==> inner[k] == outer[k];
    assert inner == outer;
    assert OccursAt(s, part, i + at);
  }

  /** Where a character first is. */
  function IndexOf(s: string, c: char): (r: Option<nat>)
    ensures r.Some? ==> r.value < |s| && s[r.value] == c && c !in s[..r.value]
    ensures r.None? ==> c !in s
  {
    if s == [] then None
    else if s[0] == c then Some(0)
    else
      match IndexOf(s[1..], c)
      case None => None
      case Some(at) =>
        assert s[..at + 1] == [s[0]] + s[1..][..at];
        Some(at + 1)
  }

  /** The bytes a character takes in UTF-8. */
  function Utf8Len(c: char): nat {
    var code := c as int;
    if code < 0x80 then 1 else if code < 0x800 then 2 else if code < 0x1_0000 then 3 else 4
  }

  /** The bytes a string takes in UTF-8. */
  function Utf8Bytes(s: string): nat {
    if s == [] then 0 else Utf8Len(s[0]) + Utf8Bytes(s[1..])
  }

  /** An estimate used to choose between sets of literals. No proof depends on it.
      */
  function Cost(literals: seq<string>): nat {
    if literals == [] then 0
    else
      var length := if Utf8Bytes(literals[0]) == 0 then 1 else Utf8Bytes(literals[0]);
      1_000_000 / (length * length) + Cost(literals[1..])
  }
}
