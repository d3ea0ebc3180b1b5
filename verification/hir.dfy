/** Parsed regular expressions and what they match. */
module Regexes {
  import opened Base

  datatype CharRange = CharRange(first: char, last: char)
  datatype ByteRange = ByteRange(first: Byte, last: Byte)

  datatype Class =
    | Unicode(chars: seq<CharRange>)
    | Bytes(bytes: seq<ByteRange>)  // only its ASCII part can match a character

  datatype Hir =
    | Empty
    | Literal(text: string)
    | OneOf(kinds: Class)
    | Look(kind: nat)  // an assertion about a position: it takes no text
    | Repetition(min: nat, max: Option<nat>, sub: Hir)
    | Capture(sub: Hir)
    | Concat(parts: seq<Hir>)
    | Alternation(branches: seq<Hir>)

  /** Whether an assertion of a kind holds at a position of a text. */
  type Looks = (nat, string, nat) -> bool

  predicate InClass(kinds: Class, c: char) {
    match kinds
    case Unicode(ranges) => exists r :: 0 <= r < |ranges| && ranges[r].first <= c <= ranges[r].last
    case Bytes(ranges) =>
      (c as int) < 128 && exists r :: 0 <= r < |ranges| && ranges[r].first <= c as int <= ranges[r].last
  }

  predicate Within(i: int, k: int, j: int) { i <= k <= j }

  predicate Allowed(min: nat, max: Option<nat>, n: nat) {
    min <= n && (max.Some? ==> n <= max.value)
  }

  /** `h` matches the text of `s` from `i` to `j`, seen where it stands. */
  ghost predicate Matches(look: Looks, h: Hir, s: string, i: nat, j: nat)
    requires i <= j <= |s|
    decreases h, 0
  {
    match h
    case Empty => i == j
    case Literal(text) => s[i..j] == text
    case OneOf(kinds) => j == i + 1 && InClass(kinds, s[i])
    case Look(kind) => i == j && look(kind, s, i)
    case Repetition(min, max, sub) =>
      exists n: nat :: Allowed(min, max, n) && MatchesTimes(look, sub, n, s, i, j)
    case Capture(sub) => Matches(look, sub, s, i, j)
    case Concat(parts) => MatchesAll(look, parts, s, i, j)
    case Alternation(branches) => exists b :: 0 <= b < |branches| && Matches(look, branches[b], s, i, j)
  }

  /** `parts` match one after the other. */
  ghost predicate MatchesAll(look: Looks, parts: seq<Hir>, s: string, i: nat, j: nat)
    requires i <= j <= |s|
    decreases parts, 0
  {
    if parts == [] then i == j
    else exists k: nat :: Within(i, k, j) && Matches(look, parts[0], s, i, k) && MatchesAll(look, parts[1..], s, k, j)
  }

  /** `sub` matches `n` times over. */
  ghost predicate MatchesTimes(look: Looks, sub: Hir, n: nat, s: string, i: nat, j: nat)
    requires i <= j <= |s|
    decreases sub, n + 1
  {
    if n == 0 then i == j
    else exists k: nat :: Within(i, k, j) && Matches(look, sub, s, i, k) && MatchesTimes(look, sub, n - 1, s, k, j)
  }

  /** The search a compiled expression answers: somewhere in `s`, `h` matches. */
  ghost predicate IsMatch(look: Looks, h: Hir, s: string) {
    exists i: nat, j: nat :: i <= j <= |s| && Matches(look, h, s, i, j)
  }
}
