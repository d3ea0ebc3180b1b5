/** Wildcards: a recursive meaning that may try everything, and a loop with constant
    memory proved to decide it. */
module Glob {
  import opened Base
  import opened Text

  datatype Part =
    | Literal(text: string)  // these characters and no others
    | AnySequence            // zero or more of whatever
    | AnyChar                // `?`: exactly one character

  /** Parts `p` onward match all of `s` from `i` on. */
  ghost predicate MatchesFrom(parts: seq<Part>, s: string, p: nat, i: nat)
    requires p <= |parts| && i <= |s|
    decreases |parts| - p, 0
  {
    if p == |parts| then i == |s|
    else match parts[p]
      case Literal(text) => OccursAt(s, text, i) && MatchesFrom(parts, s, p + 1, i + |text|)
      case AnyChar => i < |s| && MatchesFrom(parts, s, p + 1, i + 1)
      case AnySequence => MatchesLater(parts, s, p + 1, i)
  }

  /** Parts `p` onward match all of `s` from `i` or from somewhere after it. */
  ghost predicate MatchesLater(parts: seq<Part>, s: string, p: nat, i: nat)
    requires p <= |parts| && i <= |s|
    decreases |parts| - p, 1 + |s| - i
  {
    MatchesFrom(parts, s, p, i) || (i < |s| && MatchesLater(parts, s, p, i + 1))
  }

  lemma {:induction false} LaterIsSomewhere(parts: seq<Part>, s: string, p: nat, i: nat)
    requires p <= |parts| && i <= |s|
    ensures MatchesLater(parts, s, p, i) ==> exists k :: i <= k <= |s| && MatchesFrom(parts, s, p, k)
    ensures forall k :: i <= k <= |s| && MatchesFrom(parts, s, p, k) ==> MatchesLater(parts, s, p, i)
    decreases |s| - i
  {
    if i < |s| { LaterIsSomewhere(parts, s, p, i + 1); }
    if MatchesLater(parts, s, p, i) && !MatchesFrom(parts, s, p, i) {
      var k :| i + 1 <= k <= |s| && MatchesFrom(parts, s, p, k);
    }
  }

  /** The meaning of a pattern. */
  ghost predicate Matches(parts: seq<Part>, s: string) { MatchesFrom(parts, s, 0, 0) }

  /** The characters a part other than `*` takes. */
  function PartWidth(part: Part): nat {
    match part
    case Literal(text) => |text|
    case AnyChar => 1
    case AnySequence => 0
  }

  function Width(parts: seq<Part>, a: nat, p: nat): nat
    requires a <= p <= |parts|
    decreases p - a
  {
    if a == p then 0 else PartWidth(parts[a]) + Width(parts, a + 1, p)
  }

  lemma {:induction false} WidthOfNext(parts: seq<Part>, a: nat, p: nat)
    requires a <= p < |parts|
    ensures Width(parts, a, p + 1) == Width(parts, a, p) + PartWidth(parts[p])
    decreases p - a
  {
    if a < p { WidthOfNext(parts, a + 1, p); }
  }

  ghost predicate StarFree(parts: seq<Part>, a: nat, p: nat) {
    forall q :: a <= q < p && q < |parts| ==> !parts[q].AnySequence?
  }

  /** Between two stars there is no choice: parts that match from `k` on take
      exactly their width. */
  lemma {:induction false} WithoutStarsWidthIsFixed(parts: seq<Part>, s: string, a: nat, p: nat, k: nat)
    requires a <= p <= |parts| && k <= |s| && StarFree(parts, a, p)
    requires MatchesFrom(parts, s, a, k)
    ensures k + Width(parts, a, p) <= |s| && MatchesFrom(parts, s, p, k + Width(parts, a, p))
    decreases p - a
  {
    if a < p {
      assert !parts[a].AnySequence?;
      WithoutStarsWidthIsFixed(parts, s, a + 1, p, k + PartWidth(parts[a]));
    }
  }

  /** The latest `*`, were it to absorb more than it has, would let the rest match. */
  ghost predicate Retry(parts: seq<Part>, s: string, resume: Option<(nat, nat)>) {
    resume.Some? && resume.value.0 <= |parts| && resume.value.1 < |s| &&
    MatchesLater(parts, s, resume.value.0, resume.value.1 + 1)
  }

  /** What an earlier `*` could absorb, the one at `p` can absorb instead. */
  lemma LaterStarSubsumes(parts: seq<Part>, s: string, resume: Option<(nat, nat)>, p: nat, i: nat)
    requires p < |parts| && i <= |s| && parts[p].AnySequence?
    requires resume.Some? ==> resume.value.0 <= p && StarFree(parts, resume.value.0, p)
                              && i == resume.value.1 + Width(parts, resume.value.0, p)
    ensures Retry(parts, s, resume) ==> MatchesFrom(parts, s, p, i)
  {
    if Retry(parts, s, resume) {
      var (a, absorbed) := resume.value;
      LaterIsSomewhere(parts, s, a, absorbed + 1);
      var k :| absorbed < k <= |s| && MatchesFrom(parts, s, a, k);
      WithoutStarsWidthIsFixed(parts, s, a, p, k);
      LaterIsSomewhere(parts, s, p + 1, k + Width(parts, a, p));
      LaterIsSomewhere(parts, s, p + 1, i);
    }
  }

  /** Greedy matching with one point to return to. That returning to an older star
      is never needed is `LaterStarSubsumes`. */
  method Search(parts: seq<Part>, s: string) returns (matched: bool)
    ensures matched <==> Matches(parts, s)
  {
    var part, pos := 0, 0;
    // The one point to return to: which part follows the star, and how far the star reaches.
    var resume: Option<(nat, nat)> := None;
    while true
      invariant 0 <= part <= |parts| && 0 <= pos <= |s|
      invariant resume.Some? ==> resume.value.0 <= part && StarFree(parts, resume.value.0, part)
      invariant resume.Some? ==> resume.value.1 <= |s| && pos == resume.value.1 + Width(parts, resume.value.0, part)
      invariant Matches(parts, s) <==> MatchesFrom(parts, s, part, pos) || Retry(parts, s, resume)
      decreases if resume.Some? then |parts| - resume.value.0 else |parts| + 1,
                if resume.Some? then |s| - resume.value.1 else 0,
                |parts| - part
    {
      if part < |parts| {
        var advanced := match parts[part]
          case AnySequence => Some(pos)
          case AnyChar => if pos < |s| then Some(pos + 1) else None
          case Literal(text) => if OccursAt(s, text, pos) then Some(pos + |text|) else None;
        if parts[part].AnySequence? {
          LaterStarSubsumes(parts, s, resume, part, pos);
          resume := Some((part + 1, pos));
        } else if resume.Some? {
          WidthOfNext(parts, resume.value.0, part);
        }
        if advanced.Some? {
          part, pos := part + 1, advanced.value;
          continue;
        }
      } else if pos == |s| {
        return true;
      }

      // Return to the star, which takes one more than it did.
      if resume.None? || resume.value.1 == |s| { return false; }
      var (afterStar, absorbed) := resume.value;
      resume := Some((afterStar, absorbed + 1));
      part, pos := afterStar, absorbed + 1;
    }
  }

  // The four shapes decided by where one literal occurs.

  lemma LastLiteral(parts: seq<Part>, s: string, p: nat, i: nat)
    requires |parts| == p + 1 && parts[p].Literal? && i <= |s|
    ensures MatchesFrom(parts, s, p, i) <==> s[i..] == parts[p].text
  {
    var text := parts[p].text;
    if OccursAt(s, text, i) && i + |text| == |s| { assert s[i..] == s[i..i + |text|]; }
    if s[i..] == text { assert s[i..i + |text|] == text; }
  }

  lemma LastStar(parts: seq<Part>, s: string, p: nat, i: nat)
    requires |parts| == p + 1 && parts[p].AnySequence? && i <= |s|
    ensures MatchesFrom(parts, s, p, i)
  {
    LaterIsSomewhere(parts, s, p + 1, i);
    assert MatchesFrom(parts, s, p + 1, |s|);
  }

  lemma EqualsShape(text: string, s: string)
    ensures Matches([Literal(text)], s) <==> s == text
  {
    LastLiteral([Literal(text)], s, 0, 0);
    assert s[0..] == s;
  }

  lemma StartsWithShape(text: string, s: string)
    ensures Matches([Literal(text), AnySequence], s) <==> StartsWith(s, text)
  {
    if StartsWith(s, text) { LastStar([Literal(text), AnySequence], s, 1, |text|); }
  }

  lemma EndsWithShape(text: string, s: string)
    ensures Matches([AnySequence, Literal(text)], s) <==> EndsWith(s, text)
  {
    var parts := [AnySequence, Literal(text)];
    forall k: nat | k <= |s| ensures MatchesFrom(parts, s, 1, k) <==> s[k..] == text {
      LastLiteral(parts, s, 1, k);
    }
    if EndsWith(s, text) {
      assert s[|s| - |text|..] == text;
      assert MatchesFrom(parts, s, 1, |s| - |text|);
    }
    LaterIsSomewhere(parts, s, 1, 0);
    if k: nat :| k <= |s| && MatchesFrom(parts, s, 1, k) {
      assert s[k..k + |text|] == s[k..];
    }
  }

  lemma ContainsShape(text: string, s: string)
    ensures Matches([AnySequence, Literal(text), AnySequence], s) <==> Contains(s, text)
  {
    var parts := [AnySequence, Literal(text), AnySequence];
    forall k: nat | k <= |s| ensures MatchesFrom(parts, s, 1, k) <==> OccursAt(s, text, k) {
      if OccursAt(s, text, k) { LastStar(parts, s, 2, k + |text|); }
    }
    if Contains(s, text) {
      var at :| OccursAt(s, text, at);
      assert MatchesFrom(parts, s, 1, at);
    }
    LaterIsSomewhere(parts, s, 1, 0);
  }

  /** No text matches a pattern without containing each of its literals. */
  lemma {:induction false} LiteralIsContained(parts: seq<Part>, s: string, p: nat, i: nat, q: nat)
    requires p <= q < |parts| && i <= |s| && parts[q].Literal?
    requires MatchesFrom(parts, s, p, i)
    ensures Contains(s, parts[q].text)
    decreases q - p
  {
    if p < q {
      match parts[p]
      case Literal(text) => LiteralIsContained(parts, s, p + 1, i + |text|, q);
      case AnyChar => LiteralIsContained(parts, s, p + 1, i + 1, q);
      case AnySequence =>
        LaterIsSomewhere(parts, s, p + 1, i);
        var k :| i <= k <= |s| && MatchesFrom(parts, s, p + 1, k);
        LiteralIsContained(parts, s, p + 1, k, q);
    }
  }
}
