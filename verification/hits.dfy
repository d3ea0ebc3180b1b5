/** Four flags for each literal, gathered by disjunction over everything an
    automaton reports, and what each of them means. */
module Hits {
  import opened Text
  import opened Rules

  const ANY: bv8 := 1
  const START: bv8 := 2
  const END: bv8 := 4
  const WHOLE: bv8 := 8

  predicate Has(flags: bv8, flag: bv8) { flags & flag != 0 }

  lemma FlagsAddUp(a: bv8, b: bv8)
    ensures Has(a | b, ANY) <==> Has(a, ANY) || Has(b, ANY)
    ensures Has(a | b, START) <==> Has(a, START) || Has(b, START)
    ensures Has(a | b, END) <==> Has(a, END) || Has(b, END)
    ensures Has(a | b, WHOLE) <==> Has(a, WHOLE) || Has(b, WHOLE)
    ensures Has(a, ANY) || Has(b, ANY) ==> a | b != 0
  {
  }

  /** The flags of one occurrence in a text of `length` characters. */
  function FlagsOf(found: Occurrence, length: nat): (r: bv8)
    ensures Has(r, ANY) && r != 0
    ensures Has(r, START) <==> found.start == 0
    ensures Has(r, END) <==> found.end == length
    ensures Has(r, WHOLE) <==> found.start == 0 && found.end == length
  {
    ANY | (if found.start == 0 then START else 0) | (if found.end == length then END else 0)
    | (if found.start == 0 && found.end == length then WHOLE else 0)
  }

  /** The flags a literal has after the occurrences of one text. */
  function Collect(flags: bv8, occurrences: seq<Occurrence>, literal: nat, length: nat): bv8 {
    if occurrences == [] then flags
    else
      var last := occurrences[|occurrences| - 1];
      var before := Collect(flags, occurrences[..|occurrences| - 1], literal, length);
      if last.literal == literal then before | FlagsOf(last, length) else before
  }

  /** What a literal's flags mean, for the texts scanned so far. */
  ghost predicate Means(flags: bv8, texts: seq<string>, literal: string) {
    && (Has(flags, ANY) <==> exists k :: 0 <= k < |texts| && Contains(texts[k], literal))
    && (Has(flags, START) <==> exists k :: 0 <= k < |texts| && StartsWith(texts[k], literal))
    && (Has(flags, END) <==> exists k :: 0 <= k < |texts| && EndsWith(texts[k], literal))
    && (Has(flags, WHOLE) <==> exists k :: 0 <= k < |texts| && texts[k] == literal)
    && (flags != 0 <==> Has(flags, ANY))
  }

  /** Some occurrence of `literal` among the first has the flag. */
  ghost predicate Reported(occurrences: seq<Occurrence>, literal: nat, start: bool, end: bool, length: nat) {
    exists k :: 0 <= k < |occurrences| && occurrences[k].literal == literal
                && (start ==> occurrences[k].start == 0) && (end ==> occurrences[k].end == length)
  }

  lemma {:induction false} CollectMeans(flags: bv8, occurrences: seq<Occurrence>, literal: nat, length: nat)
    requires flags != 0 <==> Has(flags, ANY)
    ensures var r := Collect(flags, occurrences, literal, length);
            && (Has(r, ANY) <==> Has(flags, ANY) || Reported(occurrences, literal, false, false, length))
            && (Has(r, START) <==> Has(flags, START) || Reported(occurrences, literal, true, false, length))
            && (Has(r, END) <==> Has(flags, END) || Reported(occurrences, literal, false, true, length))
            && (Has(r, WHOLE) <==> Has(flags, WHOLE) || Reported(occurrences, literal, true, true, length))
            && (r != 0 <==> Has(r, ANY))
  {
    if occurrences != [] {
      var rest, last := occurrences[..|occurrences| - 1], occurrences[|occurrences| - 1];
      CollectMeans(flags, rest, literal, length);
      forall start, end
        ensures Reported(occurrences, literal, start, end, length) <==>
                Reported(rest, literal, start, end, length) ||
                (last.literal == literal && (start ==> last.start == 0) && (end ==> last.end == length))
      {
        ReportedLast(rest, last, literal, start, end, length);
        assert rest + [last] == occurrences;
      }
      FlagsAddUp(Collect(flags, rest, literal, length), FlagsOf(last, length));
    }
  }

  lemma ReportedLast(rest: seq<Occurrence>, last: Occurrence, literal: nat, start: bool, end: bool, length: nat)
    ensures Reported(rest + [last], literal, start, end, length) <==>
            Reported(rest, literal, start, end, length) ||
            (last.literal == literal && (start ==> last.start == 0) && (end ==> last.end == length))
  {
    var all := rest + [last];
    if Reported(rest, literal, start, end, length) {
      var k :| 0 <= k < |rest| && rest[k].literal == literal
               && (start ==> rest[k].start == 0) && (end ==> rest[k].end == length);
      assert all[k] == rest[k];
    }
    assert all[|rest|] == last;
  }

  lemma ReportedAt(literals: seq<string>, text: string, occurrences: seq<Occurrence>, literal: nat, at: nat)
    requires literal < |literals| && FindsEvery(literals, text, occurrences) && OccursAt(text, literals[literal], at)
    ensures forall start, end ::
              (start ==> at == 0) && (end ==> at + |literals[literal]| == |text|) ==>
                Reported(occurrences, literal, start, end, |text|)
  {
    var k :| 0 <= k < |occurrences| && occurrences[k] == Occurrence(literal, at, at + |literals[literal]|);
  }

  /** What is reported of one text is what occurs in it. */
  lemma ReportIsExact(literals: seq<string>, text: string, occurrences: seq<Occurrence>, literal: nat)
    requires literal < |literals| && FindsEvery(literals, text, occurrences)
    ensures Reported(occurrences, literal, false, false, |text|) <==> Contains(text, literals[literal])
    ensures Reported(occurrences, literal, true, false, |text|) <==> StartsWith(text, literals[literal])
    ensures Reported(occurrences, literal, false, true, |text|) <==> EndsWith(text, literals[literal])
    ensures Reported(occurrences, literal, true, true, |text|) <==> text == literals[literal]
  {
    var part := literals[literal];
    StandsWhole(text, part);
    if at: nat :| OccursAt(text, part, at) { ReportedAt(literals, text, occurrences, literal, at); }
    if StartsWith(text, part) { ReportedAt(literals, text, occurrences, literal, 0); }
    if EndsWith(text, part) { ReportedAt(literals, text, occurrences, literal, |text| - |part|); }
    forall k | 0 <= k < |occurrences| && occurrences[k].literal == literal
      ensures OccursAt(text, part, occurrences[k].start) && occurrences[k].end == occurrences[k].start + |part|
    {
    }
    hide OccursAt, FindsEvery;
  }

  /** A text is a part of it that stands at its start and at its end at once. */
  lemma StandsWhole(text: string, part: string)
    ensures text == part <==> OccursAt(text, part, 0) && |text| == |part|
    ensures forall at: int :: OccursAt(text, part, at) ==> 0 <= at && at + |part| <= |text|
  {
  }

  lemma OneTextMore(texts: seq<string>, text: string, literal: string)
    ensures var more := texts + [text];
            && ((exists k :: 0 <= k < |more| && Contains(more[k], literal)) <==>
                (exists k :: 0 <= k < |texts| && Contains(texts[k], literal)) || Contains(text, literal))
            && ((exists k :: 0 <= k < |more| && StartsWith(more[k], literal)) <==>
                (exists k :: 0 <= k < |texts| && StartsWith(texts[k], literal)) || StartsWith(text, literal))
            && ((exists k :: 0 <= k < |more| && EndsWith(more[k], literal)) <==>
                (exists k :: 0 <= k < |texts| && EndsWith(texts[k], literal)) || EndsWith(text, literal))
            && ((exists k :: 0 <= k < |more| && more[k] == literal) <==>
                (exists k :: 0 <= k < |texts| && texts[k] == literal) || text == literal)
  {
    hide Contains, OccursAt, StartsWith, EndsWith;
    var more := texts + [text];
    assert more[|texts|] == text && forall k :: 0 <= k < |texts| ==> more[k] == texts[k];
  }

  /** After a text is scanned, the flags mean what they did of one text more. */
  lemma ScannedMeans(
    flags: bv8, texts: seq<string>, text: string, literals: seq<string>, literal: nat, occurrences: seq<Occurrence>)
    requires literal < |literals| && FindsEvery(literals, text, occurrences) && Means(flags, texts, literals[literal])
    ensures Means(Collect(flags, occurrences, literal, |text|), texts + [text], literals[literal])
  {
    hide Contains, OccursAt, StartsWith, EndsWith, Reported, FindsEvery, Collect;
    CollectMeans(flags, occurrences, literal, |text|);
    ReportIsExact(literals, text, occurrences, literal);
    OneTextMore(texts, text, literals[literal]);
  }
}
