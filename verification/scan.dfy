/** From an event to flags: each source is gathered once, and each of its texts is
    scanned once for all its literals. */
module Scanning {
  import opened Text
  import opened Events
  import opened Rules
  import opened Compiled
  import opened Waking
  import opened Hits
  import opened Scratches

  /** The flags of a source's literals mean what they say of `texts`. */
  ghost predicate SourceExact(hits: seq<bv8>, source: Source, texts: seq<string>)
    requires source.first + |source.literals| <= |hits|
  {
    forall l :: 0 <= l < |source.literals| ==> Means(hits[source.first + l], texts, source.literals[l])
  }

  /** `found` lists the literals with any flag, each once. */
  ghost predicate FoundListed(hits: seq<bv8>, found: seq<nat>) {
    && (forall x :: x in found ==> x < |hits|)
    && (forall x :: 0 <= x < |hits| ==> (hits[x] != 0 <==> x in found))
    && NoDuplicates(found)
  }

  /** Flags outside a source's numbers are as they were. */
  ghost predicate OthersKept(before: seq<bv8>, after: seq<bv8>, source: Source) {
    |after| == |before| && forall x ::
        0 <= x < |after| && !(source.first <= x < source.first + |source.literals|) ==> after[x] == before[x]
  }

  /** Adds the flags of one occurrence. */
  method Mark(work: GroupScratch, literal: nat, flags: bv8)
    requires literal < |work.hits| && Has(flags, ANY) && FoundListed(work.hits, work.found)
    modifies work`hits, work`found
    ensures work.hits == old(work.hits)[literal := old(work.hits)[literal] | flags]
            && FoundListed(work.hits, work.found)
  {
    if work.hits[literal] == 0 { work.found := work.found + [literal]; }
    FlagsAddUp(work.hits[literal], flags);
    work.hits := work.hits[literal := work.hits[literal] | flags];
  }

  /** Adds the flags of every occurrence. */
  method MarkAll(source: Source, occurrences: seq<Occurrence>, length: nat, work: GroupScratch)
    requires source.first + |source.literals| <= |work.hits| && FoundListed(work.hits, work.found)
    requires forall o :: 0 <= o < |occurrences| ==> occurrences[o].literal < |source.literals|
    modifies work`hits, work`found
    ensures OthersKept(old(work.hits), work.hits, source) && FoundListed(work.hits, work.found)
    ensures forall x :: source.first <= x < source.first + |source.literals| ==>
              work.hits[x] == Collect(old(work.hits)[x], occurrences, x - source.first, length)
  {
    hide FoundListed, Has, FlagsOf;
    for o := 0 to |occurrences|
      invariant OthersKept(old(work.hits), work.hits, source) && FoundListed(work.hits, work.found)
      invariant forall x :: source.first <= x < source.first + |source.literals| ==>
        work.hits[x] == Collect(old(work.hits)[x], occurrences[..o], x - source.first, length)
    {
      Mark(work, source.first + occurrences[o].literal, FlagsOf(occurrences[o], length));
      assert occurrences[..o + 1][..o] == occurrences[..o];
    }
    assert occurrences[..|occurrences|] == occurrences;
  }

  /** Scans one text more of a source. */
  method ScanText(w: World, source: Source, text: string, work: GroupScratch, ghost texts: seq<string>)
    requires AutomataFind(w) && source.first + |source.literals| <= |work.hits|
    requires FoundListed(work.hits, work.found) && SourceExact(work.hits, source, texts)
    modifies work`hits, work`found
    ensures OthersKept(old(work.hits), work.hits, source) && FoundListed(work.hits, work.found)
    ensures SourceExact(work.hits, source, texts + [text])
  {
    hide Contains, OccursAt, Means, Collect, FoundListed;
    var occurrences := w.find(source.literals, text);
    assert FindsEvery(source.literals, text, occurrences);
    MarkAll(source, occurrences, |text|, work);
    forall l | 0 <= l < |source.literals|
      ensures Means(work.hits[source.first + l], texts + [text], source.literals[l])
    {
      ScannedMeans(old(work.hits)[source.first + l], texts, text, source.literals, l, occurrences);
    }
  }

  lemma NothingFound(hits: seq<bv8>, source: Source)
    requires source.first + |source.literals| <= |hits|
    requires forall x :: source.first <= x < source.first + |source.literals| ==> hits[x] == 0
    ensures SourceExact(hits, source, [])
  {
  }

  /** Gathers one source's texts and finds its literals in each. */
  method ScanSource(w: World, source: Source, event: Value, work: GroupScratch, texts: Texts)
    requires AutomataFind(w) && source.first + |source.literals| <= |work.hits|
    requires FoundListed(work.hits, work.found) && texts.Valid()
    requires forall x :: source.first <= x < source.first + |source.literals| ==> work.hits[x] == 0
    modifies work`hits, work`found, texts
    ensures OthersKept(old(work.hits), work.hits, source) && FoundListed(work.hits, work.found)
    ensures texts.Valid() && texts.Current() == TextsOf(w, source.origin, source.cased, event)
    ensures SourceExact(work.hits, source, texts.Current())
  {
    hide OccursAt, Contains;
    Gather(w, source, event, texts);
    if source.literals == [] { return; }
    var current := texts.Current();
    NothingFound(work.hits, source);
    for t := 0 to |current|
      invariant OthersKept(old(work.hits), work.hits, source) && FoundListed(work.hits, work.found)
      invariant texts.Valid() && texts.Current() == current
      invariant SourceExact(work.hits, source, current[..t])
    {
      ScanText(w, source, current[t], work, current[..t]);
      assert current[..t + 1] == current[..t] + [current[t]];
    }
    assert current[..|current|] == current;
  }

  /** Everything a group reads of an event was gathered and scanned. */
  ghost predicate Scanned(w: World, g: Group, event: Value, work: GroupScratch, count: nat)
    requires count <= |g.sources|
    reads work, work.texts
  {
    && |work.texts| == |g.sources| && |work.hits| == g.literals && Numbered(g.sources, g.literals)
    && (forall s :: 0 <= s < count ==>
          work.texts[s].Valid() && work.texts[s].Current() == SourceTexts(w, g.sources, s, event)
          && SourceExact(work.hits, g.sources[s], SourceTexts(w, g.sources, s, event)))
  }

  method ScanAll(w: World, g: Group, event: Value, work: GroupScratch)
    requires AutomataFind(w) && Numbered(g.sources, g.literals) && work.Idle() && work.Fits(g)
    modifies work`hits, work`found, work.texts
    ensures work.TextsApart() && |work.hits| == old(|work.hits|)
    ensures FoundListed(work.hits, work.found) && Scanned(w, g, event, work, |g.sources|)
  {
    for s := 0 to |g.sources|
      invariant work.TextsApart() && |work.hits| == old(|work.hits|)
      invariant FoundListed(work.hits, work.found) && Scanned(w, g, event, work, s)
      invariant forall x, t ::
                s <= t < |g.sources| && g.sources[t].first <= x < g.sources[t].first + |g.sources[t].literals| ==>
        work.hits[x] == 0
    {
      ScanNext(w, g, event, work, s);
    }
  }

  /** The next source, which leaves what was found of the others. */
  method ScanNext(w: World, g: Group, event: Value, work: GroupScratch, s: nat)
    requires AutomataFind(w) && Numbered(g.sources, g.literals) && s < |g.sources|
    requires work.TextsApart() && |work.texts| == |g.sources| && |work.hits| == g.literals
    requires FoundListed(work.hits, work.found) && Scanned(w, g, event, work, s)
    requires forall x, t ::
             s <= t < |g.sources| && g.sources[t].first <= x < g.sources[t].first + |g.sources[t].literals| ==>
               work.hits[x] == 0
    modifies work`hits, work`found, work.texts
    ensures work.TextsApart() && |work.hits| == old(|work.hits|)
    ensures FoundListed(work.hits, work.found) && Scanned(w, g, event, work, s + 1)
    ensures forall x, t ::
            s < t < |g.sources| && g.sources[t].first <= x < g.sources[t].first + |g.sources[t].literals| ==>
              work.hits[x] == 0
  {
    hide AutomataFind, SourceExact, FoundListed;
    ghost var before := work.hits;
    ScanSource(w, g.sources[s], event, work, work.texts[s]);
    forall t | 0 <= t < s
      ensures SourceExact(work.hits, g.sources[t], SourceTexts(w, g.sources, t, event))
    {
      KeptExact(before, work.hits, g.sources[s], g.sources[t], SourceTexts(w, g.sources, t, event));
    }
  }

  lemma KeptExact(before: seq<bv8>, after: seq<bv8>, changed: Source, other: Source, texts: seq<string>)
    requires OthersKept(before, after, changed) && other.first + |other.literals| <= |before|
    requires other.first + |other.literals| <= changed.first
    requires SourceExact(before, other, texts)
    ensures SourceExact(after, other, texts)
  {
    hide Means;
    forall l | 0 <= l < |other.literals| ensures Means(after[other.first + l], texts, other.literals[l]) {
      assert after[other.first + l] == before[other.first + l];
    }
  }
}
