/** What the libraries promise can be kept, whatever parses the expressions. */
module PromisesKept {
  import opened Text
  import opened Rules

  /** Where one literal occurs before a place. */
  function OccurrencesOf(literals: seq<string>, l: nat, text: string, before: nat): seq<Occurrence>
    requires l < |literals|
  {
    if before == 0 then []
    else
      OccurrencesOf(literals, l, text, before - 1)
      + if OccursAt(text, literals[l], before - 1) then [Occurrence(l, before - 1, before - 1 + |literals[l]|)] else []
  }

  /** Where the first literals occur. */
  function AllOccurrences(literals: seq<string>, n: nat, text: string): seq<Occurrence>
    requires n <= |literals|
  {
    if n == 0 then []
    else AllOccurrences(literals, n - 1, text) + OccurrencesOf(literals, n - 1, text, |text| + 1)
  }

  lemma {:induction false} OccurrencesAre(literals: seq<string>, l: nat, text: string, before: nat, o: Occurrence)
    requires l < |literals|
    ensures o in OccurrencesOf(literals, l, text, before) <==>
            o.literal == l && o.start < before && OccursAt(text, literals[l], o.start)
                && o.end == o.start + |literals[l]|
  {
    if before > 0 { OccurrencesAre(literals, l, text, before - 1, o); }
  }

  lemma {:induction false} AllAre(literals: seq<string>, n: nat, text: string, o: Occurrence)
    requires n <= |literals|
    ensures o in AllOccurrences(literals, n, text) <==>
            o.literal < n && OccursAt(text, literals[o.literal], o.start) && o.end == o.start + |literals[o.literal]|
  {
    if n > 0 {
      assert OccursAt(text, literals[n - 1], o.start) ==> o.start < |text| + 1;
      var before, last := AllOccurrences(literals, n - 1, text), OccurrencesOf(literals, n - 1, text, |text| + 1);
      assert AllOccurrences(literals, n, text) == before + last;
      hide *;
      assert o in before + last <==> o in before || o in last;
      AllAre(literals, n - 1, text, o);
      OccurrencesAre(literals, n - 1, text, |text| + 1, o);
    }
  }

  lemma AllAreFound(literals: seq<string>, text: string)
    ensures FindsEvery(literals, text, AllOccurrences(literals, |literals|, text))
  {
    var found := AllOccurrences(literals, |literals|, text);
    forall f | 0 <= f < |found|
      ensures found[f].literal < |literals| && OccursAt(text, literals[found[f].literal], found[f].start)
              && found[f].end == found[f].start + |literals[found[f].literal]|
    {
      assert found[f] in found;
      AllAre(literals, |literals|, text, found[f]);
    }
    forall l, at: nat | 0 <= l < |literals| && OccursAt(text, literals[l], at)
      ensures Occurrence(l, at, at + |literals[l]|) in found
    {
      AllAre(literals, |literals|, text, Occurrence(l, at, at + |literals[l]|));
    }
  }

  /** Whatever a world parses, folds, and asserts, some world that does so keeps
      what its libraries promise. */
  lemma PromisesCanBeKept(w: World)
    ensures exists kept: World ::
              kept.parse == w.parse && kept.look == w.look && kept.beyond == w.beyond && Promises(kept)
  {
    ghost var isMatch := (pattern: string, flags: Flags, text: string) =>
      w.parse(pattern, flags).Some? && Regexes.IsMatch(w.look, w.parse(pattern, flags).value, text);
    var find := (literals: seq<string>, text: string) => AllOccurrences(literals, |literals|, text);
    ghost var kept := w.(isMatch := isMatch, find := find);
    forall literals, text ensures FindsEvery(literals, text, kept.find(literals, text)) { AllAreFound(literals, text); }
    assert AutomataFind(kept) && ExpressionsMatch(kept);
  }
}
