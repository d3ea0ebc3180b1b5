/** Working memory of an evaluation, kept across events. */
module Scratches {
  import opened Events
  import opened Rules
  import opened Compiled

  /** Strings kept from event to event, of which those past `len` are left over. */
  class Texts {
    var buffers: seq<string>
    var len: nat

    ghost predicate Valid()
      reads this
    {
      len <= |buffers|
    }

    function Current(): seq<string>
      requires Valid()
      reads this
    {
      buffers[..len]
    }

    constructor ()
      ensures Valid() && Current() == []
    {
      buffers, len := [], 0;
    }

    method Clear()
      requires Valid()
      modifies this
      ensures Valid() && Current() == []
    {
      len := 0;
    }

    /** Writes `text` to the next buffer, whatever an earlier event left there. */
    method Add(text: string)
      requires Valid()
      modifies this
      ensures Valid() && Current() == old(Current()) + [text]
    {
      if len == |buffers| { buffers := buffers + [""]; }
      buffers := buffers[len := text];
      len := len + 1;
    }
  }

  lemma {:induction false} ReadTextsOfNext(w: World, cased: bool, values: seq<Value>, k: nat)
    requires k < |values|
    ensures ReadTexts(w, cased, values[..k + 1]) ==
            ReadTexts(w, cased, values[..k]) +
            if ReadText(w, cased, values[k]).Some? then [ReadText(w, cased, values[k]).value] else []
  {
    hide ReadText, ReadTexts;
    ReadTextsOfFirst(w, cased, values[..k + 1]);
    if k > 0 {
      ReadTextsOfFirst(w, cased, values[..k]);
      ReadTextsOfNext(w, cased, values[1..], k - 1);
      assert values[..k + 1][1..] == values[1..][..k] && values[..k][1..] == values[1..][..k - 1];
    } else {
      NothingRead(w, cased);
      assert values[..1][1..] == [] && values[..0] == [];
    }
  }

  lemma ReadTextsOfFirst(w: World, cased: bool, values: seq<Value>)
    requires values != []
    ensures ReadTexts(w, cased, values) ==
            (if ReadText(w, cased, values[0]).Some? then [ReadText(w, cased, values[0]).value] else [])
            + ReadTexts(w, cased, values[1..])
  {
  }

  lemma NothingRead(w: World, cased: bool)
    ensures ReadTexts(w, cased, []) == []
  {
  }

  /** Fills the buffers with what a source reads of an event, in its case. */
  method Gather(w: World, source: Source, event: Value, texts: Texts)
    requires texts.Valid()
    modifies texts
    ensures texts.Valid() && texts.Current() == TextsOf(w, source.origin, source.cased, event)
  {
    texts.Clear();
    match source.origin
    case Paths(paths) =>
      var values := VisitAll(event, paths);
      for k := 0 to |values|
        invariant texts.Valid() && texts.Current() == ReadTexts(w, source.cased, values[..k])
      {
        ReadTextsOfNext(w, source.cased, values, k);
        var text := ReadText(w, source.cased, values[k]);
        if text.Some? { texts.Add(text.value); }
      }
      assert values[..|values|] == values;
    case AnyText =>
      var strings := Strings(event);
      for k := 0 to |strings|
        invariant texts.Valid() && texts.Current() == CasedTexts(w, source.cased, strings)[..k]
      {
        texts.Add(Cased(w, source.cased, strings[k]));
      }
      assert CasedTexts(w, source.cased, strings)[..|strings|] == CasedTexts(w, source.cased, strings);
  }

  const GENERATIONS := 0x1_0000_0000

  predicate NoDuplicates<T(==)>(s: seq<T>) { forall i, j :: 0 <= i < j < |s| ==> s[i] != s[j] }

  class GroupScratch {
    /** Flags by literal, all zero between events. */
    var hits: seq<bv8>
    /** Which of them may not be zero. */
    var found: seq<nat>
    /** The buffers, by source. */
    var texts: seq<Texts>
    /** Marks by rule: equal to the generation, they make it a candidate. */
    var candidate: seq<nat>
    /** Those marked, by position. */
    var candidates: seq<nat>
    /** Marks by predicate, with the value below that they vouch for. */
    var memo: seq<nat>
    var memoValue: seq<bool>
    /** Changes at every evaluation, so that no mark left over equals it. */
    var generation: nat

    ghost var Repr: set<object>

    /** The texts' buffers are separate, usable, and the scratch's own. */
    ghost predicate TextsApart()
      reads this, Repr
    {
      && this in Repr && (forall s :: 0 <= s < |texts| ==> texts[s] in Repr)
      && (forall s :: 0 <= s < |texts| ==> texts[s].Valid())
      && (forall s, t :: 0 <= s < t < |texts| ==> texts[s] != texts[t])
    }

    /** No mark is ahead of the generation. */
    ghost predicate MarksBehind()
      reads this
    {
      && |memoValue| == |memo| && generation < GENERATIONS
      && (forall p :: 0 <= p < |candidate| ==> candidate[p] <= generation)
      && (forall p :: 0 <= p < |memo| ==> memo[p] <= generation)
    }

    /** Between events, whatever was evaluated before, and by which engine. */
    ghost predicate Idle()
      reads this, Repr
    {
      TextsApart() && MarksBehind() && found == [] && forall l :: 0 <= l < |hits| ==> hits[l] == 0
    }

    /** Of the shape `group` needs. */
    predicate Fits(group: Group)
      reads this
    {
      |hits| == group.literals && |texts| == |group.sources| && |candidate| == |group.rules|
          && |memo| == |group.predicates|
    }

    constructor (group: Group)
      ensures Idle() && Fits(group) && fresh(Repr)
    {
      hits, found := seq(group.literals, _ => 0), [];
      candidate, candidates := seq(|group.rules|, _ => 0), [];
      memo, memoValue := seq(|group.predicates|, _ => 0), seq(|group.predicates|, _ => false);
      generation, texts, Repr := 0, [], {this};
      new;
      for s := 0 to |group.sources|
        invariant |texts| == s && fresh(Repr) && TextsApart() && found == [] && generation == 0
        invariant |hits| == group.literals && forall l :: 0 <= l < |hits| ==> hits[l] == 0
        invariant |candidate| == |group.rules| && forall p :: 0 <= p < |candidate| ==> candidate[p] == 0
        invariant |memo| == |memoValue| == |group.predicates| && forall p :: 0 <= p < |memo| ==> memo[p] == 0
      {
        var buffers := new Texts();
        texts, Repr := texts + [buffers], Repr + {buffers};
      }
    }

    /** Starts a new evaluation: no mark is of the generation it begins. */
    method NextGeneration()
      requires MarksBehind()
      modifies this`generation, this`candidate, this`memo
      ensures MarksBehind() && generation > 0
      ensures |candidate| == old(|candidate|) && |memo| == old(|memo|)
      ensures forall p :: 0 <= p < |candidate| ==> candidate[p] < generation
      ensures forall p :: 0 <= p < |memo| ==> memo[p] < generation
    {
      generation := (generation + 1) % GENERATIONS;
      if generation == 0 {
        // Only here could an old mark equal the new generation.
        candidate := seq(|candidate|, _ => 0);
        memo := seq(|memo|, _ => 0);
        generation := 1;
      }
    }
  }
}
