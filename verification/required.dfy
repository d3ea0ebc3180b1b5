/** Texts that every match has to contain. The analysis may give up at any point;
    what is proved is that it is never wrong when it does not. */
module Required {
  import opened Base
  import opened Ordering
  import opened Text
  import opened Regexes
  import opened Exact

  /** Literals of fewer bytes are not worth a wake, and are dropped. */
  const SHORTEST_USEFUL := 3

  predicate NoneEmpty(texts: Texts) { forall k :: 0 <= k < |texts| ==> texts[k] != "" }

  /** Folded texts of which at least one lies inside each match, or nothing. */
  function RequiredTexts(beyond: Beyond, h: Hir): Option<Texts>
    decreases h, 0
  {
    match ExactTexts(beyond, h)
    case Some(texts) => if NoneEmpty(texts) then Some(texts) else None
    case None =>
      match h
      case Repetition(min, _, sub) => if min >= 1 then RequiredTexts(beyond, sub) else None
      case Capture(sub) => RequiredTexts(beyond, sub)
      case Concat(parts) => JoinRuns(beyond, parts, [], [""])
      case Alternation(branches) => RequiredBranches(beyond, branches, [])
      case _ => None
  }

  function RequiredBranches(beyond: Beyond, branches: seq<Hir>, all: Texts): Option<Texts>
    decreases branches, 0
  {
    if branches == [] then Some(all)
    else match RequiredTexts(beyond, branches[0])
      case None => None
      case Some(texts) =>
        if |all| + |texts| > MOST_ALTERNATIVES then None
        else RequiredBranches(beyond, branches[1..], all + texts)
  }

  /** The sets found, with the run that ends here if it says anything. */
  function Flush(candidates: seq<Texts>, run: Texts): seq<Texts> {
    if NoneEmpty(run) then candidates + [run] else candidates
  }

  /** Walks a concatenation. `run` is what the parts just passed spell together, so
      long as each of them spells few texts; a part that does not ends the run and is
      asked for a requirement by itself. */
  function JoinRuns(beyond: Beyond, parts: seq<Hir>, candidates: seq<Texts>, run: Texts): Option<Texts>
    decreases parts, 0
  {
    if parts == [] then Cheapest(Cost, Flush(candidates, run))
    else match ExactTexts(beyond, parts[0])
      case Some(texts) =>
        if |run| * |texts| <= MOST_ALTERNATIVES
        then JoinRuns(beyond, parts[1..], candidates, Cross(run, texts))
        else JoinRuns(beyond, parts[1..], Flush(candidates, run), texts)
      case None =>
        var found := Flush(candidates, run);
        match RequiredTexts(beyond, parts[0])
        case Some(requirement) => JoinRuns(beyond, parts[1..], found + [requirement], [""])
        case None => JoinRuns(beyond, parts[1..], found, [""])
  }

  /** What an expression is searched for by. A pattern that does not parse has none.
      */
  function RequiredLiterals(beyond: Beyond, parsed: Option<Hir>): Option<Texts> {
    match parsed
    case None => None
    case Some(h) =>
      match RequiredTexts(beyond, h)
      case None => None
      case Some(literals) =>
        if exists k :: 0 <= k < |literals| && Utf8Bytes(literals[k]) < SHORTEST_USEFUL then None
        else Some(Dedup(Sort(StringLe, literals)))
  }

  /** The loops that find the requirement. */
  method FindRequired(beyond: Beyond, h: Hir) returns (r: Option<Texts>)
    ensures r == RequiredTexts(beyond, h)
    decreases h
  {
    var exact := FindExact(beyond, h);
    if exact.Some? { return if NoneEmpty(exact.value) then exact else None; }
    match h
    case Repetition(min, _, sub) =>
      if min >= 1 { r := FindRequired(beyond, sub); } else { r := None; }
    case Capture(sub) => r := FindRequired(beyond, sub);
    case Concat(parts) =>
      var candidates: seq<Texts>, run: Texts := [], [""];
      for k := 0 to |parts|
        invariant JoinRuns(beyond, parts, [], [""]) == JoinRuns(beyond, parts[k..], candidates, run)
      {
        assert parts[k..][0] == parts[k] && parts[k..][1..] == parts[k + 1..];
        var texts := FindExact(beyond, parts[k]);
        if texts.Some? && |run| * |texts.value| <= MOST_ALTERNATIVES {
          run := Cross(run, texts.value);
        } else if texts.Some? {
          candidates, run := Flush(candidates, run), texts.value;
        } else {
          candidates, run := Flush(candidates, run), [""];
          var requirement := FindRequired(beyond, parts[k]);
          if requirement.Some? { candidates := candidates + [requirement.value]; }
        }
      }
      r := Cheapest(Cost, Flush(candidates, run));
    case Alternation(branches) =>
      var all: Texts := [];
      for k := 0 to |branches|
        invariant RequiredBranches(beyond, branches, []) == RequiredBranches(beyond, branches[k..], all)
      {
        assert branches[k..][0] == branches[k] && branches[k..][1..] == branches[k + 1..];
        var texts := FindRequired(beyond, branches[k]);
        if texts.None? { return None; }
        all := all + texts.value;
        if |all| > MOST_ALTERNATIVES { return None; }
      }
      r := Some(all);
    case _ => r := None;
  }

  // ------------------------------------------------------------- soundness

  ghost predicate ContainsOne(s: string, texts: Texts) {
    exists k :: 0 <= k < |texts| && Contains(s, texts[k])
  }

  lemma ContainsItself(s: string, texts: Texts)
    requires s in texts
    ensures ContainsOne(s, texts)
  {
    assert OccursAt(s, s, 0);
  }

  lemma ContainsOneWithin(s: string, i: nat, j: nat, texts: Texts)
    requires i <= j <= |s| && ContainsOne(s[i..j], texts)
    ensures ContainsOne(s, texts)
  {
    var k :| 0 <= k < |texts| && Contains(s[i..j], texts[k]);
    ContainsWithin(s, i, j, texts[k]);
  }

  /** Every match of `h` contains, folded, a member of what is required. */
  lemma {:induction false} RequiredIsContained(look: Looks, beyond: Beyond, h: Hir, s: string, i: nat, j: nat)
    requires i <= j <= |s| && Matches(look, h, s, i, j) && RequiredTexts(beyond, h).Some?
    ensures ContainsOne(Fold(beyond, s[i..j]), RequiredTexts(beyond, h).value)
    decreases h, 0
  {
    if ExactTexts(beyond, h).Some? {
      ExactIsComplete(look, beyond, h, s, i, j);
      ContainsItself(Fold(beyond, s[i..j]), ExactTexts(beyond, h).value);
    } else {
      match h
      case Repetition(min, max, sub) =>
        var n: nat :| Allowed(min, max, n) && MatchesTimes(look, sub, n, s, i, j);
        var k: nat :| Within(i, k, j) && Matches(look, sub, s, i, k) && MatchesTimes(look, sub, n - 1, s, k, j);
        RequiredIsContained(look, beyond, sub, s, i, k);
        assert Fold(beyond, s[i..j])[0..k - i] == Fold(beyond, s[i..k]);
        ContainsOneWithin(Fold(beyond, s[i..j]), 0, k - i, RequiredTexts(beyond, h).value);
      case Capture(sub) => RequiredIsContained(look, beyond, sub, s, i, j);
      case Concat(parts) =>
        assert EndsWith(Fold(beyond, s[i..i]), [""][0]);
        RunsAreContained(look, beyond, parts, [], [""], s, i, i, j);
      case Alternation(branches) =>
        var b :| 0 <= b < |branches| && Matches(look, branches[b], s, i, j);
        BranchIsContained(look, beyond, branches, [], b, s, i, j);
    }
  }

  lemma {:induction false} BranchesKeep(beyond: Beyond, branches: seq<Hir>, all: Texts)
    requires RequiredBranches(beyond, branches, all).Some?
    ensures all <= RequiredBranches(beyond, branches, all).value
    decreases branches
  {
    if branches != [] { BranchesKeep(beyond, branches[1..], all + RequiredTexts(beyond, branches[0]).value); }
  }

  lemma {:induction false} BranchIsContained(
    look: Looks, beyond: Beyond, branches: seq<Hir>, all: Texts, b: nat, s: string, i: nat, j: nat)
    requires i <= j <= |s| && b < |branches| && Matches(look, branches[b], s, i, j)
    requires RequiredBranches(beyond, branches, all).Some?
    ensures ContainsOne(Fold(beyond, s[i..j]), RequiredBranches(beyond, branches, all).value)
    decreases branches, 0
  {
    var texts := RequiredTexts(beyond, branches[0]).value;
    if b == 0 {
      RequiredIsContained(look, beyond, branches[0], s, i, j);
      BranchesKeep(beyond, branches[1..], all + texts);
      var k :| 0 <= k < |texts| && Contains(Fold(beyond, s[i..j]), texts[k]);
      assert RequiredBranches(beyond, branches, all).value[|all| + k] == texts[k];
    } else {
      BranchIsContained(look, beyond, branches[1..], all + texts, b - 1, s, i, j);
    }
  }

  /** What the loop keeps after the parts that match up to `m`: every set found
      is contained, and the text ends with a member of the run. */
  ghost predicate RunInvariant(beyond: Beyond, candidates: seq<Texts>, run: Texts, s: string, i: nat, m: nat)
    requires i <= m <= |s|
  {
    && (forall c :: 0 <= c < |candidates| ==> ContainsOne(Fold(beyond, s[i..m]), candidates[c]))
    && (exists r :: 0 <= r < |run| && EndsWith(Fold(beyond, s[i..m]), run[r]))
  }

  lemma FlushKeeps(beyond: Beyond, candidates: seq<Texts>, run: Texts, s: string, i: nat, m: nat, j: nat)
    requires i <= m <= j <= |s| && RunInvariant(beyond, candidates, run, s, i, m)
    ensures forall c :: 0 <= c < |Flush(candidates, run)| ==>
              ContainsOne(Fold(beyond, s[i..j]), Flush(candidates, run)[c])
  {
    var r :| 0 <= r < |run| && EndsWith(Fold(beyond, s[i..m]), run[r]);
    assert ContainsOne(Fold(beyond, s[i..m]), run);
    assert Fold(beyond, s[i..j])[0..m - i] == Fold(beyond, s[i..m]);
    forall c | 0 <= c < |Flush(candidates, run)|
      ensures ContainsOne(Fold(beyond, s[i..j]), Flush(candidates, run)[c])
    {
      ContainsOneWithin(Fold(beyond, s[i..j]), 0, m - i, Flush(candidates, run)[c]);
    }
  }

  lemma RunGrows(beyond: Beyond, run: Texts, texts: Texts, s: string, i: nat, m: nat, k: nat)
    requires i <= m <= k <= |s| && Fold(beyond, s[m..k]) in texts
    requires exists r :: 0 <= r < |run| && EndsWith(Fold(beyond, s[i..m]), run[r])
    ensures exists r :: 0 <= r < |Cross(run, texts)| && EndsWith(Fold(beyond, s[i..k]), Cross(run, texts)[r])
  {
    var r :| 0 <= r < |run| && EndsWith(Fold(beyond, s[i..m]), run[r]);
    var piece := Fold(beyond, s[m..k]);
    CrossHolds(run, texts, run[r], piece);
    var x :| 0 <= x < |Cross(run, texts)| && Cross(run, texts)[x] == run[r] + piece;
    assert s[i..k] == s[i..m] + s[m..k];
    FoldOfConcat(beyond, s[i..m], s[m..k]);
    hide Fold, Cross;
    EndsWithMore(Fold(beyond, s[i..m]), run[r], piece);
  }

  lemma EndsWithMore(text: string, end: string, piece: string)
    requires EndsWith(text, end)
    ensures EndsWith(text + piece, end + piece)
  {
    var at := |text| - |end|;
    assert (text + piece)[at..] == text[at..] + piece;
  }

  lemma CrossKeeps(beyond: Beyond, candidates: seq<Texts>, run: Texts, texts: Texts, s: string, i: nat, m: nat, k: nat)
    requires i <= m <= k <= |s| && RunInvariant(beyond, candidates, run, s, i, m) && Fold(beyond, s[m..k]) in texts
    ensures RunInvariant(beyond, candidates, Cross(run, texts), s, i, k)
  {
    RunGrows(beyond, run, texts, s, i, m, k);
    KeepsContained(beyond, candidates, s, i, m, k);
  }

  lemma RestartKeeps(
      beyond: Beyond, candidates: seq<Texts>, run: Texts, texts: Texts, s: string, i: nat, m: nat, k: nat)
    requires i <= m <= k <= |s| && RunInvariant(beyond, candidates, run, s, i, m) && Fold(beyond, s[m..k]) in texts
    ensures RunInvariant(beyond, Flush(candidates, run), texts, s, i, k)
  {
    FlushKeeps(beyond, candidates, run, s, i, m, k);
    EndsWithPart(beyond, texts, s, i, m, k);
  }

  lemma NothingKeeps(beyond: Beyond, candidates: seq<Texts>, run: Texts, s: string, i: nat, m: nat, k: nat)
    requires i <= m <= k <= |s| && RunInvariant(beyond, candidates, run, s, i, m)
    ensures RunInvariant(beyond, Flush(candidates, run), [""], s, i, k)
  {
    FlushKeeps(beyond, candidates, run, s, i, m, k);
    assert EndsWith(Fold(beyond, s[i..k]), [""][0]);
  }

  lemma RequiredKeeps(beyond: Beyond, candidates: seq<Texts>, texts: Texts, s: string, i: nat, m: nat, k: nat)
    requires i <= m <= k <= |s| && RunInvariant(beyond, candidates, [""], s, i, k)
             && ContainsOne(Fold(beyond, s[m..k]), texts)
    ensures RunInvariant(beyond, candidates + [texts], [""], s, i, k)
  {
    assert Fold(beyond, s[i..k])[m - i..k - i] == Fold(beyond, s[m..k]);
    ContainsOneWithin(Fold(beyond, s[i..k]), m - i, k - i, texts);
  }

  lemma {:induction false} RunsAreContained(
    look: Looks, beyond: Beyond, parts: seq<Hir>, candidates: seq<Texts>, run: Texts,
    s: string, i: nat, m: nat, j: nat)
    requires i <= m <= j <= |s| && MatchesAll(look, parts, s, m, j)
    requires RunInvariant(beyond, candidates, run, s, i, m)
    requires JoinRuns(beyond, parts, candidates, run).Some?
    ensures ContainsOne(Fold(beyond, s[i..j]), JoinRuns(beyond, parts, candidates, run).value)
    decreases parts, 0
  {
    if parts == [] {
      FlushKeeps(beyond, candidates, run, s, i, m, m);
    } else {
      var k: nat :| Within(m, k, j) && Matches(look, parts[0], s, m, k) && MatchesAll(look, parts[1..], s, k, j);
      hide RunInvariant, ContainsOne, Fold, Matches, MatchesAll, ExactTexts, RequiredTexts, Cross, Flush;
      if ExactTexts(beyond, parts[0]).Some? {
        var texts := ExactTexts(beyond, parts[0]).value;
        ExactIsComplete(look, beyond, parts[0], s, m, k);
        if |run| * |texts| <= MOST_ALTERNATIVES {
          CrossKeeps(beyond, candidates, run, texts, s, i, m, k);
          RunsAreContained(look, beyond, parts[1..], candidates, Cross(run, texts), s, i, k, j);
        } else {
          RestartKeeps(beyond, candidates, run, texts, s, i, m, k);
          RunsAreContained(look, beyond, parts[1..], Flush(candidates, run), texts, s, i, k, j);
        }
      } else {
        NothingKeeps(beyond, candidates, run, s, i, m, k);
        if RequiredTexts(beyond, parts[0]).Some? {
          var texts := RequiredTexts(beyond, parts[0]).value;
          RequiredIsContained(look, beyond, parts[0], s, m, k);
          RequiredKeeps(beyond, Flush(candidates, run), texts, s, i, m, k);
          RunsAreContained(look, beyond, parts[1..], Flush(candidates, run) + [texts], [""], s, i, k, j);
        } else {
          RunsAreContained(look, beyond, parts[1..], Flush(candidates, run), [""], s, i, k, j);
        }
      }
    }
  }

  lemma KeepsContained(beyond: Beyond, candidates: seq<Texts>, s: string, i: nat, m: nat, k: nat)
    requires i <= m <= k <= |s|
    requires forall c :: 0 <= c < |candidates| ==> ContainsOne(Fold(beyond, s[i..m]), candidates[c])
    ensures forall c :: 0 <= c < |candidates| ==> ContainsOne(Fold(beyond, s[i..k]), candidates[c])
  {
    assert Fold(beyond, s[i..k])[0..m - i] == Fold(beyond, s[i..m]);
    forall c | 0 <= c < |candidates| ensures ContainsOne(Fold(beyond, s[i..k]), candidates[c]) {
      ContainsOneWithin(Fold(beyond, s[i..k]), 0, m - i, candidates[c]);
    }
  }

  lemma EndsWithPart(beyond: Beyond, texts: Texts, s: string, i: nat, m: nat, k: nat)
    requires i <= m <= k <= |s| && Fold(beyond, s[m..k]) in texts
    ensures exists r :: 0 <= r < |texts| && EndsWith(Fold(beyond, s[i..k]), texts[r])
  {
    var r :| 0 <= r < |texts| && texts[r] == Fold(beyond, s[m..k]);
    assert Fold(beyond, s[i..k])[m - i..k - i] == Fold(beyond, s[m..k]);
    assert EndsWith(Fold(beyond, s[i..k]), texts[r]);
  }

  /** If literals are known, the folding of every text that holds a match
      contains one of them, so a text in which none is found need not be
      searched; and each is long enough to be worth looking for. */
  lemma LiteralsAreRequired(look: Looks, beyond: Beyond, h: Hir, s: string)
    requires IsMatch(look, h, s) && RequiredLiterals(beyond, Some(h)).Some?
    ensures ContainsOne(Fold(beyond, s), RequiredLiterals(beyond, Some(h)).value)
    ensures forall t :: t in RequiredLiterals(beyond, Some(h)).value ==> Utf8Bytes(t) >= SHORTEST_USEFUL
  {
    var texts, literals := RequiredTexts(beyond, h).value, RequiredLiterals(beyond, Some(h)).value;
    var i: nat, j: nat :| i <= j <= |s| && Matches(look, h, s, i, j);
    RequiredIsContained(look, beyond, h, s, i, j);
    FoldOfPart(beyond, s, i, j);
    ContainsOneWithin(Fold(beyond, s), i, j, texts);
    SortedSetHolds(texts);
    var k :| 0 <= k < |texts| && Contains(Fold(beyond, s), texts[k]);
    assert texts[k] in literals;
  }

  lemma SortedSetHolds(texts: Texts)
    ensures forall t :: t in Dedup(Sort(StringLe, texts)) <==> t in texts
  {
    forall t ensures t in Dedup(Sort(StringLe, texts)) <==> t in texts {
      assert t in multiset(Sort(StringLe, texts)) <==> t in multiset(texts);
    }
  }
}
