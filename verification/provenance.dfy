/** Why each row of a resolution is there: the edge that brought a member in, and
    the claims that make an alias one, added up. */
module Provenance {
  import opened Base
  import opened Ordering
  import opened Identifiers
  import opened Partitions
  import opened Resolutions

  /** How many events showed something, and from when to when. */
  datatype Seen = Seen(events: nat, first: int, last: int)

  /** A claim, and when the first and the last event showed it. */
  datatype Evidence = Evidence(claim: Claim, first: int, last: int)

  function SeenBy(e: Evidence): Seen { Seen(e.claim.events, e.first, e.last) }

  function AddedUp(a: Seen, b: Seen): Seen {
    Seen(a.events + b.events,
         if a.first <= b.first then a.first else b.first,
         if a.last >= b.last then a.last else b.last)
  }

  /** With which identifier, by which rule or whose word, and how often seen. */
  datatype Why = Why(partner: Option<Identifier>, rule: string, word: Option<string>, seen: Seen)

  /** What is said of an entity's own name and of what is shared. */
  const OWN := Why(None, "", None, Seen(0, 0, 0))

  function ClaimsOf(evidence: seq<Evidence>): (r: seq<Claim>)
    ensures |r| == |evidence| && forall i :: 0 <= i < |r| ==> r[i] == evidence[i].claim
  {
    seq(|evidence|, i requires 0 <= i < |evidence| => evidence[i].claim)
  }

  // ------------------------------------------------------------------ edges

  /** An edge, and what it says of those it brings in. */
  datatype Edge = Edge(pair: Pair, rule: string, word: Option<string>, seen: Seen)

  function SaidEdge(word: Word): Edge { Edge(word.pair, "said", Some(word.text), Seen(0, 0, 0)) }

  function ClaimEdge(e: Evidence): Edge { Edge((e.claim.one, e.claim.other), e.claim.rule, None, SeenBy(e)) }

  predicate EvidenceLe(a: Evidence, b: Evidence) { ClaimLe(a.claim, b.claim) }

  /** The evidence of claims that may join. */
  function JoiningEvidence(shared: set<Identifier>, evidence: seq<Evidence>): seq<Evidence> {
    if evidence == [] then []
    else (if MayJoin(shared, evidence[0].claim) then [evidence[0]] else []) + JoiningEvidence(shared, evidence[1..])
  }

  /** The edges as they are followed, each with what it says. */
  function EdgesTold(evidence: seq<Evidence>, said: Said, over: nat): seq<Edge> {
    var sorted := Sort(EvidenceLe, JoiningEvidence(SharedOf(ClaimsOf(evidence), over), evidence));
    seq(|said.same|, i requires 0 <= i < |said.same| => SaidEdge(said.same[i]))
    + seq(|sorted|, i requires 0 <= i < |sorted| => ClaimEdge(sorted[i]))
  }

  function PairsIn(edges: seq<Edge>): (r: seq<Pair>)
    ensures |r| == |edges| && forall i :: 0 <= i < |r| ==> r[i] == edges[i].pair
  {
    seq(|edges|, i requires 0 <= i < |edges| => edges[i].pair)
  }

  lemma {:induction false} ClaimsOfJoining(shared: set<Identifier>, evidence: seq<Evidence>)
    ensures ClaimsOf(JoiningEvidence(shared, evidence)) == Joining(shared, ClaimsOf(evidence))
  {
    if evidence != [] {
      ClaimsOfJoining(shared, evidence[1..]);
      assert ClaimsOf(evidence)[1..] == ClaimsOf(evidence[1..]);
    }
  }

  lemma ClaimsOfFirst(e: Evidence, evidence: seq<Evidence>)
    ensures ClaimsOf([e] + evidence) == [e.claim] + ClaimsOf(evidence)
  {
  }

  lemma {:induction false} ClaimsOfInserted(e: Evidence, evidence: seq<Evidence>)
    ensures ClaimsOf(Insert(EvidenceLe, e, evidence)) == Insert(ClaimLe, e.claim, ClaimsOf(evidence))
  {
    hide ClaimLe, ClaimsOf;
    ClaimsOfFirst(e, evidence);
    if evidence != [] {
      var first, rest := evidence[0], evidence[1..];
      ClaimsOfInserted(e, rest);
      ClaimsOfFirst(first, Insert(EvidenceLe, e, rest));
      ClaimsOfFirst(first, rest);
      assert evidence == [first] + rest && EvidenceLe(e, first) == ClaimLe(e.claim, first.claim);
      assert ClaimsOf(evidence)[1..] == ClaimsOf(rest);
    }
  }

  lemma {:induction false} ClaimsOfSorted(evidence: seq<Evidence>)
    ensures ClaimsOf(Sort(EvidenceLe, evidence)) == Sort(ClaimLe, ClaimsOf(evidence))
  {
    hide ClaimLe, EvidenceLe, Insert;
    if evidence != [] {
      var first, rest := evidence[0], evidence[1..];
      ClaimsOfSorted(rest);
      ClaimsOfInserted(first, Sort(EvidenceLe, rest));
      assert ClaimsOf(evidence)[1..] == ClaimsOf(rest) && ClaimsOf(evidence)[0] == first.claim;
      hide ClaimsOf;
    }
  }

  /** The edges told are those the claims decide. */
  lemma ToldAreEdges(evidence: seq<Evidence>, said: Said, over: nat)
    ensures PairsIn(EdgesTold(evidence, said, over)) == Edges(ClaimsOf(evidence), said, over)
  {
    var joining := JoiningEvidence(SharedOf(ClaimsOf(evidence), over), evidence);
    ClaimsOfJoining(SharedOf(ClaimsOf(evidence), over), evidence);
    ClaimsOfSorted(joining);
    hide Sort, SharedOf, JoiningEvidence, Joining, EvidenceLe, ClaimLe;
    var sorted := Sort(EvidenceLe, joining);
    assert forall i :: 0 <= i < |sorted| ==> ClaimsOf(sorted)[i] == sorted[i].claim;
  }

  // ---------------------------------------------------------------- members

  function OtherEnd(pair: Pair, x: Identifier): Identifier { if pair.0 == x then pair.1 else pair.0 }

  function EdgeWhy(edge: Edge, x: Identifier): Why {
    Why(Some(OtherEnd(edge.pair, x)), edge.rule, edge.word, edge.seen)
  }

  /** A member was brought in by the first edge followed that names it. */
  ghost predicate MemberWhy(edges: seq<Edge>, different: set<Pair>, row: Row, why: Why) {
    if row.identifier == row.entity then why == OWN
    else exists i: nat ::
        IsBrought(PairsIn(edges), different, row.identifier, i) && why == EdgeWhy(edges[i], row.identifier)
  }

  // ---------------------------------------------------------------- aliases

  /** The weak identifier of a claim and the strong one that it attaches to. */
  function Attached(shared: set<Identifier>, c: Claim): Option<Pair> {
    if !IsStrong(c.one) && Joins(shared, c.other) then Some((c.one, c.other))
    else if !IsStrong(c.other) && Joins(shared, c.one) then Some((c.other, c.one))
    else None
  }

  ghost predicate Attaches(shared: set<Identifier>, p: Partition, c: Claim, alias: Pair)
    requires GroupsOk(p)
  {
    var attached := Attached(shared, c);
    attached.Some? && alias == (attached.value.0, EntityOf(p, attached.value.1))
  }

  /** The evidence for an alias of an entity. */
  ghost function Attaching(
      evidence: seq<Evidence>, shared: set<Identifier>, p: Partition, alias: Pair): (r: seq<Evidence>)
    requires GroupsOk(p)
    ensures forall e :: e in r ==> Attaches(shared, p, e.claim, alias)
  {
    if evidence == [] then []
    else
      var last := evidence[|evidence| - 1];
      Attaching(evidence[..|evidence| - 1], shared, p, alias)
          + if Attaches(shared, p, last.claim, alias) then [last] else []
  }

  function TotalOf(evidence: seq<Evidence>): Seen
    requires evidence != []
  {
    var last := evidence[|evidence| - 1];
    if |evidence| == 1 then SeenBy(last) else AddedUp(TotalOf(evidence[..|evidence| - 1]), SeenBy(last))
  }

  /** An alias is shown with the first claim that attaches it, and seen as often,
      as early and as late as all of them. */
  function AliasReason(shared: set<Identifier>, attaching: seq<Evidence>): Why
    requires attaching != [] && Attached(shared, attaching[0].claim).Some?
  {
    Why(Some(Attached(shared, attaching[0].claim).value.1), attaching[0].claim.rule, None, TotalOf(attaching))
  }

  ghost predicate AliasWhy(evidence: seq<Evidence>, shared: set<Identifier>, p: Partition, row: Row, why: Why)
    requires GroupsOk(p)
  {
    var attaching := Attaching(evidence, shared, p, (row.identifier, row.entity));
    attaching != [] && assert attaching[0] in attaching; why == AliasReason(shared, attaching)
  }

  // ------------------------------------------------------------------- rows

  /** Each row of a resolution has why it is there. */
  ghost predicate IsWhy(evidence: seq<Evidence>, said: Said, over: nat, row: Row, why: Why)
    requires GroupsOk(Followed(Edges(ClaimsOf(evidence), said, over), said.different).groups)
  {
    if row.standing.Shared? then why == OWN
    else if row.standing.Member? then MemberWhy(EdgesTold(evidence, said, over), said.different, row, why)
    else
      AliasWhy(evidence, SharedOf(ClaimsOf(evidence), over),
               Followed(Edges(ClaimsOf(evidence), said, over), said.different).groups, row, why)
  }

  ghost predicate Explains(evidence: seq<Evidence>, said: Said, over: nat, rows: seq<Row>, whys: seq<Why>) {
    && GroupsOk(Followed(Edges(ClaimsOf(evidence), said, over), said.different).groups)
    && |whys| == |rows| && forall i :: 0 <= i < |rows| ==> IsWhy(evidence, said, over, rows[i], whys[i])
  }

  // ------------------------------------------------- what is added up is a total

  ghost function EventsOf(evidence: seq<Evidence>): nat {
    if evidence == [] then 0 else EventsOf(evidence[..|evidence| - 1]) + evidence[|evidence| - 1].claim.events
  }

  /** All the events, from the first of them to the last. */
  ghost predicate IsTotal(evidence: seq<Evidence>, seen: Seen) {
    && seen.events == EventsOf(evidence)
    && (forall e :: e in evidence ==> seen.first <= e.first && e.last <= seen.last)
    && (exists e :: e in evidence && e.first == seen.first)
    && (exists e :: e in evidence && e.last == seen.last)
  }

  lemma {:induction false} TotalIs(evidence: seq<Evidence>)
    requires evidence != []
    ensures IsTotal(evidence, TotalOf(evidence))
  {
    var rest, last := evidence[..|evidence| - 1], evidence[|evidence| - 1];
    assert evidence == rest + [last];
    if rest == [] {
      assert EventsOf(rest) == 0;
      assert last in evidence;
    } else {
      TotalIs(rest);
      var first :| first in rest && first.first == TotalOf(rest).first;
      var latest :| latest in rest && latest.last == TotalOf(rest).last;
      assert first in evidence && latest in evidence && last in evidence;
    }
  }

  lemma {:induction false} EventsOfBoth(a: seq<Evidence>, b: seq<Evidence>)
    ensures EventsOf(a + b) == EventsOf(a) + EventsOf(b)
  {
    if b == [] {
      assert a + b == a;
    } else {
      EventsOfBoth(a, b[..|b| - 1]);
      assert (a + b)[..|a + b| - 1] == a + b[..|b| - 1];
    }
  }

  lemma EventsOneMore(evidence: seq<Evidence>, e: Evidence)
    ensures EventsOf(evidence + [e]) == EventsOf(evidence) + e.claim.events
  {
    assert (evidence + [e])[..|evidence|] == evidence;
  }

  lemma EventsWithout(evidence: seq<Evidence>, before: seq<Evidence>, e: Evidence, after: seq<Evidence>)
    requires evidence == before + ([e] + after)
    ensures EventsOf(evidence) == EventsOf(before + after) + e.claim.events
  {
    hide *;
    assert evidence == (before + [e]) + after;
    EventsOneMore(before, e);
    EventsOfBoth(before, after);
    EventsOfBoth(before + [e], after);
  }

  lemma {:induction false} EventsOfAny(a: seq<Evidence>, b: seq<Evidence>)
    requires multiset(a) == multiset(b)
    ensures EventsOf(a) == EventsOf(b)
  {
    if a != [] {
      var i := TakenOut(a, b);
      EventsOfAny(a[..|a| - 1], b[..i] + b[i + 1..]);
      EventsWithout(b, b[..i], b[i], b[i + 1..]);
    }
  }

  lemma TotalOfAny(a: seq<Evidence>, b: seq<Evidence>)
    requires multiset(a) == multiset(b) && a != [] && b != []
    ensures TotalOf(a) == TotalOf(b)
  {
    TotalIs(a);
    TotalIs(b);
    EventsOfAny(a, b);
    SameElements(a, b);
    hide TotalOf;
  }

  lemma {:induction false} AttachingCounts(
      evidence: seq<Evidence>, shared: set<Identifier>, p: Partition, alias: Pair, e: Evidence)
    requires GroupsOk(p)
    ensures multiset(Attaching(evidence, shared, p, alias))[e]
            == if Attaches(shared, p, e.claim, alias) then multiset(evidence)[e] else 0
  {
    hide Attaches;
    if evidence != [] {
      AttachingCounts(evidence[..|evidence| - 1], shared, p, alias, e);
      assert evidence == evidence[..|evidence| - 1] + [evidence[|evidence| - 1]];
    }
  }

  // -------------------------------------------------- any order of the evidence

  lemma ClaimsOfOneMore(before: seq<Evidence>, e: Evidence, after: seq<Evidence>)
    ensures multiset(ClaimsOf(before + ([e] + after))) == multiset(ClaimsOf(before + after)) + multiset{e.claim}
  {
    var a, b := ClaimsOf(before), ClaimsOf(after);
    assert ClaimsOf(before + ([e] + after)) == a + ([e.claim] + b);
    assert ClaimsOf(before + after) == a + b;
    hide ClaimsOf;
  }

  lemma {:induction false} ClaimsOfAny(a: seq<Evidence>, b: seq<Evidence>)
    requires multiset(a) == multiset(b)
    ensures multiset(ClaimsOf(a)) == multiset(ClaimsOf(b))
    decreases |a|
  {
    hide ClaimsOf;
    if a == [] {
      assert |a| == |multiset(a)| && |b| == |multiset(b)|;
    } else {
      var i := TakenOut(a, b);
      var rest, last := a[..|a| - 1], a[|a| - 1];
      ClaimsOfAny(rest, b[..i] + b[i + 1..]);
      assert a == rest + ([last] + []) && rest + [] == rest;
      ClaimsOfOneMore(rest, last, []);
      ClaimsOfOneMore(b[..i], last, b[i + 1..]);
    }
  }

  /** Claims that are the same were seen at the same times. */
  ghost predicate TimesAgree(evidence: seq<Evidence>) {
    forall a, b :: a in evidence && b in evidence && a.claim == b.claim ==> a == b
  }

  /** In any order of the evidence a row is there for the same reason: an alias
      was seen as often, as early and as late, and what brought a member in is the
      same, seen as often, and at the same times if no claim was counted twice. */
  lemma ReasonsIgnoreOrder(
      a: seq<Evidence>, b: seq<Evidence>, said: Said, over: nat, row: Row, one: Why, other: Why)
    requires multiset(a) == multiset(b)
    requires GroupsOk(Followed(Edges(ClaimsOf(a), said, over), said.different).groups)
    requires GroupsOk(Followed(Edges(ClaimsOf(b), said, over), said.different).groups)
    requires IsWhy(a, said, over, row, one) && IsWhy(b, said, over, row, other)
    ensures row.standing.Alias? ==> one.word == other.word && one.seen == other.seen
    ensures !row.standing.Alias? ==> other.(seen := one.seen) == one && other.seen.events == one.seen.events
    ensures !row.standing.Alias? && TimesAgree(a) ==> other == one
  {
    ClaimsOfAny(a, b);
    SameEdges(ClaimsOf(a), ClaimsOf(b), said, over);
    SameEvidence(ClaimsOf(a), ClaimsOf(b), over);
    if row.standing.Alias? {
      var p := Followed(Edges(ClaimsOf(a), said, over), said.different).groups;
      hide Edges, Followed, SharedOf, ClaimsOf;
      SameTotals(a, b, SharedOf(ClaimsOf(a), over), p, (row.identifier, row.entity));
    } else if row.standing.Member? && row.identifier != row.entity {
      MemberIgnoresOrder(a, b, said, over, row, one, other);
    }
  }

  lemma SameTotals(a: seq<Evidence>, b: seq<Evidence>, shared: set<Identifier>, p: Partition, alias: Pair)
    requires multiset(a) == multiset(b) && GroupsOk(p)
    requires Attaching(a, shared, p, alias) != [] && Attaching(b, shared, p, alias) != []
    ensures TotalOf(Attaching(a, shared, p, alias)) == TotalOf(Attaching(b, shared, p, alias))
  {
    hide Attaches;
    var x, y := Attaching(a, shared, p, alias), Attaching(b, shared, p, alias);
    forall e ensures multiset(x)[e] == multiset(y)[e] {
      AttachingCounts(a, shared, p, alias, e);
      AttachingCounts(b, shared, p, alias, e);
    }
    assert multiset(x) == multiset(y);
    TotalOfAny(x, y);
  }

  lemma {:induction false} JoiningAreOfEvidence(shared: set<Identifier>, evidence: seq<Evidence>)
    ensures forall e :: e in JoiningEvidence(shared, evidence) ==> e in evidence
  {
    if evidence != [] {
      JoiningAreOfEvidence(shared, evidence[1..]);
      assert evidence == [evidence[0]] + evidence[1..];
    }
  }

  /** Every edge is a person's word or what some evidence says. */
  lemma EdgesAreOfEvidence(evidence: seq<Evidence>, said: Said, over: nat, i: nat)
    requires i < |EdgesTold(evidence, said, over)|
    ensures var edge := EdgesTold(evidence, said, over)[i];
            if i < |said.same| then edge == SaidEdge(said.same[i])
            else exists e :: e in evidence && edge == ClaimEdge(e) && i < |said.same| + |ClaimsSorted(evidence, over)|
                             && e.claim == ClaimsSorted(evidence, over)[i - |said.same|]
  {
    var shared := SharedOf(ClaimsOf(evidence), over);
    var joining := JoiningEvidence(shared, evidence);
    JoiningAreOfEvidence(shared, evidence);
    ClaimsOfJoining(shared, evidence);
    ClaimsOfSorted(joining);
    hide Sort, SharedOf, JoiningEvidence, Joining, EvidenceLe, ClaimLe;
    var sorted := Sort(EvidenceLe, joining);
    if i >= |said.same| {
      var e := sorted[i - |said.same|];
      assert e in multiset(sorted) && multiset(sorted) == multiset(joining);
      assert e in joining && ClaimsOf(sorted)[i - |said.same|] == e.claim;
    }
  }

  function ClaimsSorted(evidence: seq<Evidence>, over: nat): seq<Claim> {
    Sort(ClaimLe, Joining(SharedOf(ClaimsOf(evidence), over), ClaimsOf(evidence)))
  }

  lemma SameClaimsSorted(a: seq<Evidence>, b: seq<Evidence>, over: nat)
    requires multiset(a) == multiset(b)
    ensures ClaimsSorted(a, over) == ClaimsSorted(b, over)
  {
    ClaimsOfAny(a, b);
    SameEvidence(ClaimsOf(a), ClaimsOf(b), over);
    hide SharedOf, ClaimLe, ClaimsOf;
    var shared := SharedOf(ClaimsOf(a), over);
    forall c ensures multiset(Joining(shared, ClaimsOf(a)))[c] == multiset(Joining(shared, ClaimsOf(b)))[c] {
      JoiningKeepsCounts(shared, ClaimsOf(a), c);
      JoiningKeepsCounts(shared, ClaimsOf(b), c);
    }
    assert multiset(Joining(shared, ClaimsOf(a))) == multiset(Joining(shared, ClaimsOf(b)));
    ClaimOrder();
    SortIgnoresArrangement(ClaimLe, Joining(shared, ClaimsOf(a)), Joining(shared, ClaimsOf(b)));
  }

  /** One edge says the same in any order of the evidence. */
  lemma EdgeIgnoresOrder(a: seq<Evidence>, b: seq<Evidence>, said: Said, over: nat, i: nat)
    requires multiset(a) == multiset(b)
    requires i < |EdgesTold(a, said, over)| && i < |EdgesTold(b, said, over)|
    ensures var x, y := EdgesTold(a, said, over)[i], EdgesTold(b, said, over)[i];
            && y.(seen := x.seen) == x && y.seen.events == x.seen.events
            && (TimesAgree(a) ==> x == y)
  {
    hide EdgesTold, ClaimsSorted;
    SameClaimsSorted(a, b, over);
    EdgesAreOfEvidence(a, said, over, i);
    EdgesAreOfEvidence(b, said, over, i);
    SameElements(a, b);
  }

  lemma MemberIgnoresOrder(a: seq<Evidence>, b: seq<Evidence>, said: Said, over: nat, row: Row, one: Why, other: Why)
    requires multiset(a) == multiset(b) && row.identifier != row.entity
    requires MemberWhy(EdgesTold(a, said, over), said.different, row, one)
    requires MemberWhy(EdgesTold(b, said, over), said.different, row, other)
    ensures other.(seen := one.seen) == one && other.seen.events == one.seen.events
    ensures TimesAgree(a) ==> other == one
  {
    hide EdgesTold, Edges, ClaimsOf, JoinsAt, TimesAgree;
    ClaimsOfAny(a, b);
    SameEdges(ClaimsOf(a), ClaimsOf(b), said, over);
    ToldAreEdges(a, said, over);
    ToldAreEdges(b, said, over);
    var x, y := EdgesTold(a, said, over), EdgesTold(b, said, over);
    var i: nat :| IsBrought(PairsIn(x), said.different, row.identifier, i) && one == EdgeWhy(x[i], row.identifier);
    var j: nat :| IsBrought(PairsIn(y), said.different, row.identifier, j) && other == EdgeWhy(y[j], row.identifier);
    assert i == j;
    EdgeIgnoresOrder(a, b, said, over, i);
    assert x[i].pair == PairsIn(x)[i] && y[i].pair == PairsIn(y)[i];
  }
}
