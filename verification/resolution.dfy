/** The specification of a resolution, on sets and sequences: which claims count, in
    which order they are followed, and which rows the outcome has. */
module Resolutions {
  import opened Ordering
  import opened Identifiers
  import opened Partitions

  /** A statement that two identifiers are one, with the rule behind it and the
      number of events. */
  datatype Claim = Claim(one: Identifier, other: Identifier, rule: string, events: nat)

  /** Two identifiers that a person said are the same, and where and why. */
  datatype Word = Word(pair: Pair, text: string)

  /** What people said. */
  datatype Said = Said(same: seq<Word>, different: set<Pair>)

  // ----------------------------------------------------------------- shared

  /** Per form, the distinct strong identifiers on the other side of some claim
      about `x`. */
  function Partners(evidence: seq<Claim>, x: Identifier, form: Form): set<Identifier> {
    (set c | c in evidence && c.one == x && IsStrong(c.other) && c.other.form == form :: c.other)
    + (set c | c in evidence && c.other == x && IsStrong(c.one) && c.one.form == form :: c.one)
  }

  predicate IsShared(evidence: seq<Claim>, over: nat, x: Identifier) {
    exists form: Form :: |Partners(evidence, x, form)| > over
  }

  function Claimed(evidence: seq<Claim>): set<Identifier> {
    (set c | c in evidence :: c.one) + (set c | c in evidence :: c.other)
  }

  /** Identifiers over the limit for at least one form. */
  function SharedOf(evidence: seq<Claim>, over: nat): set<Identifier> {
    set x | x in Claimed(evidence) && IsShared(evidence, over, x)
  }

  predicate Joins(shared: set<Identifier>, x: Identifier) { IsStrong(x) && x !in shared }

  // ------------------------------------------------------------------ edges

  /** The order claims are followed in: the most seen first. */
  predicate ClaimLe(a: Claim, b: Claim) {
    a.events > b.events
    || (a.events == b.events
        && (IdLt(a.one, b.one)
            || (a.one == b.one && (IdLt(a.other, b.other) || (a.other == b.other && StringLe(a.rule, b.rule))))))
  }

  predicate IdLt(a: Identifier, b: Identifier) { IdLe(a, b) && a != b }

  lemma ClaimOrder()
    ensures TotalOrder(ClaimLe)
  {
    IdOrder();
    StringOrder();
    hide IdLe, LexLe;
    forall a, b ensures ClaimLe(a, b) || ClaimLe(b, a) {
    }
    forall a, b, c | ClaimLe(a, b) && ClaimLe(b, c) ensures ClaimLe(a, c) { ClaimLeTransitive(a, b, c); }
  }

  lemma ClaimLeTransitive(a: Claim, b: Claim, c: Claim)
    requires ClaimLe(a, b) && ClaimLe(b, c)
    ensures ClaimLe(a, c)
  {
    IdOrder();
    StringOrder();
    hide IdLe, LexLe;
  }

  predicate MayJoin(shared: set<Identifier>, c: Claim) {
    c.one != c.other && Joins(shared, c.one) && Joins(shared, c.other)
  }

  /** What is left of the claims when those with a weak or a shared side, or two
      equal sides, are dropped. */
  function Joining(shared: set<Identifier>, evidence: seq<Claim>): seq<Claim> {
    if evidence == [] then []
    else (if MayJoin(shared, evidence[0]) then [evidence[0]] else []) + Joining(shared, evidence[1..])
  }

  function PairsOf(claims: seq<Claim>): (r: seq<Pair>)
    ensures |r| == |claims| && forall i :: 0 <= i < |r| ==> r[i] == (claims[i].one, claims[i].other)
  {
    seq(|claims|, i requires 0 <= i < |claims| => (claims[i].one, claims[i].other))
  }

  function PairsSaid(words: seq<Word>): (r: seq<Pair>)
    ensures |r| == |words| && forall i :: 0 <= i < |r| ==> r[i] == words[i].pair
  {
    seq(|words|, i requires 0 <= i < |words| => words[i].pair)
  }

  /** Everything that is followed, in order. The order is total up to equal claims,
      which is why that of the evidence is forgotten. */
  function Edges(evidence: seq<Claim>, said: Said, over: nat): seq<Pair> {
    PairsSaid(said.same) + PairsOf(Sort(ClaimLe, Joining(SharedOf(evidence, over), evidence)))
  }

  // ------------------------------------------------------------------ names

  ghost predicate IsName(ids: set<Identifier>, name: Identifier) {
    name in ids && forall x :: x in ids ==> NameLe(name, x)
  }

  lemma {:induction false} NameExists(ids: set<Identifier>)
    requires ids != {}
    ensures exists name :: IsName(ids, name)
    decreases ids
  {
    NameOrder();
    hide NameLe;
    var x :| x in ids;
    var rest := ids - {x};
    if rest == {} {
      forall y | y in ids ensures NameLe(x, y) { assert y == x || y in rest; }
      assert IsName(ids, x);
    } else {
      NameExists(rest);
      var best :| IsName(rest, best);
      var name := if NameLe(x, best) then x else best;
      assert IsName(ids, name);
    }
  }

  /** The strongest of the identifiers, which there is one of. */
  ghost function NameOf(ids: set<Identifier>): (name: Identifier)
    requires ids != {}
    ensures IsName(ids, name)
  {
    NameExists(ids);
    var name :| IsName(ids, name);
    name
  }

  lemma NameIsUnique(ids: set<Identifier>, a: Identifier, b: Identifier)
    requires IsName(ids, a) && IsName(ids, b)
    ensures a == b
  {
    NameOrder();
  }

  // ------------------------------------------------------------------- rows

  datatype Standing = Member | Alias | Shared

  datatype Row = Row(identifier: Identifier, entity: Identifier, standing: Standing)

  function StandingCode(standing: Standing): nat {
    match standing case Member => 0 case Alias => 1 case Shared => 2
  }

  predicate RowLe(a: Row, b: Row) {
    IdLt(a.entity, b.entity)
    || (a.entity == b.entity
        && (StandingCode(a.standing) < StandingCode(b.standing)
            || (a.standing == b.standing && IdLe(a.identifier, b.identifier))))
  }

  lemma RowOrder()
    ensures TotalOrder(RowLe)
  {
    IdOrder();
    hide IdLe;
    forall a, b, c | RowLe(a, b) && RowLe(b, c) ensures RowLe(a, c) { RowLeTransitive(a, b, c); }
  }

  lemma RowLeTransitive(a: Row, b: Row, c: Row)
    requires RowLe(a, b) && RowLe(b, c)
    ensures RowLe(a, c)
  {
    IdOrder();
    hide IdLe;
  }

  ghost predicate GroupsOk(p: Partition) { forall x :: x in p ==> x in p[x] }

  /** The name that stands for an identifier, which is its own where no edge reached
      it. */
  ghost function EntityOf(p: Partition, x: Identifier): Identifier
    requires GroupsOk(p)
  {
    if x in p then NameOf(p[x]) else x
  }

  ghost function MembersOf(p: Partition): set<Identifier> { set x | x in p && |p[x]| >= 2 }

  ghost function AliasesOf(evidence: seq<Claim>, shared: set<Identifier>, p: Partition): set<(Identifier, Identifier)>
    requires GroupsOk(p)
  {
    (set c | c in evidence && !IsStrong(c.one) && Joins(shared, c.other) :: (c.one, EntityOf(p, c.other)))
    + (set c | c in evidence && !IsStrong(c.other) && Joins(shared, c.one) :: (c.other, EntityOf(p, c.one)))
  }

  /** The rows of a resolution. */
  ghost predicate IsRow(evidence: seq<Claim>, shared: set<Identifier>, p: Partition, row: Row)
    requires GroupsOk(p)
  {
    match row.standing
    case Member => row.identifier in MembersOf(p) && row.entity == EntityOf(p, row.identifier)
    case Shared => row.identifier in shared && row.entity == row.identifier
    case Alias => (row.identifier, row.entity) in AliasesOf(evidence, shared, p)
  }

  datatype Summary = Summary(entities: nat, members: nat, aliases: nat, shared: nat, heldApart: nat)

  datatype Resolution = Resolution(rows: seq<Row>, summary: Summary)

  /** What the evidence and what was said resolve to. */
  ghost predicate Resolves(evidence: seq<Claim>, said: Said, over: nat, r: Resolution) {
    var o := Followed(Edges(evidence, said, over), said.different);
    var shared := SharedOf(evidence, over);
    && GroupsOk(o.groups)
    && (forall i, j :: 0 <= i < j < |r.rows| ==> RowLe(r.rows[i], r.rows[j]) && r.rows[i] != r.rows[j])
    && (forall row :: row in r.rows <==> IsRow(evidence, shared, o.groups, row))
    && r.summary == Summary(
                      |set x | x in MembersOf(o.groups) :: o.groups[x]|, |MembersOf(o.groups)|,
                      |AliasesOf(evidence, shared, o.groups)|, |shared|, o.heldApart)
  }

  // ----------------------------------------------- any order of the evidence

  lemma {:induction false} JoiningKeepsCounts(shared: set<Identifier>, evidence: seq<Claim>, c: Claim)
    ensures multiset(Joining(shared, evidence))[c] == if MayJoin(shared, c) then multiset(evidence)[c] else 0
  {
    if evidence != [] {
      JoiningKeepsCounts(shared, evidence[1..], c);
      assert evidence == [evidence[0]] + evidence[1..];
    }
  }

  lemma SameEvidence(a: seq<Claim>, b: seq<Claim>, over: nat)
    requires multiset(a) == multiset(b)
    ensures forall c :: c in a <==> c in b
    ensures SharedOf(a, over) == SharedOf(b, over)
  {
    forall c ensures c in a <==> c in b { assert c in multiset(a) <==> c in multiset(b); }
    assert Claimed(a) == Claimed(b);
    forall x, form: Form ensures Partners(a, x, form) == Partners(b, x, form) {
    }
  }

  lemma SameEdges(a: seq<Claim>, b: seq<Claim>, said: Said, over: nat)
    requires multiset(a) == multiset(b)
    ensures Edges(a, said, over) == Edges(b, said, over)
  {
    SameEvidence(a, b, over);
    var shared := SharedOf(a, over);
    forall c ensures multiset(Joining(shared, a))[c] == multiset(Joining(shared, b))[c] {
      JoiningKeepsCounts(shared, a, c);
      JoiningKeepsCounts(shared, b, c);
    }
    assert multiset(Joining(shared, a)) == multiset(Joining(shared, b));
    ClaimOrder();
    SortIgnoresArrangement(ClaimLe, Joining(shared, a), Joining(shared, b));
  }

  predicate RowLt(a: Row, b: Row) { RowLe(a, b) && a != b }

  lemma AscendingRowsAreUnique(a: seq<Row>, b: seq<Row>)
    requires forall i, j :: 0 <= i < j < |a| ==> RowLe(a[i], a[j]) && a[i] != a[j]
    requires forall i, j :: 0 <= i < j < |b| ==> RowLe(b[i], b[j]) && b[i] != b[j]
    requires forall row :: row in a <==> row in b
    ensures a == b
  {
    RowOrder();
    hide RowLe;
    AscendingIsUnique(RowLt, a, b);
  }

  /** The same claims in any order resolve to the same rows and the same counts. */
  lemma OrderOfEvidenceIsForgotten(a: seq<Claim>, b: seq<Claim>, said: Said, over: nat, r: Resolution, s: Resolution)
    requires multiset(a) == multiset(b)
    requires Resolves(a, said, over, r) && Resolves(b, said, over, s)
    ensures r == s
  {
    SameEdges(a, b, said, over);
    SameEvidence(a, b, over);
    hide Edges, Followed, RowLe, SharedOf, IsRow, AliasesOf, MembersOf, GroupsOk;
    var o, shared := Followed(Edges(a, said, over), said.different), SharedOf(a, over);
    SameRows(a, b, shared, o.groups);
    AscendingRowsAreUnique(r.rows, s.rows);
  }

  lemma SameRows(a: seq<Claim>, b: seq<Claim>, shared: set<Identifier>, p: Partition)
    requires GroupsOk(p) && forall c :: c in a <==> c in b
    ensures AliasesOf(a, shared, p) == AliasesOf(b, shared, p)
    ensures forall row :: IsRow(a, shared, p, row) <==> IsRow(b, shared, p, row)
  {
    hide IsStrong, EntityOf, MembersOf;
  }

  // ------------------------------------------------------ what the rows say

  /** Two members have one entity exactly when they are in one group. */
  lemma OneEntityIsOneGroup(evidence: seq<Claim>, said: Said, over: nat, r: Resolution, a: Row, b: Row)
    requires Resolves(evidence, said, over, r) && a in r.rows && b in r.rows && a.standing == b.standing == Member
    ensures var p := Followed(Edges(evidence, said, over), said.different).groups;
            a.identifier in p && b.identifier in p
            && (a.entity == b.entity <==> b.identifier in p[a.identifier])
  {
    var edges := Edges(evidence, said, over);
    GroupsArePartition(edges, said.different);
    hide Edges, Followed, NameLe, RowLe, IsPartition, IsName, SharedOf;
    var p := Followed(edges, said.different).groups;
    assert IsRow(evidence, SharedOf(evidence, over), p, a) && IsRow(evidence, SharedOf(evidence, over), p, b);
    NamesOfGroups(p, a.identifier, b.identifier);
  }

  /** Two groups have one name exactly when they are one group. */
  lemma NamesOfGroups(p: Partition, x: Identifier, y: Identifier)
    requires IsPartition(p) && x in p && y in p
    ensures NameOf(p[x]) == NameOf(p[y]) <==> y in p[x]
  {
    hide NameLe;
    var a, b := NameOf(p[x]), NameOf(p[y]);
    assert a in p[x] && b in p[y];
    assert p[a] == p[x] && p[b] == p[y];
    assert y in p[y];
  }

  /** Two identifiers that a person said are different are never members of one
      entity. */
  lemma DifferentHaveTwoEntities(evidence: seq<Claim>, said: Said, over: nat, r: Resolution, a: Row, b: Row)
    requires Resolves(evidence, said, over, r) && a in r.rows && b in r.rows && a.standing == b.standing == Member
    requires AreOfTwo(said.different) && (a.identifier, b.identifier) in said.different
    ensures a.entity != b.entity
  {
    OneEntityIsOneGroup(evidence, said, over, r, a, b);
    DifferentAreNeverTogether(Edges(evidence, said, over), said.different);
    GroupsArePartition(Edges(evidence, said, over), said.different);
    hide Edges, Followed, Resolves;
    var p := Followed(Edges(evidence, said, over), said.different).groups;
    assert a.identifier in p[a.identifier];
  }
}
