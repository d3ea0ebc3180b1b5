/** Resolving: the loops that follow the edges and write the rows. */
module Resolving {
  import opened Base
  import opened Ordering
  import opened Identifiers
  import opened Partitions
  import opened UnionFind
  import opened Resolutions
  import opened Provenance

  // ----------------------------------------------------------------- shared

  type Forms = map<Form, set<Identifier>>

  function At(partners: map<Identifier, Forms>, x: Identifier, form: Form): set<Identifier> {
    if x in partners && form in partners[x] then partners[x][form] else {}
  }

  function With(partners: map<Identifier, Forms>, x: Identifier, other: Identifier): map<Identifier, Forms> {
    if !IsStrong(other) then partners
    else
      var forms := if x in partners then partners[x] else map[];
      partners[x := forms[other.form := At(partners, x, other.form) + {other}]]
  }

  lemma WithOneMore(partners: map<Identifier, Forms>, x: Identifier, other: Identifier, y: Identifier, form: Form)
    ensures At(With(partners, x, other), y, form)
            == At(partners, y, form) + if x == y && IsStrong(other) && other.form == form then {other} else {}
  {
  }

  lemma PartnersOneMore(evidence: seq<Claim>, c: Claim, x: Identifier, form: Form)
    ensures Partners(evidence + [c], x, form)
            == Partners(evidence, x, form)
               + (if c.one == x && IsStrong(c.other) && c.other.form == form then {c.other} else {})
               + (if c.other == x && IsStrong(c.one) && c.one.form == form then {c.one} else {})
  {
    hide IsStrong;
    assert forall d :: d in evidence + [c] <==> d in evidence || d == c;
  }

  /** The identifiers claimed with too many. */
  method FindShared(evidence: seq<Claim>, over: nat) returns (shared: set<Identifier>)
    ensures shared == SharedOf(evidence, over)
  {
    hide IsStrong, Partners, With, At;
    var partners: map<Identifier, Forms> := map[];
    NoPartners(over);
    for i := 0 to |evidence|
      invariant forall x, form :: At(partners, x, form) == Partners(evidence[..i], x, form)
      invariant partners.Keys <= Claimed(evidence[..i])
    {
      var c := evidence[i];
      assert evidence[..i + 1] == evidence[..i] + [c];
      var first := With(partners, c.one, c.other);
      var second := With(first, c.other, c.one);
      forall x, form ensures At(second, x, form) == Partners(evidence[..i + 1], x, form) {
        WithOneMore(partners, c.one, c.other, x, form);
        WithOneMore(first, c.other, c.one, x, form);
        PartnersOneMore(evidence[..i], c, x, form);
      }
      WithKeys(partners, c.one, c.other);
      WithKeys(first, c.other, c.one);
      partners := second;
    }
    assert evidence[..|evidence|] == evidence;
    shared := set x | x in partners && exists form: Form :: |At(partners, x, form)| > over;
    forall x ensures x in shared <==> x in SharedOf(evidence, over) {
      NotHeld(partners, x);
    }
  }

  lemma NoPartners(over: nat)
    ensures forall x, form :: At(map[], x, form) == Partners([], x, form)
  {
  }

  lemma NotHeld(partners: map<Identifier, Forms>, x: Identifier)
    ensures x !in partners ==> forall form :: At(partners, x, form) == {}
  {
  }

  lemma WithKeys(partners: map<Identifier, Forms>, x: Identifier, other: Identifier)
    ensures With(partners, x, other).Keys <= partners.Keys + {x}
  {
  }

  // ------------------------------------------------------- following the edges

  /** The edges that join, in the order they are followed. */
  ghost predicate AreJoined(edges: seq<Pair>, different: set<Pair>, joined: seq<nat>) {
    && (forall i: nat :: i in joined <==> i < |edges| && JoinsAt(edges, different, i))
    && (forall m, n :: 0 <= m < n < |joined| ==> joined[m] < joined[n])
  }

  lemma JoinedOneMore(edges: seq<Pair>, different: set<Pair>, joined: seq<nat>, n: nat)
    requires n < |edges| && AreJoined(edges[..n], different, joined)
    ensures AreJoined(edges[..n + 1], different, if JoinsAt(edges, different, n) then joined + [n] else joined)
  {
    hide JoinsAt;
    forall i: nat | i <= n ensures JoinsAt(edges[..n + 1], different, i) == JoinsAt(edges, different, i) {
      JoinsEarlier(edges, different, n + 1, i);
    }
    forall i: nat | i < n ensures JoinsAt(edges[..n], different, i) == JoinsAt(edges, different, i) {
      JoinsEarlier(edges, different, n, i);
    }
    assert forall m :: 0 <= m < |joined| ==> joined[m] in joined;
  }

  /** The loop that joins the groups. */
  method FollowAll(edges: seq<Pair>, different: set<Pair>) returns (groups: Groups, heldApart: nat, joined: seq<nat>)
    ensures fresh(groups) && groups.Valid()
    ensures Outcome(groups.groups, heldApart) == Followed(edges, different)
    ensures AreJoined(edges, different, joined)
  {
    hide Joined, Known, Apart, AreJoined, Follow, Followed, JoinsAt;
    groups := new Groups();
    heldApart, joined := 0, [];
    NoneJoined(edges, different);
    for i := 0 to |edges|
      invariant fresh(groups) && groups.Valid()
      invariant Outcome(groups.groups, heldApart) == Followed(edges[..i], different)
      invariant AreJoined(edges[..i], different, joined)
    {
      FollowedOneMore(edges, different, i);
      JoinedOneMore(edges, different, joined, i);
      var joins;
      heldApart, joins := FollowOne(groups, edges[i], different, heldApart);
      if joins { joined := joined + [i]; }
    }
    assert edges[..|edges|] == edges;
  }

  lemma FollowedOneMore(edges: seq<Pair>, different: set<Pair>, i: nat)
    requires i < |edges|
    ensures Followed(edges[..i + 1], different) == Follow(Followed(edges[..i], different), edges[i], different)
    ensures var p := Known(Known(Followed(edges[..i], different).groups, edges[i].0), edges[i].1);
            JoinsAt(edges, different, i) <==>
                p[edges[i].0] != p[edges[i].1] && !Apart(p[edges[i].0], p[edges[i].1], different)
  {
    hide Follow, Known;
    assert edges[..i + 1][..i] == edges[..i];
  }

  lemma NoneJoined(edges: seq<Pair>, different: set<Pair>)
    ensures edges[..0] == [] && AreJoined(edges[..0], different, [])
    ensures Followed([], different) == Outcome(map[], 0)
  {
  }

  method FollowOne(groups: Groups, edge: Pair, different: set<Pair>, before: nat)
    returns (heldApart: nat, joins: bool)
    requires groups.Valid()
    modifies groups
    ensures groups.Valid()
    ensures var p := Known(Known(old(groups.groups), edge.0), edge.1);
            joins <==> p[edge.0] != p[edge.1] && !Apart(p[edge.0], p[edge.1], different)
    ensures Outcome(groups.groups, heldApart) == Follow(Outcome(old(groups.groups), before), edge, different)
  {
    hide IsForest, Joined, Apart;
    heldApart, joins := before, false;
    var one := groups.Of(edge.0);
    var other := groups.Of(edge.1);
    IsOfLength(groups.parent, groups.roots, groups.heights, groups.top, groups.index, groups.members);
    RootOf(groups.parent, groups.roots, groups.heights, groups.top, groups.index[edge.0]);
    RootOf(groups.parent, groups.roots, groups.heights, groups.top, groups.index[edge.1]);
    SameGroup(groups.index, groups.roots, groups.members, groups.groups, edge.0, edge.1);
    hide IsKept;
    if one != other {
      var apart := groups.IsApart(one, other, different);
      if apart {
        heldApart := heldApart + 1;
      } else {
        groups.Join(one, other);
        joins := true;
      }
    }
  }

  /** The first of the edges that joined and name an identifier, if there is
      one. */
  ghost predicate IsFirstOf(edges: seq<Edge>, joined: seq<nat>, brought: map<Identifier, nat>, x: Identifier)
    requires forall i :: i in joined ==> i < |edges|
  {
    if x in brought then
      brought[x] in joined && Names(edges[brought[x]].pair, x)
      && forall j :: j in joined && j < brought[x] ==> !Names(edges[j].pair, x)
    else forall j :: j in joined ==> !Names(edges[j].pair, x)
  }

  ghost predicate AreFirst(edges: seq<Edge>, joined: seq<nat>, brought: map<Identifier, nat>) {
    (forall i :: i in joined ==> i < |edges|) && forall x :: IsFirstOf(edges, joined, brought, x)
  }

  function WithFirst(brought: map<Identifier, nat>, x: Identifier, i: nat): map<Identifier, nat> {
    if x in brought then brought else brought[x := i]
  }

  lemma FirstOneMore(edges: seq<Edge>, joined: seq<nat>, brought: map<Identifier, nat>, i: nat)
    requires AreFirst(edges, joined, brought) && i < |edges| && forall j :: j in joined ==> j < i
    ensures AreFirst(edges, joined + [i], WithFirst(WithFirst(brought, edges[i].pair.0, i), edges[i].pair.1, i))
  {
    var more := WithFirst(WithFirst(brought, edges[i].pair.0, i), edges[i].pair.1, i);
    forall x ensures IsFirstOf(edges, joined + [i], more, x) {
      assert IsFirstOf(edges, joined, brought, x);
    }
  }

  method FindBrought(edges: seq<Edge>, joined: seq<nat>) returns (brought: map<Identifier, nat>)
    requires forall i :: i in joined ==> i < |edges|
    requires forall m, n :: 0 <= m < n < |joined| ==> joined[m] < joined[n]
    ensures AreFirst(edges, joined, brought)
  {
    hide IsFirstOf;
    brought := map[];
    assert AreFirst(edges, [], map[]) by { NoneIsFirst(edges); }
    hide AreFirst;
    assert joined[..0] == [];
    for n := 0 to |joined|
      invariant AreFirst(edges, joined[..n], brought)
    {
      assert joined[n] in joined && joined[..n + 1] == joined[..n] + [joined[n]];
      FirstOneMore(edges, joined[..n], brought, joined[n]);
      var pair := edges[joined[n]].pair;
      brought := WithFirst(brought, pair.0, joined[n]);
      brought := WithFirst(brought, pair.1, joined[n]);
    }
    assert joined[..|joined|] == joined;
  }

  lemma NoneIsFirst(edges: seq<Edge>)
    ensures forall x :: IsFirstOf(edges, [], map[], x)
  {
  }

  /** Two identifiers are in one group when they have one root. */
  lemma SameGroup(
      index: map<Identifier, nat>, roots: seq<nat>, members: seq<seq<Identifier>>, groups: Partition, x: Identifier,
      y: Identifier)
    requires IsKept(index, roots, members) && Means(index, roots, members, groups) && x in index && y in index
    ensures groups[x] == SetOf(members[roots[index[x]]]) && groups[y] == SetOf(members[roots[index[y]]])
    ensures groups[x] == groups[y] <==> roots[index[x]] == roots[index[y]]
  {
    assert x in members[roots[index[x]]] && x in groups[x];
  }

  // ------------------------------------------------------------------- names

  /** The first of the identifiers with the least rank and text. */
  method Least(ids: seq<Identifier>) returns (name: Identifier)
    requires ids != []
    ensures IsName(SetOf(ids), name)
  {
    hide NameLe;
    NameOrder();
    name := ids[0];
    for i := 1 to |ids|
      invariant name in ids && forall k :: 0 <= k < i ==> NameLe(name, ids[k])
    {
      if !NameLe(name, ids[i]) { name := ids[i]; }
    }
  }

  /** What a table of members, one row a place, says. */
  ghost predicate AreGroups(members: seq<seq<Identifier>>, p: Partition) {
    && GroupsOk(p)
    && (forall r :: 0 <= r < |members| ==> Distinct(members[r]))
    && (forall r :: 0 <= r < |members| && members[r] != [] ==> SetOf(members[r]) != {})
    && (forall r, x :: 0 <= r < |members| && x in members[r] ==> x in p && p[x] == SetOf(members[r]))
    && (forall r, s, x :: 0 <= r < s < |members| && x in members[r] ==> x !in members[s])
    && (forall x :: x in p ==> exists r :: 0 <= r < |members| && x in members[r])
  }

  lemma KeptAreGroups(index: map<Identifier, nat>, roots: seq<nat>, members: seq<seq<Identifier>>, groups: Partition)
    requires IsKept(index, roots, members) && Means(index, roots, members, groups)
    ensures AreGroups(members, groups)
  {
    forall x | x in groups ensures x in groups[x] && exists r :: 0 <= r < |members| && x in members[r] {
      SameGroup(index, roots, members, groups, x, x);
      assert x in members[roots[index[x]]];
    }
    forall r | 0 <= r < |members| && members[r] != [] ensures SetOf(members[r]) != {} {
      assert members[r][0] in SetOf(members[r]);
    }
    forall r, x | 0 <= r < |members| && x in members[r] ensures x in groups && groups[x] == SetOf(members[r]) {
      var n: nat := r;
      assert x in members[n];
    }
    forall r, s, x | 0 <= r < s < |members| && x in members[r] ensures x !in members[s] {
      var n: nat, m: nat := r, s;
      assert x in members[n] && (x in members[m] <==> roots[index[x]] == m);
    }
  }

  lemma {:induction false} DistinctCount(s: seq<Identifier>)
    requires Distinct(s)
    ensures |SetOf(s)| == |s|
  {
    if s != [] {
      DistinctCount(s[1..]);
      assert SetOf(s) == SetOf(s[1..]) + {s[0]};
      assert s[0] !in s[1..];
    }
  }

  ghost predicate OnceEach(rows: seq<Row>) { forall i, j :: 0 <= i < j < |rows| ==> rows[i] != rows[j] }

  lemma OnceEachOfBoth(a: seq<Row>, b: seq<Row>)
    requires OnceEach(a) && OnceEach(b) && forall row :: row in a ==> row !in b
    ensures OnceEach(a + b)
  {
    var all := a + b;
    forall i, j | 0 <= i < j < |all| ensures all[i] != all[j] {
      if i < |a| <= j { assert a[i] in a && b[j - |a|] in b; }
    }
  }

  ghost predicate AreAscending(rows: seq<Row>) {
    forall i, j :: 0 <= i < j < |rows| ==> RowLe(rows[i], rows[j]) && rows[i] != rows[j]
  }

  /** The rows of one group, of which there are as many as members. */
  method GroupRows(identifiers: seq<Identifier>, name: Identifier) returns (rows: seq<Row>)
    ensures |rows| == |identifiers|
    ensures forall i :: 0 <= i < |rows| ==> rows[i] == Row(identifiers[i], name, Member)
  {
    rows := [];
    for i := 0 to |identifiers|
      invariant |rows| == i && forall k :: 0 <= k < i ==> rows[k] == Row(identifiers[k], name, Member)
    {
      rows := rows + [Row(identifiers[i], name, Member)];
    }
  }

  ghost function MembersBefore(members: seq<seq<Identifier>>, r: nat): seq<Identifier>
    requires r <= |members|
  {
    if r == 0 then [] else MembersBefore(members, r - 1) + if |members[r - 1]| >= 2 then members[r - 1] else []
  }

  ghost function GroupsBefore(members: seq<seq<Identifier>>, r: nat): set<set<Identifier>> {
    set k | 0 <= k < r && k < |members| && |members[k]| >= 2 :: SetOf(members[k])
  }

  lemma {:induction false} MembersBeforeAre(members: seq<seq<Identifier>>, p: Partition, r: nat)
    requires AreGroups(members, p) && r <= |members|
    ensures Distinct(MembersBefore(members, r))
    ensures forall x :: x in MembersBefore(members, r) <==>
            exists k :: 0 <= k < r && x in members[k] && |members[k]| >= 2
  {
    if r > 0 {
      MembersBeforeAre(members, p, r - 1);
      var before, last := MembersBefore(members, r - 1), members[r - 1];
      assert forall x :: x in before ==> x !in last;
      Both(before, last);
    }
  }

  /** An identifier is a member exactly when its group has two and more. */
  lemma IsAmongMembers(members: seq<seq<Identifier>>, p: Partition, x: Identifier)
    requires AreGroups(members, p)
    ensures x in MembersOf(p) <==> exists k :: 0 <= k < |members| && x in members[k] && |members[k]| >= 2
  {
    if x in p {
      var r :| 0 <= r < |members| && x in members[r];
      DistinctCount(members[r]);
    }
  }

  lemma GroupsAreOfMembers(members: seq<seq<Identifier>>, p: Partition)
    requires AreGroups(members, p)
    ensures GroupsBefore(members, |members|) == set x | x in MembersOf(p) :: p[x]
  {
    var groups := set x | x in MembersOf(p) :: p[x];
    forall k | 0 <= k < |members| && |members[k]| >= 2 ensures SetOf(members[k]) in groups {
      IsAmongMembers(members, p, members[k][0]);
      assert members[k][0] in members[k];
    }
    forall x | x in MembersOf(p) ensures p[x] in GroupsBefore(members, |members|) {
      IsAmongMembers(members, p, x);
      var k :| 0 <= k < |members| && x in members[k] && |members[k]| >= 2;
    }
  }

  /** All the members are those of the groups of two and more. */
  lemma AllMembersAre(members: seq<seq<Identifier>>, p: Partition)
    requires AreGroups(members, p)
    ensures SetOf(MembersBefore(members, |members|)) == MembersOf(p)
    ensures |MembersBefore(members, |members|)| == |MembersOf(p)|
    ensures GroupsBefore(members, |members|) == set x | x in MembersOf(p) :: p[x]
  {
    var all := MembersBefore(members, |members|);
    MembersBeforeAre(members, p, |members|);
    GroupsAreOfMembers(members, p);
    hide AreGroups, MembersBefore, MembersOf, GroupsBefore;
    forall x ensures x in all <==> x in MembersOf(p) { IsAmongMembers(members, p, x); }
    DistinctCount(all);
  }

  /** No group comes twice. */
  lemma GroupIsNew(members: seq<seq<Identifier>>, p: Partition, r: nat)
    requires AreGroups(members, p) && r < |members| && |members[r]| >= 2
    ensures SetOf(members[r]) !in GroupsBefore(members, r)
  {
    var x := members[r][0];
    assert x in members[r] && x in SetOf(members[r]);
  }

  lemma OneGroupMore(members: seq<seq<Identifier>>, p: Partition, r: nat)
    requires AreGroups(members, p) && r < |members|
    ensures |GroupsBefore(members, r + 1)| == |GroupsBefore(members, r)| + if |members[r]| >= 2 then 1 else 0
  {
    hide AreGroups;
    var before, after := GroupsBefore(members, r), GroupsBefore(members, r + 1);
    if |members[r]| >= 2 {
      GroupIsNew(members, p, r);
      assert after == before + {SetOf(members[r])};
    } else {
      assert after == before;
    }
  }

  /** The rows of members, of the groups of two and more. */
  method MemberRows(members: seq<seq<Identifier>>, ghost p: Partition) returns (rows: seq<Row>, entities: nat)
    requires AreGroups(members, p) && GroupsOk(p)
    ensures |rows| == |MembersOf(p)| && entities == |set x | x in MembersOf(p) :: p[x]|
    ensures OnceEach(rows)
    ensures forall row :: row in rows <==>
              row.standing == Member && row.identifier in MembersOf(p) && row.entity == EntityOf(p, row.identifier)
  {
    hide AreGroups, MembersOf, EntityOf;
    rows, entities := [], 0;
    ghost var ids: seq<Identifier> := [];
    assert GroupsBefore(members, 0) == {};
    for r := 0 to |members|
      invariant ids == MembersBefore(members, r) && |rows| == |ids| && entities == |GroupsBefore(members, r)|
      invariant forall i :: 0 <= i < |ids| ==> ids[i] in p && rows[i] == Row(ids[i], EntityOf(p, ids[i]), Member)
    {
      OneGroupMore(members, p, r);
      if |members[r]| >= 2 {
        entities := entities + 1;
        var name := Least(members[r]);
        var more := GroupRows(members[r], name);
        forall i | 0 <= i < |more|
          ensures members[r][i] in p && more[i] == Row(members[r][i], EntityOf(p, members[r][i]), Member)
        {
          NamedAs(members, p, r, i, name);
        }
        rows, ids := rows + more, ids + members[r];
      }
    }
    AllMembersAre(members, p);
    MembersBeforeAre(members, p, |members|);
    RowsOfIds(p, ids, rows);
  }

  lemma NamedAs(members: seq<seq<Identifier>>, p: Partition, r: nat, i: nat, name: Identifier)
    requires AreGroups(members, p) && r < |members| && i < |members[r]| && IsName(SetOf(members[r]), name)
    ensures members[r][i] in p && EntityOf(p, members[r][i]) == name
  {
    var x := members[r][i];
    assert x in members[r];
    NameIsUnique(p[x], NameOf(p[x]), name);
  }

  lemma RowsOfIds(p: Partition, ids: seq<Identifier>, rows: seq<Row>)
    requires GroupsOk(p) && Distinct(ids) && SetOf(ids) == MembersOf(p) && |rows| == |ids|
    requires forall i :: 0 <= i < |ids| ==> rows[i] == Row(ids[i], EntityOf(p, ids[i]), Member)
    ensures OnceEach(rows)
    ensures forall row :: row in rows <==>
              row.standing == Member && row.identifier in MembersOf(p) && row.entity == EntityOf(p, row.identifier)
  {
    hide EntityOf, MembersOf;
    forall row: Row
      | row.standing == Member && row.identifier in MembersOf(p) && row.entity == EntityOf(p, row.identifier)
      ensures row in rows
    {
      assert row.identifier in ids;
      var i :| 0 <= i < |ids| && ids[i] == row.identifier;
      assert rows[i] == row;
    }
    forall row | row in rows
      ensures row.standing == Member && row.identifier in MembersOf(p) && row.entity == EntityOf(p, row.identifier)
    {
      var i :| 0 <= i < |rows| && rows[i] == row;
      assert ids[i] in SetOf(ids);
    }
  }

  // ----------------------------------------------------------------- aliases

  /** The lookup of a name at run time, which halves paths but changes no group. */
  method Entity(groups: Groups, x: Identifier) returns (entity: Identifier)
    requires groups.Valid() && GroupsOk(groups.groups)
    modifies groups`parent
    ensures groups.Valid() && entity == EntityOf(groups.groups, x)
  {
    hide IsForest, NameLe;
    var at := groups.Find(x);
    if at.None? { return x; }
    SameGroup(groups.index, groups.roots, groups.members, groups.groups, x, x);
    hide IsKept;
    entity := Least(groups.members[at.value]);
    NameIsUnique(groups.groups[x], NameOf(groups.groups[x]), entity);
  }

  /** The table of aliases is what `Attaching` says of every pair. */
  ghost predicate AreAliases(evidence: seq<Evidence>, shared: set<Identifier>, p: Partition, aliases: map<Pair, Why>)
    requires GroupsOk(p)
  {
    forall alias ::
      var attaching := Attaching(evidence, shared, p, alias);
      && (alias in aliases <==> attaching != [])
      && (attaching != [] ==> assert attaching[0] in attaching; aliases[alias] == AliasReason(shared, attaching))
  }

  lemma NoAliases(shared: set<Identifier>, p: Partition)
    requires GroupsOk(p)
    ensures AreAliases([], shared, p, map[])
  {
  }

  /** The aliases with one claim more: it attaches one alias or none. */
  function WithAlias(aliases: map<Pair, Why>, alias: Pair, strong: Identifier, e: Evidence): map<Pair, Why> {
    aliases[alias :=
      if alias in aliases then aliases[alias].(seen := AddedUp(aliases[alias].seen, SeenBy(e)))
      else Why(Some(strong), e.claim.rule, None, SeenBy(e))]
  }

  lemma OneAliasMore(
      evidence: seq<Evidence>, e: Evidence, shared: set<Identifier>, p: Partition, aliases: map<Pair, Why>)
    requires GroupsOk(p) && AreAliases(evidence, shared, p, aliases)
    ensures var attached := Attached(shared, e.claim);
            AreAliases(evidence + [e], shared, p,
                       if attached.None? then aliases
                       else WithAlias(aliases, (attached.value.0, EntityOf(p, attached.value.1)), attached.value.1, e))
  {
    hide EntityOf, IsStrong;
    var all, attached := evidence + [e], Attached(shared, e.claim);
    assert all[..|evidence|] == evidence;
    var more := if attached.None? then aliases
                else WithAlias(aliases, (attached.value.0, EntityOf(p, attached.value.1)), attached.value.1, e);
    forall alias
      ensures var attaching := Attaching(all, shared, p, alias);
              && (alias in more <==> attaching != [])
              && (attaching != [] ==> assert attaching[0] in attaching; more[alias] == AliasReason(shared, attaching))
    {
      var before := Attaching(evidence, shared, p, alias);
      if Attaches(shared, p, e.claim, alias) {
        assert Attaching(all, shared, p, alias) == before + [e];
        ReasonOneMore(shared, before, e);
      } else {
        assert Attaching(all, shared, p, alias) == before;
      }
    }
  }

  lemma ReasonOneMore(shared: set<Identifier>, attaching: seq<Evidence>, e: Evidence)
    requires forall x :: x in attaching + [e] ==> Attached(shared, x.claim).Some?
    ensures attaching != [] ==>
              assert attaching[0] in attaching + [e];
              AliasReason(shared, attaching + [e])
              == AliasReason(shared, attaching).(seen := AddedUp(TotalOf(attaching), SeenBy(e)))
    ensures attaching == [] ==>
              assert e in attaching + [e];
              AliasReason(shared, attaching + [e])
                  == Why(Some(Attached(shared, e.claim).value.1), e.claim.rule, None, SeenBy(e))
  {
    assert (attaching + [e])[..|attaching|] == attaching;
  }

  method FindAliases(evidence: seq<Evidence>, shared: set<Identifier>, groups: Groups) returns (aliases: map<Pair, Why>)
    requires groups.Valid() && GroupsOk(groups.groups)
    modifies groups`parent
    ensures groups.Valid() && AreAliases(evidence, shared, groups.groups, aliases)
  {
    hide IsForest, IsKept, Means, IsStrong, EntityOf, GroupsOk, AreAliases, WithAlias;
    aliases := map[];
    NoAliases(shared, groups.groups);
    assert evidence[..0] == [];
    for i := 0 to |evidence|
      invariant groups.Valid()
      invariant AreAliases(evidence[..i], shared, groups.groups, aliases)
    {
      var e := evidence[i];
      assert evidence[..i + 1] == evidence[..i] + [e];
      OneAliasMore(evidence[..i], e, shared, groups.groups, aliases);
      if !IsStrong(e.claim.one) && Joins(shared, e.claim.other) {
        var entity := Entity(groups, e.claim.other);
        aliases := WithAlias(aliases, (e.claim.one, entity), e.claim.other, e);
      } else if !IsStrong(e.claim.other) && Joins(shared, e.claim.one) {
        var entity := Entity(groups, e.claim.one);
        aliases := WithAlias(aliases, (e.claim.other, entity), e.claim.one, e);
      }
    }
    assert evidence[..|evidence|] == evidence;
  }

  lemma {:induction false} AttachingIs(evidence: seq<Evidence>, shared: set<Identifier>, p: Partition, alias: Pair)
    requires GroupsOk(p)
    ensures Attaching(evidence, shared, p, alias) != [] <==>
            exists e :: e in evidence && Attaches(shared, p, e.claim, alias)
  {
    hide Attaches;
    if evidence != [] {
      AttachingIs(evidence[..|evidence| - 1], shared, p, alias);
      assert evidence == evidence[..|evidence| - 1] + [evidence[|evidence| - 1]];
    }
  }

  /** The aliases found are those the claims make. */
  lemma AliasesAre(evidence: seq<Evidence>, shared: set<Identifier>, p: Partition, aliases: map<Pair, Why>)
    requires GroupsOk(p) && AreAliases(evidence, shared, p, aliases)
    ensures aliases.Keys == AliasesOf(ClaimsOf(evidence), shared, p)
  {
    hide EntityOf, IsStrong, Attaching, AliasReason;
    var claims := ClaimsOf(evidence);
    forall alias ensures alias in aliases <==> alias in AliasesOf(claims, shared, p) {
      AttachingIs(evidence, shared, p, alias);
      if alias in AliasesOf(claims, shared, p) {
        var c :| c in claims && Attaches(shared, p, c, alias);
        var i :| 0 <= i < |claims| && claims[i] == c;
        assert evidence[i] in evidence;
      }
      if e :| e in evidence && Attaches(shared, p, e.claim, alias) {
        var i :| 0 <= i < |evidence| && evidence[i] == e;
        assert claims[i] == e.claim && e.claim in claims;
      }
    }
  }

  // ------------------------------------------------------------------ the rows

  method SharedRows(shared: set<Identifier>) returns (rows: seq<Row>)
    ensures forall row :: row in rows <==>
            row.standing == Shared && row.identifier in shared && row.entity == row.identifier
    ensures OnceEach(rows)
  {
    var left := shared;
    rows := [];
    while left != {}
      invariant left <= shared
      invariant forall row :: row in rows <==>
        row.standing == Shared && row.identifier in shared && row.identifier !in left && row.entity == row.identifier
      invariant OnceEach(rows)
    {
      var x :| x in left;
      assert Row(x, x, Shared) !in rows;
      rows, left := rows + [Row(x, x, Shared)], left - {x};
    }
  }

  method AliasRows(aliases: set<(Identifier, Identifier)>) returns (rows: seq<Row>)
    ensures forall row :: row in rows <==> row.standing == Alias && (row.identifier, row.entity) in aliases
    ensures OnceEach(rows)
  {
    var left := aliases;
    rows := [];
    while left != {}
      invariant left <= aliases
      invariant forall row :: row in rows <==>
        row.standing == Alias && (row.identifier, row.entity) in aliases && (row.identifier, row.entity) !in left
      invariant OnceEach(rows)
    {
      var alias :| alias in left;
      assert Row(alias.0, alias.1, Alias) !in rows;
      rows, left := rows + [Row(alias.0, alias.1, Alias)], left - {alias};
    }
  }

  lemma {:induction false} OnceInMultiset(s: seq<Row>)
    requires OnceEach(s)
    ensures forall row :: multiset(s)[row] <= 1
  {
    if s != [] {
      OnceInMultiset(s[1..]);
      assert s == [s[0]] + s[1..];
      assert s[0] !in s[1..];
    }
  }

  lemma TwiceInMultiset(s: seq<Row>, i: nat, j: nat)
    requires i < j < |s| && s[i] == s[j]
    ensures multiset(s)[s[i]] >= 2
  {
    assert s == s[..j] + [s[j]] + s[j + 1..];
    assert s[i] in s[..j];
  }

  /** Sorted rows, of which none was there twice, ascend. */
  lemma SortedAscend(rows: seq<Row>)
    requires OnceEach(rows)
    ensures var sorted := Sort(RowLe, rows);
            && (forall row :: row in sorted <==> row in rows)
            && AreAscending(sorted)
  {
    hide RowLe;
    RowOrder();
    SortSorts(RowLe, rows);
    var sorted := Sort(RowLe, rows);
    hide Sort;
    forall row ensures row in sorted <==> row in rows { assert row in multiset(sorted) <==> row in multiset(rows); }
    OnceInMultiset(rows);
    forall i, j | 0 <= i < j < |sorted| ensures RowLe(sorted[i], sorted[j]) && sorted[i] != sorted[j] {
      if sorted[i] == sorted[j] {
        TwiceInMultiset(sorted, i, j);
        assert false;
      }
    }
  }

  // ------------------------------------------------------ why each row is there

  /** Of each row, what brought it in. */
  method Reasons(rows: seq<Row>, edges: seq<Edge>, brought: map<Identifier, nat>, aliases: map<Pair, Why>)
    returns (whys: seq<Why>)
    requires forall x :: x in brought ==> brought[x] < |edges|
    ensures |whys| == |rows|
    ensures forall i :: 0 <= i < |rows| ==> whys[i] == ReasonOf(rows[i], edges, brought, aliases)
  {
    whys := [];
    for i := 0 to |rows|
      invariant |whys| == i && forall k :: 0 <= k < i ==> whys[k] == ReasonOf(rows[k], edges, brought, aliases)
    {
      whys := whys + [ReasonOf(rows[i], edges, brought, aliases)];
    }
  }

  function ReasonOf(row: Row, edges: seq<Edge>, brought: map<Identifier, nat>, aliases: map<Pair, Why>): Why
    requires forall x :: x in brought ==> brought[x] < |edges|
  {
    var x := row.identifier;
    if row.standing == Member && x != row.entity && x in brought then EdgeWhy(edges[brought[x]], x)
    else if row.standing == Alias && (x, row.entity) in aliases then aliases[(x, row.entity)]
    else OWN
  }

  /** The first edge that joined and names a member is found. */
  lemma BroughtIs(
      edges: seq<Edge>, different: set<Pair>, joined: seq<nat>, brought: map<Identifier, nat>, x: Identifier)
    requires AreJoined(PairsIn(edges), different, joined) && AreFirst(edges, joined, brought)
    requires x in MembersOf(Followed(PairsIn(edges), different).groups)
    ensures x in brought && IsBrought(PairsIn(edges), different, x, brought[x])
  {
    hide JoinsAt, Followed, Names;
    var pairs := PairsIn(edges);
    assert Followed(pairs, different).groups[x] != {x};
    MembersAreBrought(pairs, different, x);
    var i: nat :| IsBrought(pairs, different, x, i);
    assert i in joined && Names(edges[i].pair, x);
    assert IsFirstOf(edges, joined, brought, x);
  }

  lemma RowsAreExplained(
      evidence: seq<Evidence>, said: Said, over: nat, rows: seq<Row>, whys: seq<Why>, joined: seq<nat>,
      brought: map<Identifier, nat>, aliases: map<Pair, Why>)
    requires var edges, claims := EdgesTold(evidence, said, over), ClaimsOf(evidence);
             var p := Followed(Edges(claims, said, over), said.different).groups;
             && GroupsOk(p) && AreJoined(PairsIn(edges), said.different, joined) && AreFirst(edges, joined, brought)
             && AreAliases(evidence, SharedOf(claims, over), p, aliases)
             && (forall row :: row in rows ==> IsRow(claims, SharedOf(claims, over), p, row))
             && (forall x :: x in brought ==> brought[x] < |edges|)
             && |whys| == |rows| && forall i :: 0 <= i < |rows| ==>
                 whys[i] == ReasonOf(rows[i], edges, brought, aliases)
    ensures Explains(evidence, said, over, rows, whys)
  {
    hide EdgesTold, SharedOf, Edges, Followed, AreJoined, AreFirst, AreAliases, ReasonOf, IsRow, IsWhy;
    forall i | 0 <= i < |rows| ensures IsWhy(evidence, said, over, rows[i], whys[i]) {
      assert rows[i] in rows;
      RowIsExplained(evidence, said, over, rows[i], whys[i], joined, brought, aliases);
    }
  }

  lemma RowIsExplained(
      evidence: seq<Evidence>, said: Said, over: nat, row: Row, why: Why, joined: seq<nat>,
      brought: map<Identifier, nat>, aliases: map<Pair, Why>)
    requires var edges, claims := EdgesTold(evidence, said, over), ClaimsOf(evidence);
             var p := Followed(Edges(claims, said, over), said.different).groups;
             && GroupsOk(p) && AreJoined(PairsIn(edges), said.different, joined) && AreFirst(edges, joined, brought)
             && AreAliases(evidence, SharedOf(claims, over), p, aliases)
             && IsRow(claims, SharedOf(claims, over), p, row)
             && (forall x :: x in brought ==> brought[x] < |edges|)
             && why == ReasonOf(row, edges, brought, aliases)
    ensures IsWhy(evidence, said, over, row, why)
  {
    ToldAreEdges(evidence, said, over);
    var edges := EdgesTold(evidence, said, over);
    hide EdgesTold, SharedOf, Edges, Followed, AreJoined, AreFirst, IsBrought, Attaching, AliasReason, MembersOf;
    if row.standing == Member && row.identifier != row.entity {
      BroughtIs(edges, said.different, joined, brought, row.identifier);
    } else if row.standing == Alias {
      var p := Followed(Edges(ClaimsOf(evidence), said, over), said.different).groups;
      AliasesAre(evidence, SharedOf(ClaimsOf(evidence), over), p, aliases);
    }
  }

  /** All loops together: the rows and the counts are those of the specification,
      and every row is explained. */
  method Resolve(evidence: seq<Evidence>, said: Said, over: nat) returns (r: Resolution, whys: seq<Why>)
    ensures Resolves(ClaimsOf(evidence), said, over, r)
    ensures Explains(evidence, said, over, r.rows, whys)
  {
    hide *;
    ghost var claims := ClaimsOf(evidence);
    var shared := FindShared(ClaimsOf(evidence), over);
    var edges := EdgesTold(evidence, said, over);
    ToldAreEdges(evidence, said, over);
    var groups, heldApart, joined := FollowAll(PairsIn(edges), said.different);
    JoinedAreEdges(edges, said.different, joined);
    var brought := FindBrought(edges, joined);
    ghost var p := groups.groups;
    assert groups.Valid();
    ValidAreGroups(groups);
    var memberRows, entities := MemberRows(groups.members, p);
    var sharedRows := SharedRows(shared);
    var aliases := FindAliases(evidence, shared, groups);
    AliasesAre(evidence, shared, p, aliases);
    var aliasRows := AliasRows(aliases.Keys);
    var rows := memberRows + sharedRows + aliasRows;
    AllRows(claims, shared, p, memberRows, sharedRows, aliasRows);
    SortedAscend(rows);
    r := Resolution(Sort(RowLe, rows), Summary(entities, |memberRows|, |aliases.Keys|, |shared|, heldApart));
    FirstAreEdges(edges, joined, brought);
    whys := Reasons(r.rows, edges, brought, aliases);
    ResolvesWith(claims, said, over, Outcome(p, heldApart), r);
    RowsAreExplained(evidence, said, over, r.rows, whys, joined, brought, aliases);
  }

  lemma JoinedAreEdges(edges: seq<Edge>, different: set<Pair>, joined: seq<nat>)
    requires AreJoined(PairsIn(edges), different, joined)
    ensures forall i :: i in joined ==> i < |edges|
    ensures forall m, n :: 0 <= m < n < |joined| ==> joined[m] < joined[n]
  {
  }

  lemma FirstAreEdges(edges: seq<Edge>, joined: seq<nat>, brought: map<Identifier, nat>)
    requires AreFirst(edges, joined, brought)
    ensures forall x :: x in brought ==> brought[x] < |edges|
  {
    forall x | x in brought ensures brought[x] < |edges| { assert IsFirstOf(edges, joined, brought, x); }
  }

  lemma ValidAreGroups(groups: Groups)
    requires groups.Valid()
    ensures AreGroups(groups.members, groups.groups) && GroupsOk(groups.groups)
  {
    hide IsForest, IsKept, Means;
    KeptAreGroups(groups.index, groups.roots, groups.members, groups.groups);
  }

  lemma AllRows(
      evidence: seq<Claim>, shared: set<Identifier>, p: Partition, memberRows: seq<Row>, sharedRows: seq<Row>,
      aliasRows: seq<Row>)
    requires GroupsOk(p)
    requires forall row :: row in memberRows <==>
               row.standing == Member && row.identifier in MembersOf(p) && row.entity == EntityOf(p, row.identifier)
    requires forall row :: row in sharedRows <==>
             row.standing == Shared && row.identifier in shared && row.entity == row.identifier
    requires forall row :: row in aliasRows <==>
               row.standing == Alias && (row.identifier, row.entity) in AliasesOf(evidence, shared, p)
    requires OnceEach(memberRows)
    requires OnceEach(sharedRows)
    requires OnceEach(aliasRows)
    ensures var rows := memberRows + sharedRows + aliasRows;
            && (forall row :: row in rows <==> IsRow(evidence, shared, p, row))
            && OnceEach(rows)
  {
    hide MembersOf, EntityOf, AliasesOf;
    OnceEachOfBoth(memberRows, sharedRows);
    OnceEachOfBoth(memberRows + sharedRows, aliasRows);
  }

  lemma ResolvesWith(evidence: seq<Claim>, said: Said, over: nat, o: Outcome, r: Resolution)
    requires o == Followed(Edges(evidence, said, over), said.different) && GroupsOk(o.groups)
    requires AreAscending(r.rows)
    requires forall row :: row in r.rows <==> IsRow(evidence, SharedOf(evidence, over), o.groups, row)
    requires r.summary == Summary(
                            |set x | x in MembersOf(o.groups) :: o.groups[x]|, |MembersOf(o.groups)|,
                            |AliasesOf(evidence, SharedOf(evidence, over), o.groups)|, |SharedOf(evidence, over)|,
                                o.heldApart)
    ensures Resolves(evidence, said, over, r)
  {
    hide RowLe, IsRow, Edges, Followed, SharedOf, AliasesOf, MembersOf;
  }
}
