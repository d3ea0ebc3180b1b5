/** What joining identifiers along edges makes of them, whatever structure keeps
    the groups. */
module Partitions {
  import opened Identifiers

  type Pair = (Identifier, Identifier)

  /** Each identifier seen, and the group it is in. */
  type Partition = map<Identifier, set<Identifier>>

  ghost predicate IsPartition(p: Partition) {
    && (forall x :: x in p ==> x in p[x])
    && (forall x, y :: x in p && y in p[x] ==> y in p && p[y] == p[x])
  }

  /** The partition with a singleton for an identifier that it did not have. */
  function Known(p: Partition, x: Identifier): Partition { if x in p then p else p[x := {x}] }

  /** A pair of `different` has one end in each of two groups. */
  predicate Apart(a: set<Identifier>, b: set<Identifier>, different: set<Pair>) {
    exists pair :: pair in different && ((pair.0 in a && pair.1 in b) || (pair.0 in b && pair.1 in a))
  }

  /** Two groups made one. */
  function Joined(p: Partition, a: set<Identifier>, b: set<Identifier>): Partition {
    map x | x in p :: if x in a + b then a + b else p[x]
  }

  /** The groups, and the edges held apart. */
  datatype Outcome = Outcome(groups: Partition, heldApart: nat)

  function Follow(o: Outcome, edge: Pair, different: set<Pair>): Outcome {
    var p := Known(Known(o.groups, edge.0), edge.1);
    if p[edge.0] == p[edge.1] then o.(groups := p)
    else if Apart(p[edge.0], p[edge.1], different) then Outcome(p, o.heldApart + 1)
    else o.(groups := Joined(p, p[edge.0], p[edge.1]))
  }

  /** The edges followed in turn. */
  function Followed(edges: seq<Pair>, different: set<Pair>): Outcome {
    if edges == [] then Outcome(map[], 0)
    else Follow(Followed(edges[..|edges| - 1], different), edges[|edges| - 1], different)
  }

  /** The groups an edge finds, its ends among them. */
  function Before(edges: seq<Pair>, different: set<Pair>, i: nat): Partition
    requires i < |edges|
  {
    Known(Known(Followed(edges[..i], different).groups, edges[i].0), edges[i].1)
  }

  /** An edge joins two groups. */
  predicate JoinsAt(edges: seq<Pair>, different: set<Pair>, i: nat)
    requires i < |edges|
  {
    var p := Before(edges, different, i);
    p[edges[i].0] != p[edges[i].1] && !Apart(p[edges[i].0], p[edges[i].1], different)
  }

  predicate Names(edge: Pair, x: Identifier) { edge.0 == x || edge.1 == x }

  /** The first edge that joins and names an identifier. */
  ghost predicate IsBrought(edges: seq<Pair>, different: set<Pair>, x: Identifier, i: nat) {
    && i < |edges| && JoinsAt(edges, different, i) && Names(edges[i], x)
    && forall j: nat :: j < i && Names(edges[j], x) ==> !JoinsAt(edges, different, j)
  }

  // --------------------------------------------------------- what groups are

  lemma KnownIsPartition(p: Partition, x: Identifier)
    requires IsPartition(p)
    ensures IsPartition(Known(p, x)) && x in Known(p, x)
  {
  }

  lemma JoinedIsPartition(p: Partition, x: Identifier, y: Identifier)
    requires IsPartition(p) && x in p && y in p
    ensures IsPartition(Joined(p, p[x], p[y]))
  {
  }

  lemma FollowKeeps(o: Outcome, edge: Pair, different: set<Pair>)
    requires IsPartition(o.groups)
    ensures IsPartition(Follow(o, edge, different).groups)
    ensures Follow(o, edge, different).groups.Keys == o.groups.Keys + {edge.0, edge.1}
  {
    KnownIsPartition(o.groups, edge.0);
    KnownIsPartition(Known(o.groups, edge.0), edge.1);
    var p := Known(Known(o.groups, edge.0), edge.1);
    JoinedIsPartition(p, edge.0, edge.1);
  }

  lemma {:induction false} GroupsArePartition(edges: seq<Pair>, different: set<Pair>)
    ensures IsPartition(Followed(edges, different).groups)
    ensures forall x :: x in Followed(edges, different).groups <==>
            exists i :: 0 <= i < |edges| && (edges[i].0 == x || edges[i].1 == x)
  {
    if edges != [] {
      var rest := edges[..|edges| - 1];
      GroupsArePartition(rest, different);
      FollowKeeps(Followed(rest, different), edges[|edges| - 1], different);
      hide Follow, IsPartition;
      forall x
        ensures x in Followed(edges, different).groups <==>
                exists i :: 0 <= i < |edges| && (edges[i].0 == x || edges[i].1 == x)
      {
        if i :| 0 <= i < |edges| && (edges[i].0 == x || edges[i].1 == x) {
          if i < |rest| { assert rest[i] == edges[i]; }
        }
        if x in Followed(edges, different).groups && x in Followed(rest, different).groups {
          var i :| 0 <= i < |rest| && (rest[i].0 == x || rest[i].1 == x);
          assert edges[i] == rest[i];
        }
      }
    }
  }

  // -------------------------------------------------------- what brought it in

  lemma JoinsEarlier(edges: seq<Pair>, different: set<Pair>, n: nat, i: nat)
    requires i < n <= |edges|
    ensures JoinsAt(edges[..n], different, i) == JoinsAt(edges, different, i)
  {
    assert edges[..n][..i] == edges[..i] && edges[..n][i] == edges[i];
  }

  /** Whatever is in a group with another was named by an edge that joined. */
  lemma {:induction false} MembersWereJoined(edges: seq<Pair>, different: set<Pair>, x: Identifier)
    requires x in Followed(edges, different).groups && Followed(edges, different).groups[x] != {x}
    ensures exists i: nat :: i < |edges| && Names(edges[i], x) && JoinsAt(edges, different, i)
  {
    var n := |edges| - 1;
    var rest := edges[..n];
    GroupsArePartition(rest, different);
    var o := Followed(rest, different);
    if x in o.groups && o.groups[x] != {x} {
      MembersWereJoined(rest, different, x);
      var i: nat :| i < |rest| && Names(rest[i], x) && JoinsAt(rest, different, i);
      JoinsEarlier(edges, different, n, i);
      assert edges[i] == rest[i];
    } else {
      AloneUntilNamed(o, edges[n], different, x);
      assert edges[..n] == rest;
    }
  }

  lemma AloneUntilNamed(o: Outcome, edge: Pair, different: set<Pair>, x: Identifier)
    requires IsPartition(o.groups) && (x in o.groups ==> o.groups[x] == {x})
    requires x in Follow(o, edge, different).groups && Follow(o, edge, different).groups[x] != {x}
    ensures var p := Known(Known(o.groups, edge.0), edge.1);
            Names(edge, x) && p[edge.0] != p[edge.1] && !Apart(p[edge.0], p[edge.1], different)
  {
    KnownIsPartition(o.groups, edge.0);
    KnownIsPartition(Known(o.groups, edge.0), edge.1);
    var p := Known(Known(o.groups, edge.0), edge.1);
    assert x in p && p[x] == {x};
    if p[edge.0] != p[edge.1] && !Apart(p[edge.0], p[edge.1], different) {
      assert x in p[edge.0] + p[edge.1];
      if x in p[edge.0] { assert p[edge.0] == {x}; } else { assert p[edge.1] == {x}; }
    }
  }

  lemma {:induction false} FirstIsBrought(edges: seq<Pair>, different: set<Pair>, x: Identifier, n: nat)
    requires n < |edges| && Names(edges[n], x) && JoinsAt(edges, different, n)
    ensures exists i :: IsBrought(edges, different, x, i)
  {
    if j: nat :| j < n && Names(edges[j], x) && JoinsAt(edges, different, j) {
      FirstIsBrought(edges, different, x, j);
    } else {
      assert IsBrought(edges, different, x, n);
    }
  }

  /** Whatever is in a group with another was brought in by some edge. */
  lemma MembersAreBrought(edges: seq<Pair>, different: set<Pair>, x: Identifier)
    requires x in Followed(edges, different).groups && Followed(edges, different).groups[x] != {x}
    ensures exists i :: IsBrought(edges, different, x, i)
  {
    MembersWereJoined(edges, different, x);
    hide Followed, JoinsAt;
    var n: nat :| n < |edges| && Names(edges[n], x) && JoinsAt(edges, different, n);
    FirstIsBrought(edges, different, x, n);
  }

  // ------------------------------------------------------------ held apart

  ghost predicate NoneTogether(p: Partition, different: set<Pair>) {
    forall pair, x :: pair in different && x in p ==> !(pair.0 in p[x] && pair.1 in p[x])
  }

  /** Two identifiers that a person said are different. */
  ghost predicate AreOfTwo(different: set<Pair>) { forall pair :: pair in different ==> pair.0 != pair.1 }

  lemma FollowKeepsApart(o: Outcome, edge: Pair, different: set<Pair>)
    requires IsPartition(o.groups) && NoneTogether(o.groups, different) && AreOfTwo(different)
    ensures NoneTogether(Follow(o, edge, different).groups, different)
  {
    KnownIsPartition(o.groups, edge.0);
    KnownIsPartition(Known(o.groups, edge.0), edge.1);
    var p := Known(Known(o.groups, edge.0), edge.1);
    assert NoneTogether(p, different);
    var a, b := p[edge.0], p[edge.1];
    if a != b && !Apart(a, b, different) {
      forall pair, x | pair in different && x in p && x in a + b
        ensures !(pair.0 in a + b && pair.1 in a + b)
      {
        assert !(pair.0 in a && pair.1 in a) && !(pair.0 in b && pair.1 in b);
      }
    }
  }

  /** No group holds both of a pair said to be different. */
  lemma {:induction false} DifferentAreNeverTogether(edges: seq<Pair>, different: set<Pair>)
    requires AreOfTwo(different)
    ensures NoneTogether(Followed(edges, different).groups, different)
  {
    if edges != [] {
      var rest := edges[..|edges| - 1];
      DifferentAreNeverTogether(rest, different);
      GroupsArePartition(rest, different);
      FollowKeepsApart(Followed(rest, different), edges[|edges| - 1], different);
    }
  }

  /** The ends of an edge are in one group, or in two that a pair holds apart. */
  predicate IsSettled(p: Partition, edge: Pair, different: set<Pair>) {
    edge.0 in p && edge.1 in p && (p[edge.0] == p[edge.1] || Apart(p[edge.0], p[edge.1], different))
  }

  lemma FollowGrows(o: Outcome, edge: Pair, different: set<Pair>, x: Identifier)
    requires IsPartition(o.groups) && x in o.groups
    ensures x in Follow(o, edge, different).groups && o.groups[x] <= Follow(o, edge, different).groups[x]
  {
    KnownIsPartition(o.groups, edge.0);
    KnownIsPartition(Known(o.groups, edge.0), edge.1);
  }

  lemma StaysSettled(o: Outcome, edge: Pair, different: set<Pair>, earlier: Pair)
    requires IsPartition(o.groups) && IsSettled(o.groups, earlier, different)
    ensures IsSettled(Follow(o, edge, different).groups, earlier, different)
  {
    FollowGrows(o, edge, different, earlier.0);
    FollowGrows(o, edge, different, earlier.1);
    FollowKeeps(o, edge, different);
    hide Follow;
    var q := Follow(o, edge, different).groups;
    if o.groups[earlier.0] == o.groups[earlier.1] {
      assert earlier.1 in q[earlier.0];
    } else {
      var pair :| pair in different && ((pair.0 in o.groups[earlier.0] && pair.1 in o.groups[earlier.1])
                                        || (pair.0 in o.groups[earlier.1] && pair.1 in o.groups[earlier.0]));
      assert Apart(q[earlier.0], q[earlier.1], different);
    }
  }

  lemma JustSettled(o: Outcome, edge: Pair, different: set<Pair>)
    requires IsPartition(o.groups)
    ensures IsSettled(Follow(o, edge, different).groups, edge, different)
  {
    KnownIsPartition(o.groups, edge.0);
    KnownIsPartition(Known(o.groups, edge.0), edge.1);
  }

  /** Every edge left between two groups has a pair that holds them apart. */
  lemma {:induction false} EveryEdgeIsSettled(edges: seq<Pair>, different: set<Pair>, i: nat)
    requires i < |edges|
    ensures IsSettled(Followed(edges, different).groups, edges[i], different)
  {
    var rest := edges[..|edges| - 1];
    GroupsArePartition(rest, different);
    if i == |edges| - 1 {
      JustSettled(Followed(rest, different), edges[i], different);
    } else {
      EveryEdgeIsSettled(rest, different, i);
      StaysSettled(Followed(rest, different), edges[|edges| - 1], different, edges[i]);
    }
  }

  // ------------------------------------------------------------- components

  /** No edge leads out of `s`, or into it. */
  ghost predicate IsClosed(s: set<Identifier>, edges: seq<Pair>) {
    forall i :: 0 <= i < |edges| ==> (edges[i].0 in s <==> edges[i].1 in s)
  }

  /** Connected: in every closed set of the other. */
  ghost predicate AreConnected(edges: seq<Pair>, x: Identifier, y: Identifier) {
    forall s: set<Identifier> :: IsClosed(s, edges) && x in s ==> y in s
  }

  lemma FollowWithin(o: Outcome, edge: Pair, different: set<Pair>, s: set<Identifier>)
    requires IsPartition(o.groups) && forall x :: x in o.groups && x in s ==> o.groups[x] <= s
    requires edge.0 in s <==> edge.1 in s
    ensures forall x :: x in Follow(o, edge, different).groups && x in s ==> Follow(o, edge, different).groups[x] <= s
  {
    KnownIsPartition(o.groups, edge.0);
    KnownIsPartition(Known(o.groups, edge.0), edge.1);
  }

  /** A group stays within every closed set that meets it. */
  lemma {:induction false} AllStayWithin(edges: seq<Pair>, different: set<Pair>, s: set<Identifier>)
    requires IsClosed(s, edges)
    ensures forall x :: x in Followed(edges, different).groups && x in s ==> Followed(edges, different).groups[x] <= s
  {
    if edges != [] {
      var rest := edges[..|edges| - 1];
      assert forall i :: 0 <= i < |rest| ==> rest[i] == edges[i];
      AllStayWithin(rest, different, s);
      GroupsArePartition(rest, different);
      FollowWithin(Followed(rest, different), edges[|edges| - 1], different, s);
    }
  }

  /** Identifiers of one group are connected. */
  lemma TogetherAreConnected(edges: seq<Pair>, different: set<Pair>, x: Identifier, y: Identifier)
    requires x in Followed(edges, different).groups && y in Followed(edges, different).groups[x]
    ensures AreConnected(edges, x, y) && AreConnected(edges, y, x)
  {
    GroupsArePartition(edges, different);
    forall s: set<Identifier> | IsClosed(s, edges) && x in s ensures y in s { AllStayWithin(edges, different, s); }
    forall s: set<Identifier> | IsClosed(s, edges) && y in s ensures x in s { AllStayWithin(edges, different, s); }
  }

  lemma ConnectedOn(edges: seq<Pair>, x: Identifier, y: Identifier, z: Identifier)
    requires AreConnected(edges, x, y) && AreConnected(edges, y, z)
    ensures AreConnected(edges, x, z)
  {
  }

  /** Some pair said to be different is connected. */
  ghost predicate Conflict(edges: seq<Pair>, different: set<Pair>) {
    exists pair :: pair in different && (AreConnected(edges, pair.0, pair.1) || AreConnected(edges, pair.1, pair.0))
                   && (exists i :: 0 <= i < |edges| && (edges[i].0 == pair.0 || edges[i].1 == pair.0))
                   && (exists i :: 0 <= i < |edges| && (edges[i].0 == pair.1 || edges[i].1 == pair.1))
  }

  /** The groups are the connected components of the edges. */
  ghost predicate AreComponents(edges: seq<Pair>, groups: Partition) {
    forall x, y :: x in groups ==> (y in groups[x] <==> AreConnected(edges, x, y))
  }

  lemma GroupIsClosed(edges: seq<Pair>, different: set<Pair>, x: Identifier)
    requires x in Followed(edges, different).groups
    requires forall i :: 0 <= i < |edges| ==>
               var p := Followed(edges, different).groups;
               edges[i].0 in p && edges[i].1 in p && p[edges[i].0] == p[edges[i].1]
    ensures IsClosed(Followed(edges, different).groups[x], edges)
  {
    GroupsArePartition(edges, different);
  }

  /** The groups are the connected components exactly when no pair said to be
      different is connected; so always when there is none. */
  lemma ComponentsExactlyWithoutConflict(edges: seq<Pair>, different: set<Pair>)
    requires AreOfTwo(different)
    ensures AreComponents(edges, Followed(edges, different).groups) <==> !Conflict(edges, different)
    ensures different == {} ==> AreComponents(edges, Followed(edges, different).groups)
  {
    hide Followed, AreConnected;
    GroupsArePartition(edges, different);
    if !Conflict(edges, different) { NoConflictMeansComponents(edges, different); }
    if Conflict(edges, different) && AreComponents(edges, Followed(edges, different).groups) {
      ConflictMeansNone(edges, different);
    }
  }

  lemma ConflictMeansNone(edges: seq<Pair>, different: set<Pair>)
    requires AreOfTwo(different) && Conflict(edges, different)
    ensures !AreComponents(edges, Followed(edges, different).groups)
  {
    hide AreConnected, Followed;
    GroupsArePartition(edges, different);
    DifferentAreNeverTogether(edges, different);
    var p := Followed(edges, different).groups;
    var pair :| pair in different && (AreConnected(edges, pair.0, pair.1) || AreConnected(edges, pair.1, pair.0))
                && (exists i :: 0 <= i < |edges| && (edges[i].0 == pair.0 || edges[i].1 == pair.0))
                && (exists i :: 0 <= i < |edges| && (edges[i].0 == pair.1 || edges[i].1 == pair.1));
    assert pair.0 in p && pair.1 in p;
    if AreConnected(edges, pair.0, pair.1) {
      assert pair.1 !in p[pair.0];
    } else {
      assert pair.0 !in p[pair.1];
    }
  }

  lemma NoConflictMeansComponents(edges: seq<Pair>, different: set<Pair>)
    requires AreOfTwo(different) && !Conflict(edges, different)
    ensures AreComponents(edges, Followed(edges, different).groups)
  {
    GroupsArePartition(edges, different);
    var p := Followed(edges, different).groups;
    forall i | 0 <= i < |edges| ensures edges[i].0 in p && edges[i].1 in p && p[edges[i].0] == p[edges[i].1] {
      EveryEdgeIsSettled(edges, different, i);
      if p[edges[i].0] != p[edges[i].1] { HeldApartIsConflict(edges, different, i); }
    }
    forall x, y | x in p ensures y in p[x] <==> AreConnected(edges, x, y) {
      if y in p[x] {
        TogetherAreConnected(edges, different, x, y);
      } else {
        GroupIsClosed(edges, different, x);
      }
    }
  }

  lemma HeldApartIsConflict(edges: seq<Pair>, different: set<Pair>, i: nat)
    requires i < |edges|
    requires var p := Followed(edges, different).groups;
             edges[i].0 in p && edges[i].1 in p && Apart(p[edges[i].0], p[edges[i].1], different)
    ensures Conflict(edges, different)
  {
    GroupsArePartition(edges, different);
    hide Followed, AreConnected;
    var p := Followed(edges, different).groups;
    var (one, other) := edges[i];
    var pair :| pair in different
        && ((pair.0 in p[one] && pair.1 in p[other]) || (pair.0 in p[other] && pair.1 in p[one]));
    var (a, b) := if pair.0 in p[one] && pair.1 in p[other] then pair else (pair.1, pair.0);
    TogetherAreConnected(edges, different, one, a);
    TogetherAreConnected(edges, different, other, b);
    AnEdgeConnects(edges, i);
    ConnectedOn(edges, a, one, other);
    ConnectedOn(edges, a, other, b);
    assert a in p && b in p;
  }

  lemma AnEdgeConnects(edges: seq<Pair>, i: nat)
    requires i < |edges|
    ensures AreConnected(edges, edges[i].0, edges[i].1) && AreConnected(edges, edges[i].1, edges[i].0)
  {
  }
}
