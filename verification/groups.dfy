/** A forest of parents with halving, and the lists of members beside it. Ghost
    heights and roots show that every walk ends and that the lists are the forest's
    groups. */
module UnionFind {
  import opened Base
  import opened Identifiers
  import opened Partitions

  /** The identifiers of a sequence, each once. */
  ghost predicate Distinct(s: seq<Identifier>) { forall i, j :: 0 <= i < j < |s| ==> s[i] != s[j] }

  function SetOf(s: seq<Identifier>): set<Identifier> { set x | x in s }

  // ------------------------------------------------------------- the forest

  /** Every place leads to its root by ever higher places. */
  ghost predicate IsForest(parent: seq<nat>, roots: seq<nat>, heights: seq<nat>, top: nat) {
    && |parent| == |roots| == |heights|
    && (forall i :: 0 <= i < |parent| ==> parent[i] < |parent| && roots[i] < |parent| && heights[i] <= top)
    && (forall i :: 0 <= i < |parent| ==> roots[parent[i]] == roots[i])
    && (forall i :: 0 <= i < |parent| ==> parent[roots[i]] == roots[i])
    && (forall i :: 0 <= i < |parent| ==> parent[i] == i || heights[i] < heights[parent[i]])
    && (forall i :: 0 <= i < |parent| && parent[i] == i ==> roots[i] == i)
  }

  lemma HalvingKeeps(parent: seq<nat>, roots: seq<nat>, heights: seq<nat>, top: nat, at: nat)
    requires IsForest(parent, roots, heights, top) && at < |parent| && parent[at] != at
    ensures parent[at] < |parent|
    ensures IsForest(parent[at := parent[parent[at]]], roots, heights, top)
    ensures var next := parent[parent[at]];
            next < |parent| && roots[next] == roots[at] && heights[at] < heights[next] <= top
  {
  }

  lemma RootOf(parent: seq<nat>, roots: seq<nat>, heights: seq<nat>, top: nat, at: nat)
    requires IsForest(parent, roots, heights, top) && at < |parent|
    ensures |roots| == |heights| == |parent| && roots[at] < |parent| && parent[roots[at]] == roots[at]
    ensures parent[at] < |parent| && heights[at] <= top && (parent[at] == at ==> roots[at] == at)
  {
  }

  lemma GrowingKeeps(parent: seq<nat>, roots: seq<nat>, heights: seq<nat>, top: nat)
    requires IsForest(parent, roots, heights, top)
    ensures IsForest(parent + [|parent|], roots + [|parent|], heights + [0], top)
  {
  }

  /** Which root a place leads to once `from` is put below `into`. */
  ghost function Relinked(roots: seq<nat>, from: nat, into: nat): (r: seq<nat>)
    ensures |r| == |roots| && forall i :: 0 <= i < |r| ==> r[i] == if roots[i] == from then into else roots[i]
  {
    seq<nat>(|roots|, i requires 0 <= i < |roots| => if roots[i] == from then into else roots[i])
  }

  ghost function Raised(heights: seq<nat>, from: nat, into: nat): (r: seq<nat>)
    requires from < |heights| && into < |heights|
    ensures |r| == |heights|
  {
    if heights[into] <= heights[from] then heights[into := heights[from] + 1] else heights
  }

  lemma LinkingKeeps(parent: seq<nat>, roots: seq<nat>, heights: seq<nat>, top: nat, from: nat, into: nat)
    requires IsForest(parent, roots, heights, top) && from < |parent| && into < |parent| && from != into
    requires parent[from] == from && parent[into] == into
    ensures IsForest(parent[from := into], Relinked(roots, from, into), Raised(heights, from, into), top + 1)
  {
    LinkedRoots(parent, roots, heights, top, from, into);
    LinkedHeights(parent, roots, heights, top, from, into);
    hide Raised, Relinked;
  }

  lemma LinkedRoots(parent: seq<nat>, roots: seq<nat>, heights: seq<nat>, top: nat, from: nat, into: nat)
    requires IsForest(parent, roots, heights, top) && from < |parent| && into < |parent| && from != into
    requires parent[from] == from && parent[into] == into
    ensures var linked, after := parent[from := into], Relinked(roots, from, into);
            && (forall i :: 0 <= i < |parent| ==> linked[i] < |parent| && after[i] < |parent|)
            && (forall i :: 0 <= i < |parent| ==> after[linked[i]] == after[i])
            && (forall i :: 0 <= i < |parent| ==> linked[after[i]] == after[i])
            && (forall i :: 0 <= i < |parent| && linked[i] == i ==> after[i] == i)
  {
    var linked, after := parent[from := into], Relinked(roots, from, into);
    hide IsForest, Relinked;
    forall i | 0 <= i < |parent| ensures linked[i] < |parent| && after[i] < |parent| {
      LinkedRoot(parent, roots, heights, top, from, into, i);
    }
    forall i | 0 <= i < |parent| ensures after[linked[i]] == after[i] {
      LinkedRoot(parent, roots, heights, top, from, into, i);
    }
    forall i | 0 <= i < |parent| ensures linked[after[i]] == after[i] {
      LinkedRoot(parent, roots, heights, top, from, into, i);
    }
    forall i | 0 <= i < |parent| && linked[i] == i ensures after[i] == i {
      LinkedRoot(parent, roots, heights, top, from, into, i);
    }
  }

  lemma LinkedRoot(parent: seq<nat>, roots: seq<nat>, heights: seq<nat>, top: nat, from: nat, into: nat, i: nat)
    requires IsForest(parent, roots, heights, top) && from < |parent| && into < |parent| && from != into
    requires parent[from] == from && parent[into] == into && i < |parent|
    ensures var linked, after := parent[from := into], Relinked(roots, from, into);
            && linked[i] < |parent| && after[i] < |parent| && after[linked[i]] == after[i]
            && linked[after[i]] == after[i] && (linked[i] == i ==> after[i] == i)
  {
    hide Raised;
    var p, r := parent[i], roots[i];
    assert p < |parent| && r < |parent| && roots[p] == r && parent[r] == r && roots[r] == r;
    assert roots[from] == from && roots[into] == into && (p == i ==> r == i);
    hide IsForest;
  }

  lemma LinkedHeights(parent: seq<nat>, roots: seq<nat>, heights: seq<nat>, top: nat, from: nat, into: nat)
    requires IsForest(parent, roots, heights, top) && from < |parent| && into < |parent| && from != into
    requires parent[from] == from && parent[into] == into
    ensures var linked, raised := parent[from := into], Raised(heights, from, into);
            && (forall i :: 0 <= i < |parent| ==> linked[i] < |parent| && raised[i] <= top + 1)
            && (forall i :: 0 <= i < |parent| ==> linked[i] == i || raised[i] < raised[linked[i]])
  {
    hide Relinked;
  }

  // ------------------------------------------------------------ the members

  /** The members of a root are the identifiers that lead to it, each once, and
      those of a place that is no root are none. */
  ghost predicate IsKept(index: map<Identifier, nat>, roots: seq<nat>, members: seq<seq<Identifier>>) {
    && |members| == |roots|
    && (forall x :: x in index ==> index[x] < |roots| && roots[index[x]] < |roots|)
    && (forall r :: 0 <= r < |members| ==> Distinct(members[r]))
    && (forall r: nat, x :: r < |members| ==> (x in members[r] <==> x in index && roots[index[x]] == r))
  }

  /** The groups are those of the roots. */
  ghost predicate Means(
      index: map<Identifier, nat>, roots: seq<nat>, members: seq<seq<Identifier>>, groups: Partition) {
    && groups.Keys == index.Keys
    && (forall x :: x in index ==> index[x] < |roots| && roots[index[x]] < |members|)
    && (forall x :: x in index ==> groups[x] == SetOf(members[roots[index[x]]]))
  }

  lemma AddedIsKept(
      index: map<Identifier, nat>, roots: seq<nat>, members: seq<seq<Identifier>>, groups: Partition, x: Identifier)
    requires IsKept(index, roots, members) && Means(index, roots, members, groups) && x !in index
    ensures IsKept(index[x := |roots|], roots + [|roots|], members + [[x]])
    ensures Means(index[x := |roots|], roots + [|roots|], members + [[x]], groups[x := {x}])
  {
    var index', roots', members' := index[x := |roots|], roots + [|roots|], members + [[x]];
    assert forall y :: y in index ==> index'[y] == index[y] && roots'[index[y]] == roots[index[y]];
    assert forall r :: 0 <= r < |members| ==> members'[r] == members[r];
    assert SetOf([x]) == {x};
  }

  lemma Both(a: seq<Identifier>, b: seq<Identifier>)
    requires Distinct(a) && Distinct(b) && forall x :: x in a ==> x !in b
    ensures Distinct(a + b) && SetOf(a + b) == SetOf(a) + SetOf(b)
  {
    var all := a + b;
    forall i, j | 0 <= i < j < |all| ensures all[i] != all[j] {
      if i < |a| <= j { assert a[i] in a && b[j - |a|] in b; }
    }
  }

  /** The members of `from` moved to `into`. */
  function Moved(members: seq<seq<Identifier>>, from: nat, into: nat): seq<seq<Identifier>>
    requires from < |members| && into < |members|
  {
    members[from := []][into := members[into] + members[from]]
  }

  lemma MovedIsKept(index: map<Identifier, nat>, roots: seq<nat>, members: seq<seq<Identifier>>, from: nat, into: nat)
    requires IsKept(index, roots, members) && from < |roots| && into < |roots| && from != into
    ensures IsKept(index, Relinked(roots, from, into), Moved(members, from, into))
  {
    forall x | x in members[into] ensures x !in members[from] { assert roots[index[x]] == into; }
    Both(members[into], members[from]);
  }

  lemma MovedMeans(
      index: map<Identifier, nat>, roots: seq<nat>, members: seq<seq<Identifier>>, groups: Partition, from: nat,
      into: nat)
    requires IsKept(index, roots, members) && Means(index, roots, members, groups)
    requires from < |roots| && into < |roots| && from != into
    ensures Means(index, Relinked(roots, from, into), Moved(members, from, into),
                  Joined(groups, SetOf(members[from]), SetOf(members[into])))
  {
    forall x | x in members[into] ensures x !in members[from] { assert roots[index[x]] == into; }
    Both(members[into], members[from]);
    var after, moved := Relinked(roots, from, into), Moved(members, from, into);
    var joined := Joined(groups, SetOf(members[from]), SetOf(members[into]));
    forall x | x in index ensures joined[x] == SetOf(moved[after[index[x]]]) {
      assert x in SetOf(members[from]) <==> roots[index[x]] == from;
      assert x in SetOf(members[into]) <==> roots[index[x]] == into;
      assert SetOf(members[from]) + SetOf(members[into]) == SetOf(members[into] + members[from]);
    }
  }

  // ------------------------------------------------------------- the object

  class Groups {
    var index: map<Identifier, nat>
    var parent: seq<nat>
    var members: seq<seq<Identifier>>

    /** The root each place leads to, and how high it stands on the way. */
    ghost var roots: seq<nat>
    ghost var heights: seq<nat>
    ghost var top: nat
    /** The groups this is. */
    ghost var groups: Partition

    ghost predicate Valid()
      reads this
    {
      && IsForest(parent, roots, heights, top)
      && IsKept(index, roots, members)
      && Means(index, roots, members, groups)
    }

    constructor ()
      ensures Valid() && groups == map[]
    {
      index, parent, members, roots, heights, top, groups := map[], [], [], [], [], 0, map[];
    }

    /** The root of a place: each step halves the path, and no place is led to
        another root. */
    method Root(start: nat) returns (at: nat)
      requires IsForest(parent, roots, heights, top) && start < |parent|
      modifies this`parent
      ensures IsForest(parent, roots, heights, top) && |parent| == old(|parent|) == |roots|
      ensures at < |parent| && at == roots[start] && parent[at] == at
    {
      hide IsForest;
      at := start;
      RootOf(parent, roots, heights, top, at);
      while parent[at] != at
        invariant IsForest(parent, roots, heights, top) && |parent| == old(|parent|) == |roots| == |heights|
        invariant at < |parent| && roots[at] == roots[start] && heights[at] <= top
        decreases top - heights[at]
      {
        HalvingKeeps(parent, roots, heights, top, at);
        parent := parent[at := parent[parent[at]]];
        at := parent[at];
      }
      RootOf(parent, roots, heights, top, at);
    }

    /** Looks an identifier up, adding it alone where it was not known. The result
        is the root of its tree. */
    method Of(x: Identifier) returns (at: nat)
      requires Valid()
      modifies this
      ensures Valid() && groups == Known(old(groups), x) && x in groups
      ensures IsGroup(at, x)
      ensures forall r: nat, y :: old(IsGroup(r, y)) ==> IsGroup(r, y)
    {
      hide IsForest, IsKept, Means;
      KeysAgree(index, roots, members, groups);
      if x !in index { Add(x); }
      IsOfLength(parent, roots, heights, top, index, members);
      at := Root(index[x]);
    }

    /** Grows the forest by a tree of one. */
    method Add(x: Identifier)
      requires Valid() && x !in index
      modifies this
      ensures Valid() && groups == old(groups)[x := {x}] && x in index
      ensures forall r: nat, y :: old(IsGroup(r, y)) ==> IsGroup(r, y)
    {
      hide IsForest, IsKept, Means;
      GrowingKeeps(parent, roots, heights, top);
      AddedIsKept(index, roots, members, groups, x);
      IsOfLength(parent, roots, heights, top, index, members);
      index := index[x := |parent|];
      parent, members := parent + [|parent|], members + [[x]];
      roots, heights, groups := roots + [|roots|], heights + [0], groups[x := {x}];
    }

    /** `r` is the group of `x`. */
    ghost predicate IsGroup(r: nat, x: Identifier)
      reads this
    {
      && x in index && index[x] < |roots| && roots[index[x]] == r
      && r < |parent| && r < |members|
    }

    /** Looks an identifier up and adds nothing. There is a root exactly when the
        identifier is known. */
    method Find(x: Identifier) returns (at: Option<nat>)
      requires Valid()
      modifies this`parent
      ensures Valid() && |parent| == old(|parent|)
      ensures at.Some? <==> x in groups
      ensures at.Some? ==> IsGroup(at.value, x)
    {
      hide IsForest, IsKept;
      if x !in index { return None; }
      IsOfLength(parent, roots, heights, top, index, members);
      var r := Root(index[x]);
      return Some(r);
    }

    /** Whether something in one group is said to be different from something in
        the other. */
    method IsApart(one: nat, other: nat, different: set<Pair>) returns (apart: bool)
      requires one < |members| && other < |members|
      ensures apart <==> Apart(SetOf(members[one]), SetOf(members[other]), different)
    {
      var left := different;
      while left != {}
        invariant left <= different
        invariant forall pair :: pair in different && pair !in left ==>
          !(pair.0 in members[one] && pair.1 in members[other]) && !(pair.0 in members[other] && pair.1 in members[one])
      {
        var pair :| pair in left;
        if (pair.0 in members[one] && pair.1 in members[other])
            || (pair.1 in members[one] && pair.0 in members[other]) {
          return true;
        }
        left := left - {pair};
      }
      return false;
    }

    /** Two groups become one, the smaller moved into the larger. */
    method Join(one: nat, other: nat)
      requires Valid() && one < |parent| && other < |parent| && |members| == |parent| && one != other
      requires parent[one] == one && parent[other] == other
      modifies this
      ensures Valid()
      ensures groups == Joined(old(groups), SetOf(old(members[one])), SetOf(old(members[other])))
    {
      hide IsForest, IsKept, Means;
      var smaller := |members[one]| < |members[other]|;
      var from, into := if smaller then one else other, if smaller then other else one;
      IsOfLength(parent, roots, heights, top, index, members);
      LinkingKeeps(parent, roots, heights, top, from, into);
      MovedIsKept(index, roots, members, from, into);
      MovedMeans(index, roots, members, groups, from, into);
      groups := Joined(groups, SetOf(members[from]), SetOf(members[into]));
      roots, heights, top := Relinked(roots, from, into), Raised(heights, from, into), top + 1;
      parent := parent[from := into];
      var moved := members[from];
      members := members[from := []];
      members := members[into := members[into] + moved];
      assert SetOf(old(members[one])) + SetOf(old(members[other]))
             == SetOf(old(members[from])) + SetOf(old(members[into]));
      assert groups == Joined(old(groups), SetOf(old(members[one])), SetOf(old(members[other])));
    }
  }

  lemma KeysAgree(index: map<Identifier, nat>, roots: seq<nat>, members: seq<seq<Identifier>>, groups: Partition)
    requires Means(index, roots, members, groups)
    ensures forall x :: x in groups <==> x in index
  {
  }

  lemma IsOfLength(
      parent: seq<nat>, roots: seq<nat>, heights: seq<nat>, top: nat, index: map<Identifier, nat>,
      members: seq<seq<Identifier>>)
    requires IsForest(parent, roots, heights, top) && IsKept(index, roots, members)
    ensures |members| == |roots| == |parent| == |heights|
    ensures forall x :: x in index ==> index[x] < |parent| && roots[index[x]] < |parent|
  {
  }
}
