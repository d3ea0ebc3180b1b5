/** The option and result types every component uses. */
module Base {
  datatype Option<+T> = None | Some(value: T)

  datatype Result<+T, +E> = Ok(value: T) | Err(error: E)

  type Byte = b: int | 0 <= b < 256
}

/** Orders, lexicographic comparison, and the stable sort the program's sorted
    containers and `sort` calls stand for. */
module Ordering {
  import Base

  /** A comparison that sorts: any two values compare, and it is transitive. */
  ghost predicate Preorder<T(!new)>(le: (T, T) -> bool) {
    && (forall x, y :: le(x, y) || le(y, x))
    && (forall x, y, z :: le(x, y) && le(y, z) ==> le(x, z))
  }

  /** A preorder that tells every two values apart. */
  ghost predicate TotalOrder<T(!new)>(le: (T, T) -> bool) {
    && Preorder(le)
    && (forall x, y :: le(x, y) && le(y, x) ==> x == y)
  }

  ghost predicate Sorted<T(!new)>(le: (T, T) -> bool, s: seq<T>) {
    forall i, j :: 0 <= i < j < |s| ==> le(s[i], s[j])
  }

  /** `x` put before the first element of `s` it does not follow. */
  function Insert<T>(le: (T, T) -> bool, x: T, s: seq<T>): (r: seq<T>)
    ensures |r| == |s| + 1
    ensures multiset(r) == multiset(s) + multiset{x}
  {
    if s == [] || (s != [] && le(x, s[0])) then [x] + s
    else
      assert s == [s[0]] + s[1..];
      [s[0]] + Insert(le, x, s[1..])
  }

  /** `s` in the order `le`, equal elements as they stood. */
  function Sort<T>(le: (T, T) -> bool, s: seq<T>): (r: seq<T>)
    ensures |r| == |s|
    ensures multiset(r) == multiset(s)
  {
    if s == [] then []
    else
      assert s == [s[0]] + s[1..];
      Insert(le, s[0], Sort(le, s[1..]))
  }

  lemma {:induction false} InsertSorts<T(!new)>(le: (T, T) -> bool, x: T, s: seq<T>)
    requires Preorder(le) && Sorted(le, s)
    ensures Sorted(le, Insert(le, x, s))
  {
    if s == [] || le(x, s[0]) {
    } else {
      var rest := Insert(le, x, s[1..]);
      InsertSorts(le, x, s[1..]);
      forall j | 0 <= j < |rest| ensures le(s[0], rest[j]) {
        assert rest[j] in multiset(rest);
        assert rest[j] == x || rest[j] in multiset(s[1..]);
      }
    }
  }

  lemma {:induction false} SortSorts<T(!new)>(le: (T, T) -> bool, s: seq<T>)
    requires Preorder(le)
    ensures Sorted(le, Sort(le, s))
  {
    if s != [] {
      SortSorts(le, s[1..]);
      InsertSorts(le, s[0], Sort(le, s[1..]));
    }
  }

  lemma SameFirst<T(!new)>(le: (T, T) -> bool, a: seq<T>, b: seq<T>)
    requires TotalOrder(le) && Sorted(le, a) && Sorted(le, b)
    requires multiset(a) == multiset(b) && a != [] && b != []
    ensures a[0] == b[0]
  {
    assert a[0] in multiset(b) && b[0] in multiset(a);
    var i :| 0 <= i < |b| && b[i] == a[0];
    var j :| 0 <= j < |a| && a[j] == b[0];
    assert forall k :: 0 < k < |b| ==> le(b[0], b[k]);
    assert forall k :: 0 < k < |a| ==> le(a[0], a[k]);
  }

  lemma RestsMatch<T>(a: seq<T>, b: seq<T>)
    requires multiset(a) == multiset(b) && a != [] && b != [] && a[0] == b[0]
    ensures multiset(a[1..]) == multiset(b[1..])
  {
    assert a == [a[0]] + a[1..] && b == [b[0]] + b[1..];
    assert multiset(a) == multiset{a[0]} + multiset(a[1..]);
    assert multiset(b) == multiset{b[0]} + multiset(b[1..]);
    forall x ensures multiset(a[1..])[x] == multiset(b[1..])[x] {
      assert multiset(a)[x] == multiset(b)[x];
    }
  }

  /** Two arrangements of the same elements in one total order are the same. */
  lemma {:induction false} SortedIsUnique<T(!new)>(le: (T, T) -> bool, a: seq<T>, b: seq<T>)
    requires TotalOrder(le) && Sorted(le, a) && Sorted(le, b)
    requires multiset(a) == multiset(b)
    ensures a == b
  {
    assert |a| == |multiset(a)| && |b| == |multiset(b)|;
    if a != [] {
      SameFirst(le, a, b);
      RestsMatch(a, b);
      hide TotalOrder;
      SortedIsUnique(le, a[1..], b[1..]);
      assert a == [a[0]] + a[1..] && b == [b[0]] + b[1..];
    }
  }

  /** Each element before the next, in a strict order. */
  ghost predicate Ascends<T(!new)>(lt: (T, T) -> bool, s: seq<T>) {
    forall i, j :: 0 <= i < j < |s| ==> lt(s[i], s[j])
  }

  lemma SameLeast<T(!new)>(lt: (T, T) -> bool, a: seq<T>, b: seq<T>)
    requires forall x, y :: !(lt(x, y) && lt(y, x))
    requires Ascends(lt, a) && Ascends(lt, b) && (forall x :: x in a <==> x in b) && a != []
    ensures b != [] && a[0] == b[0]
  {
    assert a[0] in b;
    assert b[0] in a;
    var i :| 0 <= i < |b| && b[i] == a[0];
    var j :| 0 <= j < |a| && a[j] == b[0];
    assert forall k :: 0 < k < |b| ==> lt(b[0], b[k]);
    assert forall k :: 0 < k < |a| ==> lt(a[0], a[k]);
  }

  lemma RestsHaveTheSame<T(!new)>(lt: (T, T) -> bool, a: seq<T>, b: seq<T>)
    requires forall x, y :: !(lt(x, y) && lt(y, x))
    requires Ascends(lt, a) && Ascends(lt, b) && (forall x :: x in a <==> x in b)
    requires a != [] && b != [] && a[0] == b[0]
    ensures forall x :: x in a[1..] <==> x in b[1..]
  {
    assert a == [a[0]] + a[1..] && b == [b[0]] + b[1..];
    assert a[0] !in a[1..] by { assert forall k :: 0 <= k < |a[1..]| ==> lt(a[0], a[k + 1]) && a[1..][k] == a[k + 1]; }
    assert b[0] !in b[1..] by { assert forall k :: 0 <= k < |b[1..]| ==> lt(b[0], b[k + 1]) && b[1..][k] == b[k + 1]; }
    forall x ensures x in a[1..] <==> x in b[1..] {
      assert x in a <==> x == a[0] || x in a[1..];
      assert x in b <==> x == b[0] || x in b[1..];
    }
  }

  /** There is one way to arrange elements so that each is before the next. */
  lemma {:induction false} AscendingIsUnique<T(!new)>(lt: (T, T) -> bool, a: seq<T>, b: seq<T>)
    requires forall x, y :: !(lt(x, y) && lt(y, x))
    requires Ascends(lt, a) && Ascends(lt, b) && forall x :: x in a <==> x in b
    ensures a == b
  {
    assert b != [] ==> b[0] in b;
    if a != [] {
      SameLeast(lt, a, b);
      RestsHaveTheSame(lt, a, b);
      AscendingIsUnique(lt, a[1..], b[1..]);
      assert a == [a[0]] + a[1..] && b == [b[0]] + b[1..];
    }
  }

  /** Two arrangements of the same elements: the last of one, taken out of the
      other where it stands, leaves the same. */
  lemma TakenOut<T>(a: seq<T>, b: seq<T>) returns (i: nat)
    requires multiset(a) == multiset(b) && a != []
    ensures |a| == |b| && i < |b| && b[i] == a[|a| - 1] && b == b[..i] + ([b[i]] + b[i + 1..])
    ensures multiset(a[..|a| - 1]) == multiset(b[..i] + b[i + 1..])
  {
    assert |a| == |multiset(a)| && |b| == |multiset(b)|;
    var rest, last := a[..|a| - 1], a[|a| - 1];
    assert a == rest + [last];
    assert last in multiset(a) && last in multiset(b) && last in b;
    i :| 0 <= i < |b| && b[i] == last;
    assert b == b[..i] + ([b[i]] + b[i + 1..]);
    var others := multiset(b[..i] + b[i + 1..]);
    assert multiset(b) == others + multiset{last} && multiset(a) == multiset(rest) + multiset{last};
    forall x ensures multiset(rest)[x] == others[x] { assert multiset(a)[x] == multiset(b)[x]; }
  }

  lemma SameElements<T>(a: seq<T>, b: seq<T>)
    requires multiset(a) == multiset(b)
    ensures forall x :: x in a <==> x in b
  {
    forall x ensures x in a <==> x in b { assert x in multiset(a) <==> x in multiset(b); }
  }

  /** Sorting forgets how its input was arranged. */
  lemma SortIgnoresArrangement<T(!new)>(le: (T, T) -> bool, a: seq<T>, b: seq<T>)
    requires TotalOrder(le) && multiset(a) == multiset(b)
    ensures Sort(le, a) == Sort(le, b)
  {
    SortSorts(le, a);
    SortSorts(le, b);
    SortedIsUnique(le, Sort(le, a), Sort(le, b));
  }

  /** `s` without an element equal to the one before it, as `dedup` leaves it. */
  function Dedup<T(==, !new)>(s: seq<T>): (r: seq<T>)
    ensures forall x :: x in r <==> x in s
    ensures |r| <= |s|
    ensures s != [] ==> r != [] && r[0] == s[0]
  {
    if |s| < 2 then s
    else if s[0] == s[1] then Dedup(s[1..])
    else
      assert s == [s[0]] + s[1..];
      [s[0]] + Dedup(s[1..])
  }

  /** The first of the items that cost least. */
  function Cheapest<T>(cost: T -> nat, items: seq<T>): (r: Base.Option<T>)
    ensures r.Some? <==> items != []
    ensures r.Some? ==> exists k :: 0 <= k < |items| && items[k] == r.value
                                    && (forall l :: 0 <= l < |items| ==> cost(r.value) <= cost(items[l]))
                                    && (forall l :: 0 <= l < k ==> cost(r.value) < cost(items[l]))
  {
    if items == [] then Base.None
    else
      assert items == [items[0]] + items[1..];
      match Cheapest(cost, items[1..])
      case None => Base.Some(items[0])
      case Some(best) => if cost(items[0]) <= cost(best) then Base.Some(items[0]) else Base.Some(best)
  }

  /** Lexicographic order by the codes of the elements, a proper prefix first. */
  predicate LexLe<T>(code: T -> int, a: seq<T>, b: seq<T>) {
    a == [] || (b != [] && (code(a[0]) < code(b[0]) || (code(a[0]) == code(b[0]) && LexLe(code, a[1..], b[1..]))))
  }

  ghost predicate Injective<T(!new)>(code: T -> int) {
    forall x, y :: code(x) == code(y) ==> x == y
  }

  lemma {:induction false} LexTotal<T>(code: T -> int, a: seq<T>, b: seq<T>)
    ensures LexLe(code, a, b) || LexLe(code, b, a)
  {
    if a != [] && b != [] { LexTotal(code, a[1..], b[1..]); }
  }

  lemma {:induction false} LexTransitive<T>(code: T -> int, a: seq<T>, b: seq<T>, c: seq<T>)
    requires LexLe(code, a, b) && LexLe(code, b, c)
    ensures LexLe(code, a, c)
  {
    if a != [] && code(a[0]) == code(b[0]) && code(b[0]) == code(c[0]) {
      LexTransitive(code, a[1..], b[1..], c[1..]);
    }
  }

  lemma {:induction false} LexAntisymmetric<T(!new)>(code: T -> int, a: seq<T>, b: seq<T>)
    requires Injective(code) && LexLe(code, a, b) && LexLe(code, b, a)
    ensures a == b
  {
    if a != [] {
      LexAntisymmetric(code, a[1..], b[1..]);
      assert a == [a[0]] + a[1..] && b == [b[0]] + b[1..];
    }
  }

  function CodePoint(c: char): int { c as int }

  /** The order of strings: that of their characters' code points, which is
      also that of their UTF-8 bytes. */
  predicate StringLe(a: string, b: string) { LexLe(CodePoint, a, b) }

  lemma StringOrder()
    ensures TotalOrder(StringLe)
  {
    forall a, b ensures StringLe(a, b) || StringLe(b, a) { LexTotal(CodePoint, a, b); }
    forall a, b, c | StringLe(a, b) && StringLe(b, c) ensures StringLe(a, c) {
      LexTransitive(CodePoint, a, b, c);
    }
    forall a, b | StringLe(a, b) && StringLe(b, a) ensures a == b {
      LexAntisymmetric(CodePoint, a, b);
    }
  }
}
