/** Strict orders, sorted sequences and what determines them. */
module Orders {

  ghost predicate StrictOrder<T(!new)>(lt: (T, T) -> bool) {
    && (forall a :: !lt(a, a))
    && (forall a, b, c :: lt(a, b) && lt(b, c) ==> lt(a, c))
  }

  /** A strict order in which any two different values are comparable: a collation, say. */
  ghost predicate StrictTotal<T(!new)>(lt: (T, T) -> bool) {
    && StrictOrder(lt)
    && (forall a, b :: a != b ==> lt(a, b) || lt(b, a))
  }

  ghost predicate Ascending<T>(s: seq<T>, lt: (T, T) -> bool) {
    forall i, j :: 0 <= i < j < |s| ==> lt(s[i], s[j])
  }

  /** Any two positions of `s` hold comparable, hence different, values. */
  ghost predicate Comparable<T>(s: seq<T>, lt: (T, T) -> bool) {
    forall i, j :: 0 <= i < j < |s| ==> lt(s[i], s[j]) || lt(s[j], s[i])
  }

  ghost predicate SameElements<T>(a: seq<T>, b: seq<T>) {
    && (forall i :: 0 <= i < |a| ==> a[i] in b)
    && (forall i :: 0 <= i < |b| ==> b[i] in a)
  }

  function Filter<T(!new)>(s: seq<T>, p: T -> bool): (r: seq<T>)
    ensures forall x :: x in r <==> x in s && p(x)
    ensures |r| <= |s|
  {
    if s == [] then [] else (if p(s[0]) then [s[0]] else []) + Filter(s[1..], p)
  }

  function Insert<T(!new)>(x: T, s: seq<T>, lt: (T, T) -> bool): (r: seq<T>)
    ensures |r| == |s| + 1
    ensures forall y :: y in r <==> y == x || y in s
  {
    if s == [] || lt(x, s[0]) then [x] + s else [s[0]] + Insert(x, s[1..], lt)
  }

  /** ORDER BY: the rows of `s` in the order `lt`. */
  function Sort<T(!new)>(s: seq<T>, lt: (T, T) -> bool): (r: seq<T>)
    ensures |r| == |s|
    ensures forall y :: y in r <==> y in s
  {
    if s == [] then [] else Insert(s[0], Sort(s[1..], lt), lt)
  }

  /** LIMIT. */
  function Take<T>(s: seq<T>, n: nat): (r: seq<T>)
    ensures |r| == if |s| <= n then |s| else n
    ensures r <= s
  {
    if |s| <= n then s else s[..n]
  }

  lemma FilterComparable<T(!new)>(s: seq<T>, p: T -> bool, lt: (T, T) -> bool)
    requires Comparable(s, lt)
    ensures Comparable(Filter(s, p), lt)
  {
    if s != [] {
      var rest := s[1..];
      FilterComparable(rest, p, lt);
      forall k | 0 <= k < |Filter(rest, p)|
        ensures lt(s[0], Filter(rest, p)[k]) || lt(Filter(rest, p)[k], s[0])
      {
        assert Filter(rest, p)[k] in rest;
        var i :| 0 <= i < |rest| && rest[i] == Filter(rest, p)[k];
        assert s[i + 1] == rest[i];
      }
    }
  }

  lemma FilterAll<T(!new)>(s: seq<T>, p: T -> bool)
    requires forall x :: x in s ==> p(x)
    ensures Filter(s, p) == s
  {
    if s != [] {
      FilterAll(s[1..], p);
    }
  }

  lemma FilterCons<T(!new)>(x: T, s: seq<T>, p: T -> bool)
    ensures Filter([x] + s, p) == if p(x) then [x] + Filter(s, p) else Filter(s, p)
  {
    assert ([x] + s)[1..] == s;
  }

  lemma FilterTwice<T(!new)>(s: seq<T>, p: T -> bool, q: T -> bool, both: T -> bool)
    requires forall x :: x in s ==> (both(x) <==> p(x) && q(x))
    ensures Filter(Filter(s, p), q) == Filter(s, both)
  {
    if s != [] {
      assert s[0] in s;
      FilterTwice(s[1..], p, q, both);
      var rest := Filter(s[1..], p);
      if p(s[0]) {
        assert Filter(s, p) == [s[0]] + rest && ([s[0]] + rest)[1..] == rest;
      } else {
        assert Filter(s, p) == rest;
      }
    }
  }

  lemma InsertAscending<T(!new)>(x: T, s: seq<T>, lt: (T, T) -> bool)
    requires StrictOrder(lt)
    requires Ascending(s, lt)
    requires forall i :: 0 <= i < |s| ==> lt(x, s[i]) || lt(s[i], x)
    ensures Ascending(Insert(x, s, lt), lt)
  {
    if s != [] && !lt(x, s[0]) {
      var rest := Insert(x, s[1..], lt);
      InsertAscending(x, s[1..], lt);
      forall j | 0 <= j < |rest|
        ensures lt(s[0], rest[j])
      {
        assert rest[j] in rest;
      }
    }
  }

  lemma SortAscending<T(!new)>(s: seq<T>, lt: (T, T) -> bool)
    requires StrictOrder(lt)
    requires Comparable(s, lt)
    ensures Ascending(Sort(s, lt), lt)
  {
    if s != [] {
      var rest := Sort(s[1..], lt);
      SortAscending(s[1..], lt);
      forall i | 0 <= i < |rest|
        ensures lt(s[0], rest[i]) || lt(rest[i], s[0])
      {
        assert rest[i] in s[1..];
        var k :| 0 <= k < |s[1..]| && s[1..][k] == rest[i];
        assert s[k + 1] == rest[i];
      }
      InsertAscending(s[0], rest, lt);
    }
  }

  /** Dropping the common least element keeps the elements of `a` among those of `b`. */
  lemma TailElements<T(!new)>(a: seq<T>, b: seq<T>, lt: (T, T) -> bool)
    requires StrictOrder(lt)
    requires Ascending(a, lt) && a != [] && b != [] && a[0] == b[0]
    requires forall i :: 0 <= i < |a| ==> a[i] in b
    ensures forall i :: 0 <= i < |a[1..]| ==> a[1..][i] in b[1..]
  {
    forall k | 0 <= k < |a[1..]|
      ensures a[1..][k] in b[1..]
    {
      assert a[k + 1] in b && lt(a[0], a[k + 1]);
      var m :| 0 <= m < |b| && b[m] == a[k + 1];
      assert b[1..][m - 1] == a[k + 1];
    }
  }

  lemma HeadLeast<T>(s: seq<T>, x: T, lt: (T, T) -> bool)
    requires Ascending(s, lt) && x in s
    ensures s[0] == x || lt(s[0], x)
  {
    var i :| 0 <= i < |s| && s[i] == x;
    assert i == 0 || lt(s[0], s[i]);
  }

  /** In an ascending sequence, what comes after an element is what is greater. */
  lemma GreaterIsLater<T(!new)>(s: seq<T>, i: nat, x: T, lt: (T, T) -> bool)
    requires StrictOrder(lt) && Ascending(s, lt) && i < |s| && x in s
    ensures lt(s[i], x) <==> x in s[i + 1..]
  {
    var j :| 0 <= j < |s| && s[j] == x;
    if j > i {
      assert s[i + 1..][j - i - 1] == x;
    } else {
      assert j == i || lt(s[j], s[i]);
      var tail := s[i + 1..];
      forall k | 0 <= k < |tail|
        ensures lt(s[i], tail[k])
      {
        assert tail[k] == s[i + 1 + k];
      }
    }
  }

  /** A prefix of an ascending sequence holds what is not greater than its last element. */
  lemma PrefixByLast<T(!new)>(s: seq<T>, n: nat, x: T, lt: (T, T) -> bool)
    requires StrictOrder(lt) && Ascending(s, lt) && 0 < n <= |s| && x in s
    ensures x in s[..n] <==> !lt(s[n - 1], x)
  {
    var i :| 0 <= i < |s| && s[i] == x;
    if i < n {
      assert s[..n][i] == x;
      assert i == n - 1 || lt(s[i], s[n - 1]);
    } else {
      assert lt(s[n - 1], s[i]);
      forall j | 0 <= j < n
        ensures s[j] != x
      {
        assert lt(s[j], s[i]);
      }
    }
  }

  /** Two ascending sequences with the same elements start alike. */
  lemma SameHead<T(!new)>(a: seq<T>, b: seq<T>, lt: (T, T) -> bool)
    requires StrictOrder(lt)
    requires Ascending(a, lt) && Ascending(b, lt) && a != [] && b != []
    requires a[0] in b && b[0] in a
    ensures a[0] == b[0]
  {
    HeadLeast(a, b[0], lt);
    HeadLeast(b, a[0], lt);
  }

  /** A strictly ascending sequence is determined by its elements. */
  lemma {:induction false} AscendingUnique<T(!new)>(a: seq<T>, b: seq<T>, lt: (T, T) -> bool)
    requires StrictOrder(lt)
    requires Ascending(a, lt) && Ascending(b, lt)
    requires SameElements(a, b)
    ensures a == b
  {
    assert b != [] ==> b[0] in a;
    if a != [] {
      assert a[0] in b;
      SameHead(a, b, lt);
      TailElements(a, b, lt);
      TailElements(b, a, lt);
      AscendingUnique(a[1..], b[1..], lt);
      assert a == [a[0]] + a[1..] && b == [b[0]] + b[1..];
    }
  }

  /** What an ascending sequence holds above its i-th element is its tail from there. */
  lemma TailByElements<T(!new)>(s: seq<T>, i: nat, above: seq<T>, lt: (T, T) -> bool)
    requires StrictOrder(lt) && Ascending(s, lt) && Ascending(above, lt) && i < |s|
    requires forall x :: x in above <==> x in s && lt(s[i], x)
    ensures above == s[i + 1..]
  {
    var tail := s[i + 1..];
    forall x | x in s
      ensures x in above <==> x in tail
    {
      GreaterIsLater(s, i, x, lt);
    }
    AscendingUnique(above, tail, lt);
  }

  ghost predicate Distinct<T>(s: seq<T>) {
    forall i, j :: 0 <= i < j < |s| ==> s[i] != s[j]
  }

  /** Sequences without repetition and with the same elements are permutations of each other. */
  lemma {:induction false} DistinctSameElements<T>(a: seq<T>, b: seq<T>)
    requires Distinct(a) && Distinct(b)
    requires forall i :: 0 <= i < |a| ==> a[i] in b
    requires forall i :: 0 <= i < |b| ==> b[i] in a
    ensures multiset(a) == multiset(b)
  {
    forall x
      ensures multiset(a)[x] == multiset(b)[x]
    {
      DistinctCount(a, x);
      DistinctCount(b, x);
      if x in a {
        var i :| 0 <= i < |a| && a[i] == x;
      }
      if x in b {
        var i :| 0 <= i < |b| && b[i] == x;
      }
    }
  }

  lemma {:induction false} DistinctCount<T>(s: seq<T>, x: T)
    requires Distinct(s)
    ensures multiset(s)[x] == if x in s then 1 else 0
  {
    if s != [] {
      assert s == [s[0]] + s[1..];
      DistinctCount(s[1..], x);
      assert forall i :: 0 <= i < |s[1..]| ==> s[1..][i] == s[i + 1] && s[i + 1] != s[0];
    }
  }

  function Map<T, U>(s: seq<T>, f: T -> U): (r: seq<U>)
    ensures |r| == |s|
    ensures forall i :: 0 <= i < |s| ==> r[i] == f(s[i])
  {
    seq(|s|, i requires 0 <= i < |s| => f(s[i]))
  }

  /** The image of a permutation is a permutation of the image. */
  lemma {:induction false} MapOfPermutation<T, U>(a: seq<T>, b: seq<T>, f: T -> U)
    requires multiset(a) == multiset(b)
    ensures multiset(Map(a, f)) == multiset(Map(b, f))
  {
    if a == [] {
      assert |multiset(b)| == 0;
    } else {
      assert a[0] in multiset(b);
      var j :| 0 <= j < |b| && b[j] == a[0];
      SameRest(a, b, j);
      MapOfPermutation(a[1..], b[..j] + b[j + 1..], f);
      MapHead(a, f);
      MapTakenOut(b, j, f);
    }
  }

  lemma SameRest<T>(a: seq<T>, b: seq<T>, j: nat)
    requires multiset(a) == multiset(b) && a != [] && j < |b| && b[j] == a[0]
    ensures multiset(a[1..]) == multiset(b[..j] + b[j + 1..])
  {
    TakenOut(b, j);
    assert a == [a[0]] + a[1..];
    assert multiset(a[1..]) == multiset(a) - multiset{a[0]};
  }

  lemma MapHead<T, U>(a: seq<T>, f: T -> U)
    requires a != []
    ensures multiset(Map(a, f)) == multiset{f(a[0])} + multiset(Map(a[1..], f))
  {
    assert Map(a, f) == [f(a[0])] + Map(a[1..], f);
  }

  lemma TakenOut<T>(s: seq<T>, j: nat)
    requires j < |s|
    ensures multiset(s) == multiset{s[j]} + multiset(s[..j] + s[j + 1..])
  {
    assert s == s[..j] + [s[j]] + s[j + 1..];
  }

  lemma MapTakenOut<T, U>(s: seq<T>, j: nat, f: T -> U)
    requires j < |s|
    ensures multiset(Map(s, f)) == multiset{f(s[j])} + multiset(Map(s[..j] + s[j + 1..], f))
  {
    var m, rest := Map(s, f), s[..j] + s[j + 1..];
    TakenOut(m, j);
    assert |m[..j] + m[j + 1..]| == |Map(rest, f)|;
    forall i | 0 <= i < |rest|
      ensures (m[..j] + m[j + 1..])[i] == Map(rest, f)[i]
    {
      assert rest[i] == if i < j then s[i] else s[i + 1];
    }
    assert m[..j] + m[j + 1..] == Map(rest, f);
  }

  lemma MapConcat<T, U>(a: seq<T>, b: seq<T>, f: T -> U)
    ensures Map(a + b, f) == Map(a, f) + Map(b, f)
  {
  }
}
