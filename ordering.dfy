/** Orders used by the store's ORDER BY clauses and by Python's sorted():
    code-point lexicographic order on strings (SQLite's BINARY collation over
    UTF-8 and Python's str comparison agree on it), NULL-first order on
    optional strings, and a stable insertion sort by any total preorder. */
module Ordering {
  import opened PyStr

  /** a <= b in code-point lexicographic order. */
  predicate StrLe(a: string, b: string)
    decreases |a|
  {
    if a == [] then true
    else if b == [] then false
    else if a[0] != b[0] then a[0] < b[0]
    else StrLe(a[1..], b[1..])
  }

  lemma {:induction false} StrLeTotal(a: string, b: string)
    ensures StrLe(a, b) || StrLe(b, a)
    decreases |a|
  {
    if a != [] && b != [] && a[0] == b[0] {
      StrLeTotal(a[1..], b[1..]);
    }
  }

  lemma {:induction false} StrLeAntisymmetric(a: string, b: string)
    requires StrLe(a, b) && StrLe(b, a)
    ensures a == b
    decreases |a|
  {
    if a != [] {
      StrLeAntisymmetric(a[1..], b[1..]);
      assert a == [a[0]] + a[1..] && b == [b[0]] + b[1..];
    }
  }

  lemma {:induction false} StrLeTransitive(a: string, b: string, c: string)
    requires StrLe(a, b) && StrLe(b, c)
    ensures StrLe(a, c)
    decreases |a|
  {
    if a != [] && b != [] && c != [] && a[0] == b[0] && b[0] == c[0] {
      StrLeTransitive(a[1..], b[1..], c[1..]);
    }
  }

  /** SQLite's ascending order on a nullable text column: NULL sorts first. */
  predicate OptStrLe(a: Option<string>, b: Option<string>) {
    match a
    case None => true
    case Some(x) => b.Some? && StrLe(x, b.value)
  }

  lemma OptStrLeTotalOrder()
    ensures forall a, b :: OptStrLe(a, b) || OptStrLe(b, a)
    ensures forall a, b :: OptStrLe(a, b) && OptStrLe(b, a) ==> a == b
    ensures forall a, b, c :: OptStrLe(a, b) && OptStrLe(b, c) ==> OptStrLe(a, c)
  {
    forall a, b ensures OptStrLe(a, b) || OptStrLe(b, a) {
      if a.Some? && b.Some? { StrLeTotal(a.value, b.value); }
    }
    forall a, b | OptStrLe(a, b) && OptStrLe(b, a) ensures a == b {
      if a.Some? { StrLeAntisymmetric(a.value, b.value); }
    }
    forall a, b, c | OptStrLe(a, b) && OptStrLe(b, c) ensures OptStrLe(a, c) {
      if a.Some? { StrLeTransitive(a.value, b.value, c.value); }
    }
  }

  ghost predicate TotalPreorder<T(!new)>(le: (T, T) -> bool) {
    && (forall a, b :: le(a, b) || le(b, a))
    && (forall a, b, c :: le(a, b) && le(b, c) ==> le(a, c))
  }

  predicate SortedBy<T>(s: seq<T>, le: (T, T) -> bool) {
    forall i, j :: 0 <= i < j < |s| ==> le(s[i], s[j])
  }

  /** Inserts x before the first element it is <= to. */
  function InsertBy<T>(x: T, s: seq<T>, le: (T, T) -> bool): (r: seq<T>)
    ensures multiset(r) == multiset(s) + multiset{x}
    ensures |r| == |s| + 1
  {
    if s == [] then [x]
    else if le(x, s[0]) then [x] + s
    else
      assert s == [s[0]] + s[1..];
      [s[0]] + InsertBy(x, s[1..], le)
  }

  /** Insertion sort; stable, since each element goes before the equal ones after it. */
  function SortBy<T>(s: seq<T>, le: (T, T) -> bool): (r: seq<T>)
    ensures multiset(r) == multiset(s)
    ensures |r| == |s|
  {
    if s == [] then []
    else
      assert s == [s[0]] + s[1..];
      InsertBy(s[0], SortBy(s[1..], le), le)
  }

  /** Sorting neither adds nor drops elements. */
  lemma SortByMembers<T>(s: seq<T>, le: (T, T) -> bool)
    ensures forall x :: x in SortBy(s, le) <==> x in s
  {
    var r := SortBy(s, le);
    assert forall x :: x in r <==> x in multiset(r);
    assert forall x :: x in s <==> x in multiset(s);
  }

  lemma {:induction false} InsertBySorted<T(!new)>(x: T, s: seq<T>, le: (T, T) -> bool)
    requires TotalPreorder(le) && SortedBy(s, le)
    ensures SortedBy(InsertBy(x, s, le), le)
  {
    if s != [] && !le(x, s[0]) {
      InsertBySorted(x, s[1..], le);
      var tail := InsertBy(x, s[1..], le);
      assert le(s[0], x);
      forall k | 0 <= k < |tail| ensures le(s[0], tail[k]) {
        assert tail[k] in multiset(tail);
        assert tail[k] in multiset(s[1..]) + multiset{x};
        if tail[k] != x {
          assert tail[k] in s[1..];
        }
      }
    }
  }

  /** The sort's result is ordered and is a permutation of its input. */
  lemma {:induction false} SortBySorted<T(!new)>(s: seq<T>, le: (T, T) -> bool)
    requires TotalPreorder(le)
    ensures SortedBy(SortBy(s, le), le)
    ensures multiset(SortBy(s, le)) == multiset(s)
  {
    if s != [] {
      SortBySorted(s[1..], le);
      InsertBySorted(s[0], SortBy(s[1..], le), le);
    }
  }

  predicate StrLeFn(a: string, b: string) {
    StrLe(a, b)
  }

  lemma StrLeTotalPreorder()
    ensures TotalPreorder(StrLeFn)
  {
    forall a, b ensures StrLeFn(a, b) || StrLeFn(b, a) {
      StrLeTotal(a, b);
    }
    forall a, b, c | StrLeFn(a, b) && StrLeFn(b, c) ensures StrLeFn(a, c) {
      StrLeTransitive(a, b, c);
    }
  }

  /** No element occurs twice. */
  predicate Distinct<T(==)>(s: seq<T>) {
    forall i, j :: 0 <= i < j < |s| ==> s[i] != s[j]
  }

  lemma {:induction false} DistinctIffMultiplicity<T>(s: seq<T>)
    ensures Distinct(s) <==> forall x :: multiset(s)[x] <= 1
  {
    if s != [] {
      DistinctIffMultiplicity(s[1..]);
      assert s == [s[0]] + s[1..];
      if Distinct(s) {
        assert s[0] !in s[1..];
      } else {
        var i, j :| 0 <= i < j < |s| && s[i] == s[j];
        if i == 0 {
          assert s[j] in s[1..];
          assert multiset(s)[s[0]] >= 2;
        } else {
          assert !Distinct(s[1..]) by {
            assert s[1..][i - 1] == s[1..][j - 1];
          }
          var y :| multiset(s[1..])[y] > 1;
          assert multiset(s)[y] > 1;
        }
      }
    }
  }

  /** Sorting a sequence without repetitions gives one without repetitions. */
  lemma SortByDistinct<T>(s: seq<T>, le: (T, T) -> bool)
    requires Distinct(s)
    ensures Distinct(SortBy(s, le))
  {
    DistinctIffMultiplicity(s);
    DistinctIffMultiplicity(SortBy(s, le));
  }

  /** In a strictly increasing sequence of distinct strings, sortedness is strict. */
  lemma SortedDistinctStrictly(s: seq<string>)
    requires SortedBy(s, StrLeFn) && Distinct(s)
    ensures forall i, j :: 0 <= i < j < |s| ==> !StrLe(s[j], s[i])
  {
    forall i, j | 0 <= i < j < |s| ensures !StrLe(s[j], s[i]) {
      if StrLe(s[j], s[i]) {
        StrLeAntisymmetric(s[i], s[j]);
      }
    }
  }
}
