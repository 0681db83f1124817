/** Row selection over a table kept as a sequence: WHERE filters, COUNT(*),
    and the facts that a filter keeps the table's order and keys. */
module Relations {
  import opened PyStr
  import opened Ordering

  /** SELECT ... WHERE p: the rows satisfying p, in table order. */
  function Filter<T(!new)>(s: seq<T>, p: T -> bool): (r: seq<T>)
    ensures forall x :: x in r <==> x in s && p(x)
    ensures |r| <= |s|
  {
    if s == [] then []
    else
      assert s == [s[0]] + s[1..];
      if p(s[0]) then [s[0]] + Filter(s[1..], p) else Filter(s[1..], p)
  }

  /** Filtering a table with one more row at the end. */
  lemma {:induction false} FilterSnoc<T(!new)>(s: seq<T>, x: T, p: T -> bool)
    ensures Filter(s + [x], p) == Filter(s, p) + (if p(x) then [x] else [])
  {
    if s == [] {
      assert [x][1..] == [];
    } else {
      assert (s + [x])[1..] == s[1..] + [x];
      FilterSnoc(s[1..], x, p);
    }
  }

  /** Any pairwise relation the table satisfies in order, the selection satisfies too. */
  lemma {:induction false} FilterSorted<T(!new)>(s: seq<T>, p: T -> bool, rel: (T, T) -> bool)
    requires SortedBy(s, rel)
    ensures SortedBy(Filter(s, p), rel)
  {
    if s != [] {
      var tail := s[1..];
      assert SortedBy(tail, rel) by {
        forall i, j | 0 <= i < j < |tail| ensures rel(tail[i], tail[j]) {
          assert tail[i] == s[i + 1] && tail[j] == s[j + 1];
        }
      }
      FilterSorted(tail, p, rel);
      if p(s[0]) {
        var f := Filter(tail, p);
        forall k | 0 <= k < |f| ensures rel(s[0], f[k]) {
          assert f[k] in tail;
          var m :| 0 <= m < |tail| && tail[m] == f[k];
          assert s[m + 1] == f[k];
        }
      }
    }
  }

  /** A filter that keeps every row is the identity; one that keeps none is empty. */
  lemma {:induction false} FilterAllOrNone<T(!new)>(s: seq<T>, p: T -> bool)
    ensures (forall x :: x in s ==> p(x)) ==> Filter(s, p) == s
    ensures (forall x :: x in s ==> !p(x)) ==> Filter(s, p) == []
  {
    if s != [] {
      assert s == [s[0]] + s[1..];
      FilterAllOrNone(s[1..], p);
    }
  }

  /** The rows satisfying p and the rows failing it add up to the table. */
  lemma {:induction false} FilterSplit<T(!new)>(s: seq<T>, p: T -> bool, q: T -> bool)
    requires forall x :: q(x) == !p(x)
    ensures |Filter(s, p)| + |Filter(s, q)| == |s|
  {
    if s != [] {
      FilterSplit(s[1..], p, q);
    }
  }

  /** The first row satisfying p (fetchone() over an unordered SELECT). */
  function First<T(!new)>(s: seq<T>, p: T -> bool): (r: Option<T>)
    ensures r.Some? <==> exists x :: x in s && p(x)
    ensures r.Some? ==> r.value in s && p(r.value) && r.value == Filter(s, p)[0]
  {
    if s == [] then None
    else if p(s[0]) then Some(s[0])
    else
      assert s == [s[0]] + s[1..];
      First(s[1..], p)
  }

  /** A scan that has passed i rows failing p: the first row satisfying p
      is the next one that does, or there is none when the scan is complete. */
  lemma {:induction false} FirstIsEarliest<T(!new)>(s: seq<T>, p: T -> bool, i: int)
    requires 0 <= i <= |s|
    requires forall k :: 0 <= k < i ==> !p(s[k])
    ensures i < |s| && p(s[i]) ==> First(s, p) == Some(s[i])
    ensures i == |s| ==> First(s, p) == None
  {
    if i == |s| {
      forall x | x in s ensures !p(x) {
        var k :| 0 <= k < |s| && s[k] == x;
      }
    } else if i > 0 && p(s[i]) {
      var tail := s[1..];
      assert !p(s[0]);
      forall k | 0 <= k < i - 1 ensures !p(tail[k]) {
        assert tail[k] == s[k + 1];
      }
      assert First(s, p) == First(tail, p);
      FirstIsEarliest(tail, p, i - 1);
    }
  }

  /** Where the table's order relation forbids two rows both satisfying p
      (a UNIQUE key), at most one row is selected. */
  lemma {:induction false} FilterAtMostOne<T(!new)>(s: seq<T>, p: T -> bool, rel: (T, T) -> bool)
    requires SortedBy(s, rel)
    requires forall a, b :: rel(a, b) ==> !(p(a) && p(b))
    ensures |Filter(s, p)| <= 1
  {
    if s != [] {
      var tail := s[1..];
      assert SortedBy(tail, rel) by {
        forall i, j | 0 <= i < j < |tail| ensures rel(tail[i], tail[j]) {
          assert tail[i] == s[i + 1] && tail[j] == s[j + 1];
        }
      }
      if p(s[0]) {
        forall x | x in tail ensures !p(x) {
          var m :| 0 <= m < |tail| && tail[m] == x;
          assert rel(s[0], s[m + 1]);
        }
        FilterAllOrNone(tail, p);
      } else {
        FilterAtMostOne(tail, p, rel);
      }
    }
  }

  /** UPDATE ... SET ... WHERE p: f applied to the rows satisfying p, the other rows kept. */
  function MapWhere<T>(s: seq<T>, p: T -> bool, f: T -> T): (r: seq<T>)
    ensures |r| == |s|
    ensures forall i :: 0 <= i < |s| ==> r[i] == if p(s[i]) then f(s[i]) else s[i]
  {
    if s == [] then []
    else [if p(s[0]) then f(s[0]) else s[0]] + MapWhere(s[1..], p, f)
  }

  /** An update whose WHERE clause matches no row leaves the table as it was. */
  lemma MapWhereNoMatch<T>(s: seq<T>, p: T -> bool, f: T -> T)
    requires forall i :: 0 <= i < |s| ==> !p(s[i])
    ensures MapWhere(s, p, f) == s
  {
  }

  /** LIMIT n: the first n rows; a negative limit means no limit. */
  function Limit<T>(s: seq<T>, n: int): (r: seq<T>)
    ensures n < 0 ==> r == s
    ensures 0 <= n ==> |r| == if |s| < n then |s| else n
    ensures r == s[..|r|]
  {
    if n < 0 || |s| <= n then s else s[..n]
  }
}
