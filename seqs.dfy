/**
 * The query shapes the services use on table rows: a WHERE filter, an
 * ORDER BY ... DESC on an integer column, and a LIMIT.
 */
module Seqs {

  /** Rows in `s`, in order, that satisfy `p`. */
  function Filter<T(!new)>(s: seq<T>, p: T -> bool): (r: seq<T>)
    ensures |r| <= |s|
    ensures forall x :: x in r <==> x in s && p(x)
    ensures multiset(r) <= multiset(s)
  {
    if s == [] then []
    else
      var rest := Filter(s[1..], p);
      assert s == [s[0]] + s[1..];
      if p(s[0]) then [s[0]] + rest else rest
  }

  /** A filter keeps every matching occurrence: it drops exactly the rows failing `p`. */
  lemma {:induction false} FilterCount<T(!new)>(s: seq<T>, p: T -> bool, x: T)
    ensures multiset(Filter(s, p))[x] == if p(x) then multiset(s)[x] else 0
  {
    if s != [] {
      FilterCount(s[1..], p, x);
      var rest := Filter(s[1..], p);
      assert s == [s[0]] + s[1..];
      assert multiset(s) == multiset{s[0]} + multiset(s[1..]);
      if p(s[0]) {
        assert Filter(s, p) == [s[0]] + rest;
        assert multiset(Filter(s, p)) == multiset{s[0]} + multiset(rest);
      } else {
        assert Filter(s, p) == rest;
      }
    }
  }

  /** The same, for every row at once. */
  lemma FilterCounts<T(!new)>(s: seq<T>, p: T -> bool)
    ensures forall x :: multiset(Filter(s, p))[x] == if p(x) then multiset(s)[x] else 0
  {
    forall x ensures multiset(Filter(s, p))[x] == if p(x) then multiset(s)[x] else 0 {
      FilterCount(s, p, x);
    }
  }

  /** No row occurs twice. */
  ghost predicate Distinct<T>(s: seq<T>) {
    forall i, j | 0 <= i < j < |s| :: s[i] != s[j]
  }

  /** Filtering rows that are all different leaves rows that are all different. */
  lemma {:induction false} FilterDistinct<T(!new)>(s: seq<T>, p: T -> bool)
    ensures Distinct(s) ==> Distinct(Filter(s, p))
  {
    if s != [] && Distinct(s) {
      assert Distinct(s[1..]) by {
        forall i, j | 0 <= i < j < |s[1..]| ensures s[1..][i] != s[1..][j] {
          assert s[1..][i] == s[i + 1] && s[1..][j] == s[j + 1];
        }
      }
      FilterDistinct(s[1..], p);
      var rest := Filter(s[1..], p);
      if p(s[0]) {
        assert s[0] !in s[1..] by {
          forall j | 0 <= j < |s[1..]| ensures s[1..][j] != s[0] {
            assert s[1..][j] == s[j + 1];
          }
        }
        var r := [s[0]] + rest;
        forall i, j | 0 <= i < j < |r| ensures r[i] != r[j] {
          assert r[j] == rest[j - 1];
          if i > 0 {
            assert r[i] == rest[i - 1];
          } else {
            assert rest[j - 1] in rest;
          }
        }
      }
    }
  }

  /** `key` does not increase along `s`: ORDER BY key DESC. */
  predicate Descending<T>(s: seq<T>, key: T -> int) {
    forall i, j | 0 <= i < j < |s| :: key(s[i]) >= key(s[j])
  }

  /** A head no smaller than the first row keeps a descending sequence descending. */
  lemma ConsDescending<T>(h: T, s: seq<T>, key: T -> int)
    requires Descending(s, key)
    requires s != [] ==> key(s[0]) <= key(h)
    ensures Descending([h] + s, key)
  {
    var r := [h] + s;
    forall i, j | 0 <= i < j < |r| ensures key(r[i]) >= key(r[j]) {
      assert r[j] == s[j - 1];
      if i > 0 {
        assert r[i] == s[i - 1];
      } else if j > 1 {
        assert key(s[0]) >= key(s[j - 1]);
      }
    }
  }

  /** Adding one row to a multiset of rows adds exactly that row to the members. */
  lemma AddedMembers<T>(r: seq<T>, s: seq<T>, x: T)
    requires multiset(r) == multiset(s) + multiset{x}
    ensures forall y :: y in r <==> y == x || y in s
  {
    forall y ensures y in r <==> y == x || y in s {
      assert y in r <==> multiset(r)[y] > 0;
      assert y in s <==> multiset(s)[y] > 0;
    }
  }

  /** Inserts `x` before the first row whose key does not exceed its own. */
  function Insert<T(!new)>(x: T, s: seq<T>, key: T -> int): (r: seq<T>)
    requires Descending(s, key)
    ensures Descending(r, key)
    ensures multiset(r) == multiset(s) + multiset{x}
    ensures forall y :: y in r <==> y == x || y in s
  {
    if s == [] then [x]
    else if key(x) >= key(s[0]) then
      ConsDescending(x, s, key);
      AddedMembers([x] + s, s, x);
      [x] + s
    else
      var rest := Insert(x, s[1..], key);
      assert s == [s[0]] + s[1..];
      assert rest[0] in rest;
      ConsDescending(s[0], rest, key);
      var r := [s[0]] + rest;
      assert multiset(r) == multiset{s[0]} + multiset(rest);
      assert multiset(s) == multiset{s[0]} + multiset(s[1..]);
      AddedMembers(r, s, x);
      r
  }

  /** An ORDER BY key DESC of `s`: the same rows, largest key first. */
  function SortDescending<T(!new)>(s: seq<T>, key: T -> int): (r: seq<T>)
    ensures Descending(r, key)
    ensures multiset(r) == multiset(s)
    ensures |r| == |s|
  {
    if s == [] then []
    else
      assert s == [s[0]] + s[1..];
      Insert(s[0], SortDescending(s[1..], key), key)
  }

  /** Ordering keeps exactly the rows it was given. */
  lemma SortedMembers<T(!new)>(s: seq<T>, key: T -> int)
    ensures forall x :: x in SortDescending(s, key) <==> x in s
  {
    var r := SortDescending(s, key);
    forall x ensures x in r <==> x in s {
      assert x in r <==> multiset(r)[x] > 0;
      assert x in s <==> multiset(s)[x] > 0;
    }
  }

  /** LIMIT n. */
  function Take<T>(s: seq<T>, n: nat): (r: seq<T>)
    ensures |r| == if n < |s| then n else |s|
    ensures r == s[..|r|]
    ensures multiset(r) <= multiset(s)
  {
    if n < |s| then
      assert s == s[..n] + s[n..];
      s[..n]
    else s
  }

  /**
   * ORDER BY key DESC LIMIT n returns the newest rows: a row left out has a
   * key no larger than any row returned.
   */
  lemma TopRows<T(!new)>(s: seq<T>, key: T -> int, n: nat, y: T)
    ensures y in s && y !in Take(SortDescending(s, key), n) ==>
      forall x | x in Take(SortDescending(s, key), n) :: key(y) <= key(x)
  {
    var sorted := SortDescending(s, key);
    var top := Take(sorted, n);
    if y !in s || y in top {
      return;
    }
    assert multiset(sorted)[y] == multiset(s)[y];
    assert y in sorted;
    var k :| 0 <= k < |sorted| && sorted[k] == y;
    assert k >= |top|;
    forall x | x in top ensures key(y) <= key(x) {
      var i :| 0 <= i < |top| && top[i] == x;
      assert sorted[i] == x;
    }
  }
}
