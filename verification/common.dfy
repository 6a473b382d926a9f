/** Shared vocabulary for both game engines: optional values, reducer
    results, and the handful of operations the reducers perform on a table.

    A table is modelled as a sequence of rows. Lookups are "find first",
    as an iterator's `find` is. The store keeps a table as a set of rows, so
    inserting a row that is already present changes nothing, and deleting a
    row value removes it entirely. */
module Common {

  datatype Option<T> = None | Some(value: T)

  /** Outcome of a reducer that may refuse: the new state, or an error that
      leaves the caller's state as it was. */
  datatype Result<T, E> = Ok(value: T) | Err(error: E)

  /** Index of the first row satisfying `p`, if any. */
  function FindIndex<T>(s: seq<T>, p: T -> bool): (r: Option<nat>)
    ensures r.Some? ==> r.value < |s| && p(s[r.value])
    ensures r.Some? ==> forall j :: 0 <= j < r.value ==> !p(s[j])
    ensures r.None? <==> forall j :: 0 <= j < |s| ==> !p(s[j])
  {
    if |s| == 0 then None
    else if p(s[0]) then Some(0)
    else
      match FindIndex(s[1..], p)
      case None => None
      case Some(k) => Some(k + 1)
  }

  /** The first row satisfying `p`, if any. */
  function Find<T>(s: seq<T>, p: T -> bool): (r: Option<T>)
    ensures r.Some? ==> r.value in s && p(r.value)
    ensures r.None? <==> forall x :: x in s ==> !p(x)
  {
    match FindIndex(s, p)
    case None => None
    case Some(i) => Some(s[i])
  }

  /** The rows satisfying `p`, in table order. */
  function Filter<T>(s: seq<T>, p: T -> bool): (r: seq<T>)
    ensures |r| <= |s|
    ensures forall x :: x in r ==> x in s && p(x)
    ensures forall x :: x in s && p(x) ==> x in r
  {
    if |s| == 0 then []
    else if p(s[0]) then [s[0]] + Filter(s[1..], p)
    else Filter(s[1..], p)
  }

  /** Insertion with set semantics: a row already present is not added again. */
  function Insert<T(==)>(s: seq<T>, x: T): (r: seq<T>)
    ensures x in r
    ensures forall y :: y in r ==> y in s || y == x
    ensures forall y :: y in s ==> y in r
    ensures x !in s ==> r == s + [x]
    ensures x in s ==> r == s
  {
    if x in s then s else s + [x]
  }

  /** Deletion of a row value: every copy of it goes. */
  function Remove<T(==)>(s: seq<T>, x: T): (r: seq<T>)
    ensures x !in r
    ensures forall y :: y in r ==> y in s && y != x
    ensures forall y :: y in s && y != x ==> y in r
  {
    if |s| == 0 then []
    else if s[0] == x then Remove(s[1..], x)
    else [s[0]] + Remove(s[1..], x)
  }

  /** No two rows of `s` share a key. */
  ghost predicate UniqueBy<T, K>(s: seq<T>, key: T -> K)
  {
    forall i, j :: 0 <= i < j < |s| ==> key(s[i]) != key(s[j])
  }

  lemma {:induction false} FilterKeepsUniqueBy<T, K>(s: seq<T>, p: T -> bool, key: T -> K)
    ensures UniqueBy(s, key) ==> UniqueBy(Filter(s, p), key)
    decreases |s|
  {
    if |s| > 0 && UniqueBy(s, key) {
      var rest := Filter(s[1..], p);
      assert UniqueBy(s[1..], key) by {
        forall i, j | 0 <= i < j < |s[1..]|
          ensures key(s[1..][i]) != key(s[1..][j])
        {
          assert s[1..][i] == s[i + 1] && s[1..][j] == s[j + 1];
        }
      }
      FilterKeepsUniqueBy(s[1..], p, key);
      if p(s[0]) {
        var r := [s[0]] + rest;
        forall i, j | 0 <= i < j < |r|
          ensures key(r[i]) != key(r[j])
        {
          if i == 0 {
            assert r[j] == rest[j - 1];
            assert rest[j - 1] in s[1..];
            var k :| 0 <= k < |s[1..]| && s[1..][k] == rest[j - 1];
            assert s[k + 1] == r[j];
          } else {
            assert r[i] == rest[i - 1] && r[j] == rest[j - 1];
          }
        }
      }
    }
  }

  lemma {:induction false} RemoveKeepsUniqueBy<T, K>(s: seq<T>, x: T, key: T -> K)
    ensures UniqueBy(s, key) ==> UniqueBy(Remove(s, x), key)
    decreases |s|
  {
    if |s| > 0 && UniqueBy(s, key) {
      var rest := Remove(s[1..], x);
      assert UniqueBy(s[1..], key) by {
        forall i, j | 0 <= i < j < |s[1..]|
          ensures key(s[1..][i]) != key(s[1..][j])
        {
          assert s[1..][i] == s[i + 1] && s[1..][j] == s[j + 1];
        }
      }
      RemoveKeepsUniqueBy(s[1..], x, key);
      if s[0] != x {
        var r := [s[0]] + rest;
        forall i, j | 0 <= i < j < |r|
          ensures key(r[i]) != key(r[j])
        {
          if i == 0 {
            assert r[j] == rest[j - 1];
            assert rest[j - 1] in s[1..];
            var k :| 0 <= k < |s[1..]| && s[1..][k] == rest[j - 1];
            assert s[k + 1] == r[j];
          } else {
            assert r[i] == rest[i - 1] && r[j] == rest[j - 1];
          }
        }
      }
    }
  }

  lemma AppendKeepsUniqueBy<T, K>(s: seq<T>, x: T, key: T -> K)
    requires forall y :: y in s ==> key(y) != key(x)
    ensures UniqueBy(s, key) ==> UniqueBy(s + [x], key)
  {
    if UniqueBy(s, key) {
      var r := s + [x];
      forall i, j | 0 <= i < j < |r|
        ensures key(r[i]) != key(r[j])
      {
        if j == |s| {
          assert r[i] == s[i];
          assert r[i] in s;
        } else {
          assert r[i] == s[i] && r[j] == s[j];
        }
      }
    }
  }

  /** With unique keys, two rows that share a key are the same row. */
  lemma UniqueByIdentifies<T, K>(s: seq<T>, key: T -> K, x: T, y: T)
    requires UniqueBy(s, key)
    requires x in s && y in s && key(x) == key(y)
    ensures x == y
  {
    var i :| 0 <= i < |s| && s[i] == x;
    var j :| 0 <= j < |s| && s[j] == y;
    assert key(s[i]) == key(s[j]);
  }
}
