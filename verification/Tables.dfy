/** Tables as sequences of rows: what SELECT, UPDATE and DELETE statements do to them. */
module Tables {

  /** No two rows agree on `key`. */
  ghost predicate Unique<T(!new), K>(rows: seq<T>, key: T -> K) {
    forall i, j :: 0 <= i < j < |rows| ==> key(rows[i]) != key(rows[j])
  }

  function Filter<T(!new)>(rows: seq<T>, keep: T -> bool): (kept: seq<T>)
    ensures forall x :: x in kept <==> x in rows && keep(x)
    ensures |kept| <= |rows|
  {
    if rows == [] then []
    else (if keep(rows[0]) then [rows[0]] else []) + Filter(rows[1..], keep)
  }

  function Update<T(!new)>(rows: seq<T>, f: T -> T): (updated: seq<T>)
    ensures |updated| == |rows| && forall i :: 0 <= i < |rows| ==> updated[i] == f(rows[i])
  {
    seq(|rows|, i requires 0 <= i < |rows| => f(rows[i]))
  }

  /** The first row with `test`, or the length of the table. */
  function Find<T(!new)>(rows: seq<T>, test: T -> bool): (i: nat)
    ensures i <= |rows| && (i < |rows| ==> test(rows[i]))
    ensures forall j :: 0 <= j < i ==> !test(rows[j])
  {
    if rows == [] || test(rows[0]) then 0 else 1 + Find(rows[1..], test)
  }

  lemma {:induction false} FilterUnique<T(!new), K>(rows: seq<T>, keep: T -> bool, key: T -> K)
    requires Unique(rows, key)
    ensures Unique(Filter(rows, keep), key)
  {
    if rows != [] {
      FilterUnique(rows[1..], keep, key);
      var rest := Filter(rows[1..], keep);
      forall j | 0 <= j < |rest| ensures key(rest[j]) != key(rows[0]) {
        assert rest[j] in rest;
        var k :| 1 <= k < |rows| && rows[k] == rest[j];
      }
    }
  }

  lemma {:induction false} FilterTwice<T(!new)>(rows: seq<T>, p: T -> bool, q: T -> bool, both: T -> bool)
    requires forall x :: x in rows ==> both(x) == (p(x) && q(x))
    ensures Filter(Filter(rows, p), q) == Filter(rows, both)
  {
    if rows != [] {
      FilterTwice(rows[1..], p, q, both);
      var rest := Filter(rows[1..], p);
      if p(rows[0]) {
        assert ([rows[0]] + rest)[1..] == rest;
      } else {
        assert [] + rest == rest;
      }
    }
  }

  lemma {:induction false} FilterAll<T(!new)>(rows: seq<T>, keep: T -> bool)
    requires forall x :: x in rows ==> keep(x)
    ensures Filter(rows, keep) == rows
  {
    if rows != [] {
      FilterAll(rows[1..], keep);
    }
  }

  /** A filtered table holds each kept row as often as the table did. */
  lemma {:induction false} FilterCounts<T(!new)>(rows: seq<T>, keep: T -> bool, x: T)
    ensures multiset(Filter(rows, keep))[x] == if keep(x) then multiset(rows)[x] else 0
  {
    if rows != [] {
      FilterCounts(rows[1..], keep, x);
      assert rows == [rows[0]] + rows[1..];
    }
  }
}
