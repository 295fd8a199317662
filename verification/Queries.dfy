/** Row-level meaning of WHERE and LIMIT over rows that are already in the order of the query, and two facts about
    collections that several modules need. */
module Queries {

  function Select<T>(keep: T -> bool, rows: seq<T>): seq<T> {
    if rows == [] then []
    else if keep(rows[0]) then [rows[0]] + Select(keep, rows[1..])
    else Select(keep, rows[1..])
  }

  function Limit<T>(rows: seq<T>, n: nat): seq<T> {
    if |rows| <= n then rows else rows[..n]
  }

  lemma {:induction false} SelectContents<T>(keep: T -> bool, rows: seq<T>)
    ensures forall x :: x in Select(keep, rows) <==> x in rows && keep(x)
    ensures |Select(keep, rows)| <= |rows|
  {
    if rows == [] {
    } else {
      SelectContents(keep, rows[1..]);
      assert forall x :: x in rows <==> x == rows[0] || x in rows[1..];
    }
  }

  lemma NothingIn<T>(s: seq<T>)
    ensures s == [] || exists x :: x in s
  {
    if s != [] {
      assert s[0] in s;
    }
  }

  lemma Fewer<T>(a: set<T>, b: set<T>)
    requires a <= b
    ensures |a| <= |b|
  {
    assert b == a + (b - a);
  }
}
