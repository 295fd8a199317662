/** Stable sorting by a comparison, as `sorted` does it. */
module StableSort {

  /** Asymmetric, and "not before" is transitive. */
  ghost predicate WeakOrder<T(!new)>(less: (T, T) -> bool, rows: seq<T>) {
    (forall a, b :: a in rows && b in rows && less(a, b) ==> !less(b, a))
    && forall a, b, c :: a in rows && b in rows && c in rows && !less(a, b) && !less(b, c) ==> !less(a, c)
  }

  ghost predicate Sorted<T>(less: (T, T) -> bool, rows: seq<T>) {
    forall i, j :: 0 <= i < j < |rows| ==> !less(rows[j], rows[i])
  }

  /** Before the first row that is greater: equal rows keep their order. */
  function Insert<T>(less: (T, T) -> bool, x: T, rows: seq<T>): seq<T> {
    if rows == [] then [x]
    else if less(x, rows[|rows| - 1]) then Insert(less, x, rows[..|rows| - 1]) + [rows[|rows| - 1]]
    else rows + [x]
  }

  /** `sorted` with a comparison. */
  function SortBy<T>(less: (T, T) -> bool, rows: seq<T>): seq<T> {
    if rows == [] then [] else Insert(less, rows[|rows| - 1], SortBy(less, rows[..|rows| - 1]))
  }

  lemma {:induction false} InsertContents<T(!new)>(less: (T, T) -> bool, x: T, rows: seq<T>)
    ensures forall y :: y in Insert(less, x, rows) <==> y in rows || y == x
    ensures |Insert(less, x, rows)| == |rows| + 1
  {
    if rows == [] {
    } else {
      InsertContents(less, x, rows[..|rows| - 1]);
      assert forall y :: y in rows <==> y in rows[..|rows| - 1] || y == rows[|rows| - 1];
    }
  }

  lemma {:induction false} SortContents<T(!new)>(less: (T, T) -> bool, rows: seq<T>)
    ensures forall y :: y in SortBy(less, rows) <==> y in rows
    ensures |SortBy(less, rows)| == |rows|
  {
    if rows == [] {
    } else {
      SortContents(less, rows[..|rows| - 1]);
      InsertContents(less, rows[|rows| - 1], SortBy(less, rows[..|rows| - 1]));
      assert forall y :: y in rows <==> y in rows[..|rows| - 1] || y == rows[|rows| - 1];
    }
  }

  lemma {:induction false} InsertSorted<T(!new)>(less: (T, T) -> bool, x: T, rows: seq<T>, all: seq<T>)
    requires WeakOrder(less, all) && Sorted(less, rows) && x in all && forall y :: y in rows ==> y in all
    ensures Sorted(less, Insert(less, x, rows))
  {
    if rows == [] {
    } else {
      var rest, last := rows[..|rows| - 1], rows[|rows| - 1];
      assert last in rows;
      if less(x, last) {
        InsertSorted(less, x, rest, all);
        InsertContents(less, x, rest);
        var left := Insert(less, x, rest);
        forall i | 0 <= i < |left|
          ensures !less(last, left[i])
        {
          assert left[i] in left && (left[i] in rest || left[i] == x);
          assert forall k :: 0 <= k < |rest| ==> !less(last, rest[k]);
        }
      } else {
        forall i | 0 <= i < |rows|
          ensures !less(x, rows[i])
        {
          assert rows[i] in rows;
          assert i < |rows| - 1 ==> !less(last, rows[i]);
        }
      }
    }
  }

  lemma {:induction false} SortSorted<T(!new)>(less: (T, T) -> bool, rows: seq<T>, all: seq<T>)
    requires WeakOrder(less, all) && forall y :: y in rows ==> y in all
    ensures Sorted(less, SortBy(less, rows))
  {
    if rows == [] {
    } else {
      var rest, last := rows[..|rows| - 1], rows[|rows| - 1];
      SortSorted(less, rest, all);
      SortContents(less, rest);
      assert forall y :: y in SortBy(less, rest) ==> y in rest && y in rows;
      InsertSorted(less, last, SortBy(less, rest), all);
    }
  }

  lemma {:induction false} InsertAgrees<T(!new)>(
      f: (T, T) -> bool, g: (T, T) -> bool, x: T, rows: seq<T>)
    requires forall y :: y in rows ==> f(x, y) == g(x, y)
    ensures Insert(f, x, rows) == Insert(g, x, rows)
  {
    if rows == [] {
    } else {
      InsertAgrees(f, g, x, rows[..|rows| - 1]);
    }
  }

  /** Sorting looks only at comparisons of the rows it sorts. */
  lemma {:induction false} SortAgrees<T(!new)>(f: (T, T) -> bool, g: (T, T) -> bool, rows: seq<T>)
    requires forall x, y :: x in rows && y in rows ==> f(x, y) == g(x, y)
    ensures SortBy(f, rows) == SortBy(g, rows)
  {
    if rows == [] {
    } else {
      SortAgrees(f, g, rows[..|rows| - 1]);
      SortContents(g, rows[..|rows| - 1]);
      assert forall y :: y in SortBy(g, rows[..|rows| - 1]) ==> y in rows[..|rows| - 1] && y in rows;
      InsertAgrees(f, g, rows[|rows| - 1], SortBy(g, rows[..|rows| - 1]));
    }
  }

  lemma LastCounted<T>(rows: seq<T>)
    requires rows != []
    ensures multiset(rows) == multiset(rows[..|rows| - 1]) + multiset{rows[|rows| - 1]}
  {
    assert rows == rows[..|rows| - 1] + [rows[|rows| - 1]];
  }

  lemma {:induction false} InsertPermutes<T>(less: (T, T) -> bool, x: T, rows: seq<T>)
    ensures multiset(Insert(less, x, rows)) == multiset(rows) + multiset{x}
  {
    if rows == [] {
    } else {
      InsertPermutes(less, x, rows[..|rows| - 1]);
      LastCounted(rows);
    }
  }

  lemma {:induction false} SortPermutes<T>(less: (T, T) -> bool, rows: seq<T>)
    ensures multiset(SortBy(less, rows)) == multiset(rows)
  {
    if rows == [] {
    } else {
      SortPermutes(less, rows[..|rows| - 1]);
      InsertPermutes(less, rows[|rows| - 1], SortBy(less, rows[..|rows| - 1]));
      LastCounted(rows);
    }
  }
}
