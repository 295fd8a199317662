/** Keyset pagination over calculation runs ordered by `completed_at DESC, id DESC`, NULL completion times last. */
module RunPages {
  import opened Outcomes
  import opened Queries

  /** A row of factor_ic_runs with status 'completed'. */
  datatype Run = Run(id: int, runId: string, completedAt: Option<int>)

  /** ORDER BY completed_at DESC, id DESC: `a` comes before `b`. */
  predicate Before(a: Run, b: Run) {
    match (a.completedAt, b.completedAt)
    case (Some(x), Some(y)) => x > y || (x == y && a.id > b.id)
    case (Some(_), None) => true
    case (None, Some(_)) => false
    case (None, None) => a.id > b.id
  }

  /** The complete result of the query without its limit: each run once, in order. */
  ghost predicate Ordered(view: seq<Run>) {
    forall i, j :: 0 <= i < j < |view| ==> Before(view[i], view[j])
  }

  /** `WHERE keep ... LIMIT limit` on the ordered view. */
  function Page(view: seq<Run>, keep: Run -> bool, limit: nat): seq<Run> {
    Limit(Select(keep, view), limit)
  }

  lemma {:induction false} SelectSplit(keep: Run -> bool, a: seq<Run>, b: seq<Run>)
    ensures Select(keep, a + b) == Select(keep, a) + Select(keep, b)
  {
    if a == [] {
      assert a + b == b;
    } else {
      assert (a + b)[1..] == a[1..] + b;
      SelectSplit(keep, a[1..], b);
    }
  }

  lemma {:induction false} SelectAll(keep: Run -> bool, a: seq<Run>, kept: bool)
    requires forall r :: r in a ==> keep(r) == kept
    ensures Select(keep, a) == if kept then a else []
  {
    if a == [] {
    } else {
      assert a[0] in a;
      SelectAll(keep, a[1..], kept);
    }
  }

  /** `keep` is a continuation: it lets through what comes after position `p`. */
  ghost predicate ResumesAfter(view: seq<Run>, keep: Run -> bool, p: nat)
    requires p < |view|
  {
    forall r :: r in view ==> (keep(r) <==> Before(view[p], r))
  }

  lemma HeadSkipped(view: seq<Run>, keep: Run -> bool, p: nat)
    requires Ordered(view) && p < |view| && ResumesAfter(view, keep, p)
    ensures Select(keep, view[..p + 1]) == []
  {
    forall r | r in view[..p + 1]
      ensures !keep(r)
    {
      var i :| 0 <= i <= p && view[i] == r;
      assert i < p ==> Before(view[i], view[p]);
    }
    SelectAll(keep, view[..p + 1], false);
  }

  lemma TailKept(view: seq<Run>, keep: Run -> bool, p: nat)
    requires Ordered(view) && p < |view| && ResumesAfter(view, keep, p)
    ensures Select(keep, view[p + 1..]) == view[p + 1..]
  {
    forall r | r in view[p + 1..]
      ensures keep(r)
    {
      var i :| p < i < |view| && view[i] == r;
    }
    SelectAll(keep, view[p + 1..], true);
  }

  lemma SelectPieces(keep: Run -> bool, view: seq<Run>, n: nat)
    requires n <= |view| && Select(keep, view[..n]) == [] && Select(keep, view[n..]) == view[n..]
    ensures Select(keep, view) == view[n..]
  {
    SelectSplit(keep, view[..n], view[n..]);
    assert view == view[..n] + view[n..];
  }

  lemma SelectAfter(view: seq<Run>, keep: Run -> bool, p: nat)
    requires Ordered(view) && p < |view| && ResumesAfter(view, keep, p)
    ensures Select(keep, view) == view[p + 1..]
  {
    HeadSkipped(view, keep, p);
    TailKept(view, keep, p);
    SelectPieces(keep, view, p + 1);
  }

  /** A continuation predicate that means "after the cursor" resumes right behind the cursor, whether or not the cursor
      is inside a group of equal completion times. */
  lemma PageResumes(view: seq<Run>, keep: Run -> bool, p: nat, limit: nat)
    requires Ordered(view) && p < |view| && ResumesAfter(view, keep, p)
    ensures Page(view, keep, limit) == if |view| - (p + 1) <= limit then view[p + 1..] else view[p + 1..p + 1 + limit]
  {
    SelectAfter(view, keep, p);
  }

  lemma FirstPage(view: seq<Run>, keep: Run -> bool, limit: nat)
    requires forall r :: r in view ==> keep(r)
    ensures Page(view, keep, limit) == if |view| <= limit then view else view[..limit]
  {
    SelectAll(keep, view, true);
  }
}
