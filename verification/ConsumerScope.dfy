/** `Factor4ConsumerRepository.initial_scope`: the newest scope of a shape, found page by page. */
module ConsumerScope {
  import opened Outcomes
  import opened RunPages

  /** A row of factor_ic_summary_metrics; `keys` stands for the selected scope columns. */
  datatype Summary = Summary(id: int, runId: string, isSubFactor: bool, icScope: string, symbol: string, keys: string)

  const BATCH_SIZE: nat := 32
  const MAXIMUM_BATCHES: nat := 8

  datatype Answer =
    | Seed(keys: string)
    | Absent
    | SearchIncomplete(checkedRuns: nat)
    | UnsupportedShape

  predicate KnownShape(shape: string) {
    shape in {"ts_symbol", "ts_aggregate", "cs_aggregate"}
  }

  /** The WHERE clause of the candidate query. */
  predicate Fits(shape: string, s: Summary) {
    && s.isSubFactor
    && s.icScope == (if shape == "cs_aggregate" then "cross_sectional" else "time_series")
    && (if shape == "ts_symbol" then s.symbol != "" else s.symbol == "")
  }

  predicate Candidate(shape: string, run: Run, s: Summary) {
    s.runId == run.runId && Fits(shape, s)
  }

  ghost predicate HasCandidate(shape: string, summaries: seq<Summary>, run: Run) {
    exists s :: s in summaries && Candidate(shape, run, s)
  }

  /** The candidate query of one run: the fitting row with the greatest id. */
  function Latest(shape: string, summaries: seq<Summary>, run: Run): (r: Option<Summary>)
    ensures r.None? <==> !HasCandidate(shape, summaries, run)
    ensures r.Some? ==> r.value in summaries && Candidate(shape, run, r.value)
    ensures r.Some? ==> forall s :: s in summaries && Candidate(shape, run, s) ==> s.id <= r.value.id
  {
    if summaries == [] then None
    else
      var rest := Latest(shape, summaries[1..], run);
      var first := summaries[0];
      assert forall s :: s in summaries <==> s == first || s in summaries[1..];
      if Candidate(shape, run, first) && (rest.None? || first.id >= rest.value.id) then Some(first) else rest
  }

  /** The page after the cursor: `completed_at < c OR (completed_at = c AND id < c.id)`. */
  predicate Continues(cursor: Option<Run>, run: Run) {
    match cursor
    case None => true
    case Some(c) =>
      c.completedAt.Some? && run.completedAt.Some?
      && (run.completedAt.value < c.completedAt.value
          || (run.completedAt.value == c.completedAt.value && run.id < c.id))
  }

  /** Summary `s` of run `run` is the newest of the shape: greatest completion time, then greatest summary id. */
  ghost predicate Newest(shape: string, view: seq<Run>, summaries: seq<Summary>, run: Run, s: Summary) {
    && run in view && s in summaries && Candidate(shape, run, s)
    && forall other, t :: other in view && t in summaries && Candidate(shape, other, t) ==>
         Earlier(other, run) || (other.completedAt == run.completedAt && t.id <= s.id)
  }

  predicate Earlier(a: Run, b: Run) {
    a.completedAt.Some? && b.completedAt.Some? && a.completedAt.value < b.completedAt.value
  }

  /** The visible view: completed runs whose completion time is at most the cutoff, hence not NULL. */
  ghost predicate Visible(view: seq<Run>) {
    Ordered(view) && forall run :: run in view ==> run.completedAt.Some?
  }

  /** The best candidate among the first `n` runs, all candidates of which share the completion time of run `n - 1`. */
  ghost predicate Progress(shape: string, view: seq<Run>, summaries: seq<Summary>, n: nat, best: Option<Summary>) {
    && n <= |view|
    && (best.None? ==>
          forall i {:trigger HasCandidate(shape, summaries, view[i])} ::
            0 <= i < n ==> !HasCandidate(shape, summaries, view[i]))
    && (best.Some? ==>
          && n > 0
          && (exists i {:trigger Candidate(shape, view[i], best.value)} ::
                0 <= i < n && best.value in summaries && Candidate(shape, view[i], best.value)
                && view[i].completedAt == view[n - 1].completedAt)
          && (forall i, t {:trigger Candidate(shape, view[i], t)} ::
                0 <= i < n && t in summaries && Candidate(shape, view[i], t) ==>
                view[i].completedAt == view[n - 1].completedAt && t.id <= best.value.id))
  }

  /** The exact reason why the search can give up: the budget of runs ends before a candidate was found, or inside the
      group of equal completion times that holds the newest candidate. */
  ghost predicate BudgetTooSmall(shape: string, view: seq<Run>, summaries: seq<Summary>) {
    var budget := BATCH_SIZE * MAXIMUM_BATCHES;
    |view| > budget
    && forall i :: 0 <= i < budget && HasCandidate(shape, summaries, view[i]) ==>
         view[i].completedAt == view[budget].completedAt
  }

  lemma PageOf(view: seq<Run>, cursor: Option<Run>, n: nat)
    requires Visible(view) && n <= |view|
    requires cursor == if n == 0 then None else Some(view[n - 1])
    ensures Page(view, r => Continues(cursor, r), BATCH_SIZE + 1)
         == if |view| - n <= BATCH_SIZE + 1 then view[n..] else view[n..n + BATCH_SIZE + 1]
  {
    if n == 0 {
      FirstPage(view, r => Continues(cursor, r), BATCH_SIZE + 1);
      assert view[0..] == view;
    } else {
      assert view[n - 1] in view;
      PageResumes(view, r => Continues(cursor, r), n - 1, BATCH_SIZE + 1);
    }
  }

  /** A completion time lower than the group of the best candidate closes the search. */
  lemma LowerTimeDecides(shape: string, view: seq<Run>, summaries: seq<Summary>, n: nat, best: Summary)
    returns (run: Run)
    requires Visible(view) && Progress(shape, view, summaries, n, Some(best))
    requires n == |view| || view[n].completedAt != view[n - 1].completedAt
    ensures Newest(shape, view, summaries, run, best)
  {
    var i :| 0 <= i < n && best in summaries && Candidate(shape, view[i], best)
      && view[i].completedAt == view[n - 1].completedAt;
    run := view[i];
    forall other, t | other in view && t in summaries && Candidate(shape, other, t)
      ensures Earlier(other, run) || (other.completedAt == run.completedAt && t.id <= best.id)
    {
      var j :| 0 <= j < |view| && view[j] == other;
      if j >= n {
        assert Before(view[n - 1], view[n]);
        assert j == n || Before(view[n], view[j]);
      }
    }
  }

  /** The search may stop with `best`: it is the newest candidate, or there is none at all. */
  ghost predicate Decided(shape: string, view: seq<Run>, summaries: seq<Summary>, best: Option<Summary>) {
    && (best.None? ==> forall run :: run in view ==> !HasCandidate(shape, summaries, run))
    && (best.Some? ==> exists run :: Newest(shape, view, summaries, run, best.value))
    && !BudgetTooSmall(shape, view, summaries)
  }

  lemma GroupFinished(shape: string, view: seq<Run>, summaries: seq<Summary>, n: nat, best: Option<Summary>)
    requires Visible(view) && Progress(shape, view, summaries, n, best)
    requires n == |view| || (best.Some? && view[n].completedAt != view[n - 1].completedAt)
    requires n <= BATCH_SIZE * MAXIMUM_BATCHES
    ensures Decided(shape, view, summaries, best)
  {
    var budget := BATCH_SIZE * MAXIMUM_BATCHES;
    if best.Some? {
      var run := LowerTimeDecides(shape, view, summaries, n, best.value);
      var i :| 0 <= i < n && best.value in summaries && Candidate(shape, view[i], best.value)
        && view[i].completedAt == view[n - 1].completedAt;
      assert HasCandidate(shape, summaries, view[i]);
      if |view| > budget {
        assert Before(view[n - 1], view[n]);
        assert budget == n || Before(view[n], view[budget]);
      }
    } else {
      forall run | run in view
        ensures !HasCandidate(shape, summaries, run)
      {
        var j :| 0 <= j < |view| && view[j] == run;
      }
    }
  }

  lemma ProgressStep(shape: string, view: seq<Run>, summaries: seq<Summary>, n: nat,
                     best: Option<Summary>, candidate: Option<Summary>, next: Option<Summary>)
    requires Progress(shape, view, summaries, n, best) && n < |view|
    requires best.Some? ==> view[n].completedAt == view[n - 1].completedAt
    requires candidate == Latest(shape, summaries, view[n])
    requires next == if candidate.Some? && (best.None? || candidate.value.id > best.value.id) then candidate else best
    ensures Progress(shape, view, summaries, n + 1, next)
  {
    if next.Some? {
      if next == candidate {
        assert Candidate(shape, view[n], next.value);
      } else {
        var i :| 0 <= i < n && best.value in summaries && Candidate(shape, view[i], best.value)
          && view[i].completedAt == view[n - 1].completedAt;
      }
      forall i, t | 0 <= i < n + 1 && t in summaries && Candidate(shape, view[i], t)
        ensures view[i].completedAt == view[n].completedAt && t.id <= next.value.id
      {
        assert HasCandidate(shape, summaries, view[i]);
      }
    }
  }

  /** The candidate query of run `n`, which goes to the log. */
  method Inspect(shape: string, view: seq<Run>, summaries: seq<Summary>, n: nat, best: Option<Summary>,
                 ghost log: seq<Run>)
    returns (next: Option<Summary>, ghost inspected: seq<Run>)
    requires Progress(shape, view, summaries, n, best) && n < |view| && log == view[..n]
    requires best.Some? ==> view[n].completedAt == view[n - 1].completedAt
    ensures Progress(shape, view, summaries, n + 1, next) && inspected == view[..n + 1]
  {
    var candidate := Latest(shape, summaries, view[n]);
    inspected := log + [view[n]];
    next := if candidate.Some? && (best.None? || candidate.value.id > best.value.id) then candidate else best;
    ProgressStep(shape, view, summaries, n, best, candidate, next);
  }

  /** One run of a page: a lower completion time behind a found candidate closes the search. */
  method CheckRun(shape: string, view: seq<Run>, summaries: seq<Summary>, run: Run, n: nat,
                  found: Option<Summary>, previousCompletion: Option<int>, ghost log: seq<Run>)
    returns (best: Option<Summary>, currentCompletion: Option<int>, complete: bool, ghost inspected: seq<Run>)
    requires Visible(view) && n < |view| && run == view[n] && log == view[..n]
    requires Progress(shape, view, summaries, n, found) && n < BATCH_SIZE * MAXIMUM_BATCHES
    requires previousCompletion == if n == 0 then None else view[n - 1].completedAt
    ensures complete ==> Decided(shape, view, summaries, best) && inspected == log
    ensures !complete ==> Progress(shape, view, summaries, n + 1, best) && inspected == view[..n + 1]
    ensures !complete ==> currentCompletion == view[n].completedAt
  {
    best, currentCompletion, complete, inspected := found, previousCompletion, false, log;
    assert run in view;
    if currentCompletion != run.completedAt {
      if best.Some? {
        GroupFinished(shape, view, summaries, n, best);
        complete := true;
        return;
      }
      currentCompletion := run.completedAt;
    }
    best, inspected := Inspect(shape, view, summaries, n, best, inspected);
  }

  /** The inner loop: the runs of one page, up to the first one of a lower completion time than a found candidate. */
  method CheckPage(shape: string, view: seq<Run>, summaries: seq<Summary>, page: seq<Run>, start: nat,
                   found: Option<Summary>, ghost log: seq<Run>)
    returns (best: Option<Summary>, checkedRuns: nat, complete: bool, ghost inspected: seq<Run>)
    requires Visible(view) && start + |page| <= |view| && log == view[..start]
    requires forall i :: 0 <= i < |page| ==> page[i] == view[start + i]
    requires Progress(shape, view, summaries, start, found) && start + |page| <= BATCH_SIZE * MAXIMUM_BATCHES
    ensures start <= checkedRuns <= start + |page| && inspected == view[..checkedRuns]
    ensures complete ==> Decided(shape, view, summaries, best)
    ensures !complete ==> checkedRuns == start + |page| && Progress(shape, view, summaries, checkedRuns, best)
  {
    best, checkedRuns, complete, inspected := found, start, false, log;
    var currentCompletion := if start == 0 then None else view[start - 1].completedAt;
    for i := 0 to |page|
      invariant !complete && checkedRuns == start + i && inspected == view[..checkedRuns]
      invariant currentCompletion == if checkedRuns == 0 then None else view[checkedRuns - 1].completedAt
      invariant Progress(shape, view, summaries, checkedRuns, best)
    {
      best, currentCompletion, complete, inspected :=
        CheckRun(shape, view, summaries, page[i], checkedRuns, best, currentCompletion, inspected);
      if complete {
        break;
      }
      checkedRuns := checkedRuns + 1;
    }
  }

  /** Where the search stands before a page: `n` runs checked, and none of the pages so far closed the search. */
  ghost predicate Standing(shape: string, view: seq<Run>, summaries: seq<Summary>, n: nat, best: Option<Summary>) {
    && Progress(shape, view, summaries, n, best)
    && (n > 0 ==> n < |view| && (best.Some? ==> view[n].completedAt == view[n - 1].completedAt))
  }

  /** The run query of a batch: the next rows of the view, with one row of look-ahead. */
  method FetchRuns(view: seq<Run>, cursor: Option<Run>, n: nat) returns (page: seq<Run>, ahead: Option<Run>)
    requires Visible(view) && n <= |view|
    requires cursor == if n == 0 then None else Some(view[n - 1])
    ensures n + |page| <= |view| && page == view[n..n + |page|] && |page| <= BATCH_SIZE
    ensures ahead.None? ==> n + |page| == |view|
    ensures ahead.Some? ==> |page| == BATCH_SIZE && n + BATCH_SIZE < |view| && ahead.value == view[n + BATCH_SIZE]
  {
    var runs := Page(view, r => Continues(cursor, r), BATCH_SIZE + 1);
    PageOf(view, cursor, n);
    page := if |runs| <= BATCH_SIZE then runs else runs[..BATCH_SIZE];
    ahead := if |runs| <= BATCH_SIZE then None else Some(runs[BATCH_SIZE]);
  }

  /** One batch of the outer loop: fetch up to 33 runs, check up to 32 of them, look at the last one. */
  method DiscoverBatch(shape: string, view: seq<Run>, summaries: seq<Summary>, cursor: Option<Run>, n: nat,
                       found: Option<Summary>, ghost log: seq<Run>)
    returns (best: Option<Summary>, checkedRuns: nat, complete: bool, next: Option<Run>, ghost inspected: seq<Run>)
    requires Visible(view) && n + BATCH_SIZE <= BATCH_SIZE * MAXIMUM_BATCHES
    requires Standing(shape, view, summaries, n, found) && log == view[..n]
    requires cursor == if n == 0 then None else Some(view[n - 1])
    ensures n <= checkedRuns <= n + BATCH_SIZE && checkedRuns <= |view| && inspected == view[..checkedRuns]
    ensures complete ==> Decided(shape, view, summaries, best)
    ensures !complete ==> checkedRuns == n + BATCH_SIZE && Standing(shape, view, summaries, checkedRuns, best)
    ensures !complete ==> next == Some(view[checkedRuns - 1])
  {
    next, inspected := cursor, log;
    var page, ahead := FetchRuns(view, cursor, n);
    if page == [] {
      GroupFinished(shape, view, summaries, n, found);
      return found, n, true, next, inspected;
    }
    best, checkedRuns, complete, inspected := CheckPage(shape, view, summaries, page, n, found, log);
    if complete {
      return;
    }
    assert page[|page| - 1] == view[checkedRuns - 1];
    // With a full page, a lower completion time in the look-ahead row closes the group, ties across pages included.
    if ahead.None? || (best.Some? && ahead.value.completedAt != page[|page| - 1].completedAt) {
      GroupFinished(shape, view, summaries, checkedRuns, best);
      return best, checkedRuns, true, next, inspected;
    }
    next := Some(page[|page| - 1]);
  }

  /** The outer loop. */
  method DiscoverBest(shape: string, view: seq<Run>, summaries: seq<Summary>)
    returns (best: Option<Summary>, checkedRuns: nat, discoveryComplete: bool, ghost inspected: seq<Run>)
    requires Visible(view)
    ensures checkedRuns <= |view| && inspected == view[..checkedRuns] && checkedRuns <= BATCH_SIZE * MAXIMUM_BATCHES
    ensures discoveryComplete ==> Decided(shape, view, summaries, best)
    ensures !discoveryComplete ==> BudgetTooSmall(shape, view, summaries)
  {
    best, checkedRuns, discoveryComplete, inspected := None, 0, false, [];
    var cursor: Option<Run> := None;
    for batch := 0 to MAXIMUM_BATCHES
      invariant !discoveryComplete && checkedRuns == batch * BATCH_SIZE <= |view| && inspected == view[..checkedRuns]
      invariant cursor == if checkedRuns == 0 then None else Some(view[checkedRuns - 1])
      invariant Standing(shape, view, summaries, checkedRuns, best)
    {
      best, checkedRuns, discoveryComplete, cursor, inspected :=
        DiscoverBatch(shape, view, summaries, cursor, checkedRuns, best, inspected);
      if discoveryComplete {
        break;
      }
    }
    if !discoveryComplete {
      BudgetSpent(shape, view, summaries, best);
    }
  }

  /** The paged search refines the global maximum over all visible runs, and gives up exactly when its budget ends
      before the newest group of candidates is known to be complete.  The runs it inspects, logged at
      each candidate query, are the first `checkedRuns` of the view, each of them once. */
  method InitialScope(shape: string, view: seq<Run>, summaries: seq<Summary>)
    returns (answer: Answer, checkedRuns: nat, ghost inspected: seq<Run>)
    requires Visible(view)
    ensures answer.UnsupportedShape? <==> !KnownShape(shape)
    ensures answer.Seed? ==> exists run, s :: Newest(shape, view, summaries, run, s) && s.keys == answer.keys
    ensures answer.Absent? ==> forall run :: run in view ==> !HasCandidate(shape, summaries, run)
    ensures answer.SearchIncomplete? <==> KnownShape(shape) && BudgetTooSmall(shape, view, summaries)
    ensures answer.SearchIncomplete? ==> answer.checkedRuns == checkedRuns
    ensures checkedRuns <= |view| && checkedRuns <= BATCH_SIZE * MAXIMUM_BATCHES
    ensures inspected == view[..checkedRuns]
  {
    if !KnownShape(shape) {
      return UnsupportedShape, 0, [];
    }
    var best, checked, discoveryComplete;
    best, checked, discoveryComplete, inspected := DiscoverBest(shape, view, summaries);
    checkedRuns := checked;
    if !discoveryComplete {
      return SearchIncomplete(checkedRuns), checkedRuns, inspected;
    }
    answer := if best.Some? then Seed(best.value.keys) else Absent;
  }

  lemma BudgetSpent(shape: string, view: seq<Run>, summaries: seq<Summary>, best: Option<Summary>)
    requires Progress(shape, view, summaries, BATCH_SIZE * MAXIMUM_BATCHES, best)
    requires |view| > BATCH_SIZE * MAXIMUM_BATCHES
    requires var n := BATCH_SIZE * MAXIMUM_BATCHES; best.Some? ==> view[n].completedAt == view[n - 1].completedAt
    ensures BudgetTooSmall(shape, view, summaries)
  {
  }

  /** At most 256 visible runs are always enough. */
  lemma FewRunsAreEnough(shape: string, view: seq<Run>, summaries: seq<Summary>)
    requires |view| <= 256
    ensures !BudgetTooSmall(shape, view, summaries)
  {
  }
}
