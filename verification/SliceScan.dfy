/** `slice_sample`: a scan of summary ids from the top, in windows of ids and pages of candidates. */
module SliceScan {
  import opened Outcomes
  import opened Queries

  const ID_WINDOW: int := 8192
  const MAXIMUM_PAGES: nat := 32
  const PAGE_LIMIT: nat := 64

  /** A row of factor_ic_summary_metrics; `keys` stands for the key columns that have no column of their own here. */
  datatype Summary = Summary(
    id: int, runId: string, isSubFactor: int, icScope: string, windowScope: string, symbol: Option<string>,
    keys: string,
    sliceCount: Option<int>)

  /** A row of factor_ic_slice_metrics. */
  datatype Slice = Slice(
    id: int, asOf: int, runId: string, isSubFactor: int, icScope: string, windowScope: string, symbol: Option<string>,
    keys: string)

  /** One snapshot: summaries by descending id, slices by `as_of_time, id`, and the ids of completed runs. */
  datatype Database = Database(summaries: seq<Summary>, slices: seq<Slice>, completed: set<string>)

  ghost predicate Descending(summaries: seq<Summary>) {
    (forall i, j :: 0 <= i < j < |summaries| ==> summaries[i].id > summaries[j].id)
    && forall s :: s in summaries ==> s.id > 0
  }

  datatype Request = Request(scope: string, isSubFactor: int, symbolMode: string, minRows: int)

  datatype Answer = Sample(summary: Summary, slices: seq<Slice>) | NoSample | SearchExhausted | UnsupportedRequest

  predicate Supported(q: Request) {
    q.scope in {"time_series", "cross_sectional"} && q.symbolMode in {"any", "symbol", "aggregate"}
    && 1 <= q.minRows <= 100
  }

  function Text(symbol: Option<string>): string {
    if symbol.Some? then symbol.value else ""
  }

  /** The WHERE clause of the candidate query, without the window of ids. */
  predicate Eligible(q: Request, s: Summary) {
    s.isSubFactor == q.isSubFactor && s.icScope == q.scope
    && (q.symbolMode == "any" || (q.symbolMode == "symbol" <==> Text(s.symbol) != ""))
    && s.sliceCount.Some? && s.sliceCount.value >= q.minRows
    && (q.minRows == 1 || s.windowScope == "rolling")
  }

  predicate SliceOf(s: Summary, row: Slice) {
    row.runId == s.runId && row.isSubFactor == s.isSubFactor && row.icScope == s.icScope
    && row.windowScope == s.windowScope && row.keys == s.keys && Text(row.symbol) == Text(s.symbol)
  }

  function SlicesOf(db: Database, s: Summary): seq<Slice> {
    Select((row: Slice) => SliceOf(s, row), db.slices)
  }

  predicate InWindow(q: Request, lower: int, upper: int, s: Summary) {
    lower < s.id <= upper && Eligible(q, s)
  }

  /** The candidate query without its limit. */
  function Candidates(db: Database, q: Request, lower: int, upper: int): seq<Summary> {
    Select((s: Summary) => InWindow(q, lower, upper, s), db.summaries)
  }

  /** A summary that the search looks for. */
  predicate Qualifies(db: Database, q: Request, s: Summary) {
    Eligible(q, s) && s.runId in db.completed && |SlicesOf(db, s)| >= q.minRows
  }

  /** No summary with an id above `upper` qualifies. */
  ghost predicate NoneAbove(db: Database, q: Request, upper: int) {
    forall s :: s in db.summaries && s.id > upper ==> !Qualifies(db, q, s)
  }

  lemma {:induction false} SelectDescending(keep: Summary -> bool, rows: seq<Summary>)
    requires Descending(rows)
    ensures Descending(Select(keep, rows))
  {
    if rows == [] {
    } else {
      assert forall i :: 0 <= i < |rows[1..]| ==> rows[1..][i] == rows[i + 1];
      SelectDescending(keep, rows[1..]);
      SelectContents(keep, rows[1..]);
      var rest := Select(keep, rows[1..]);
      forall j | 0 <= j < |rest|
        ensures rows[0].id > rest[j].id
      {
        assert rest[j] in rest;
        var k :| 0 <= k < |rows[1..]| && rows[1..][k] == rest[j];
        assert rows[k + 1] == rest[j];
      }
    }
  }

  /** `SELECT MAX(id)`, or 0 for an empty table. */
  function MaximumId(db: Database): int {
    if db.summaries == [] then 0 else db.summaries[0].id
  }

  // ---- How many pages a scan needs ----

  lemma {:induction false} SelectFewer(a: Summary -> bool, b: Summary -> bool, rows: seq<Summary>)
    requires forall s :: a(s) ==> b(s)
    ensures |Select(a, rows)| <= |Select(b, rows)|
  {
    if rows == [] {
    } else {
      SelectFewer(a, b, rows[1..]);
    }
  }

  lemma {:induction false} SelectDisjoint(a: Summary -> bool, b: Summary -> bool, c: Summary -> bool,
      rows: seq<Summary>)
    requires forall s :: (a(s) ==> c(s) && !b(s)) && (b(s) ==> c(s))
    ensures |Select(a, rows)| + |Select(b, rows)| <= |Select(c, rows)|
  {
    if rows == [] {
    } else {
      SelectDisjoint(a, b, c, rows[1..]);
    }
  }

  /** Eligible summaries above an id. */
  function CountAbove(db: Database, q: Request, upper: int): nat {
    |Select((s: Summary) => s.id > upper && Eligible(q, s), db.summaries)|
  }

  function EligibleCount(db: Database, q: Request): nat {
    |Select((s: Summary) => Eligible(q, s), db.summaries)|
  }

  lemma CountBounded(db: Database, q: Request, upper: int)
    ensures CountAbove(db, q, upper) <= EligibleCount(db, q)
  {
    SelectFewer((s: Summary) => s.id > upper && Eligible(q, s), (s: Summary) => Eligible(q, s), db.summaries);
  }

  lemma {:induction false} SelectAbove(q: Request, lower: int, upper: int, rows: seq<Summary>, n: nat)
    requires Descending(rows) && n > 0
    requires |Select((s: Summary) => InWindow(q, lower, upper, s), rows)| >= n
    ensures
      var last := Select((s: Summary) => InWindow(q, lower, upper, s), rows)[n - 1].id;
      |Select((s: Summary) => s.id > last - 1 && s.id <= upper && Eligible(q, s), rows)| >= n
  {
    var page := Select((s: Summary) => InWindow(q, lower, upper, s), rows);
    var last := page[n - 1].id;
    SelectPrefix((s: Summary) => InWindow(q, lower, upper, s),
                 (s: Summary) => s.id > last - 1 && s.id <= upper && Eligible(q, s), rows, n, last);
  }

  /** The first `n` selected rows are still selected when the rows below the n-th are cut off. */
  lemma {:induction false} SelectPrefix(
      a: Summary -> bool, b: Summary -> bool, rows: seq<Summary>, n: nat, last: int)
    requires Descending(rows) && n <= |Select(a, rows)|
    requires n > 0 ==> Select(a, rows)[n - 1].id >= last
    requires forall s :: a(s) && s.id >= last ==> b(s)
    ensures |Select(b, rows)| >= n
  {
    if rows == [] || n == 0 {
    } else {
      assert forall i :: 0 <= i < |rows[1..]| ==> rows[1..][i] == rows[i + 1];
      SelectDescending(a, rows);
      var picked := Select(a, rows);
      if a(rows[0]) {
        assert picked[0] == rows[0] && picked[1..] == Select(a, rows[1..]);
        assert picked[0].id >= picked[n - 1].id;
        if n > 1 {
          assert picked[1..][n - 2] == picked[n - 1];
        }
        SelectPrefix(a, b, rows[1..], n - 1, last);
      } else {
        SelectPrefix(a, b, rows[1..], n, last);
      }
    }
  }

  /** A full page adds sixty-four to the eligible summaries that are behind the scan. */
  lemma FullPageAdvances(db: Database, q: Request, lower: int, upper: int)
    requires Descending(db.summaries) && |Candidates(db, q, lower, upper)| >= PAGE_LIMIT
    ensures
      var next := Candidates(db, q, lower, upper)[PAGE_LIMIT - 1].id - 1;
      CountAbove(db, q, next) >= CountAbove(db, q, upper) + PAGE_LIMIT
  {
    SelectAbove(q, lower, upper, db.summaries, PAGE_LIMIT);
    var next := Candidates(db, q, lower, upper)[PAGE_LIMIT - 1].id - 1;
    SelectContents((s: Summary) => InWindow(q, lower, upper, s), db.summaries);
    assert Candidates(db, q, lower, upper)[PAGE_LIMIT - 1] in Candidates(db, q, lower, upper);
    SelectDisjoint(
      (s: Summary) => s.id > upper && Eligible(q, s), (s: Summary) => s.id > next && s.id <= upper && Eligible(q, s),
      (s: Summary) => s.id > next && Eligible(q, s), db.summaries);
  }

  lemma ShortPageAdvances(db: Database, q: Request, lower: int, upper: int)
    requires lower <= upper
    ensures CountAbove(db, q, upper) <= CountAbove(db, q, lower)
  {
    SelectFewer(
      (s: Summary) => s.id > upper && Eligible(q, s), (s: Summary) => s.id > lower && Eligible(q, s), db.summaries);
  }

  // ---- The scan ----

  /** One page: the first qualifying candidate, if the page has one.  `completed` remembers the runs looked up. */
  method ScanPage(db: Database, q: Request, page: seq<Summary>, completed: map<string, bool>)
      returns (answer: Option<Answer>, completed': map<string, bool>)
    requires q.minRows >= 1 && forall s :: s in page ==> Eligible(q, s)
    requires forall runId :: runId in completed ==> completed[runId] == (runId in db.completed)
    ensures forall runId :: runId in completed' ==> completed'[runId] == (runId in db.completed)
    ensures answer.None? ==> forall s :: s in page ==> !Qualifies(db, q, s)
    ensures answer.Some? ==>
      exists k :: 0 <= k < |page| && answer == Some(Sample(page[k], SlicesOf(db, page[k]))) && Qualifies(db, q, page[k])
        && forall i :: 0 <= i < k ==> !Qualifies(db, q, page[i])
  {
    completed' := completed;
    for k := 0 to |page|
      invariant forall runId :: runId in completed' ==> completed'[runId] == (runId in db.completed)
      invariant forall i :: 0 <= i < k ==> !Qualifies(db, q, page[i])
    {
      var candidate := page[k];
      assert candidate in page;
      if candidate.runId !in completed' {
        completed' := completed'[candidate.runId := candidate.runId in db.completed];
      }
      if !completed'[candidate.runId] {
        continue;
      }
      var rows := SlicesOf(db, candidate);
      if |Limit(rows, q.minRows)| < q.minRows {
        continue;
      }
      if |rows| >= q.minRows {
        return Some(Sample(candidate, rows)), completed';
      }
    }
    return None, completed';
  }

  lemma LimitIsPrefix(all: seq<Summary>, n: nat)
    requires Descending(all) && n > 0
    ensures Descending(Limit(all, n)) && forall s :: s in Limit(all, n) ==> s in all
    ensures forall s :: s in all && s !in Limit(all, n) ==> |Limit(all, n)| == n && s.id < Limit(all, n)[n - 1].id
  {
    var page := Limit(all, n);
    assert forall i :: 0 <= i < |page| ==> page[i] == all[i] && page[i] in page;
    forall s | s in all && s !in page
      ensures |page| == n && s.id < page[n - 1].id
    {
      var k :| 0 <= k < |all| && all[k] == s;
    }
  }

  lemma PageIsPrefix(db: Database, q: Request, lower: int, upper: int, page: seq<Summary>)
    requires Descending(db.summaries) && page == Limit(Candidates(db, q, lower, upper), PAGE_LIMIT)
    ensures forall s :: s in page ==> Eligible(q, s) && s in db.summaries && lower < s.id <= upper
    ensures Descending(page)
    ensures forall s :: s in db.summaries && InWindow(q, lower, upper, s) && s !in page
              ==> |page| == PAGE_LIMIT && s.id < page[PAGE_LIMIT - 1].id
  {
    SelectContents((s: Summary) => InWindow(q, lower, upper, s), db.summaries);
    SelectDescending((s: Summary) => InWindow(q, lower, upper, s), db.summaries);
    LimitIsPrefix(Candidates(db, q, lower, upper), PAGE_LIMIT);
  }

  /** The greatest qualifying id with all its slices. */
  ghost predicate IsGreatest(db: Database, q: Request, answer: Answer) {
    answer.Sample? && answer.summary in db.summaries && Qualifies(db, q, answer.summary)
    && answer.slices == SlicesOf(db, answer.summary) && NoneAbove(db, q, answer.summary.id)
  }

  lemma FoundIsGreatest(
      db: Database, q: Request, lower: int, upper: int, page: seq<Summary>, k: nat)
    requires Descending(db.summaries) && page == Limit(Candidates(db, q, lower, upper), PAGE_LIMIT)
    requires NoneAbove(db, q, upper) && k < |page| && Qualifies(db, q, page[k])
    requires forall i :: 0 <= i < k ==> !Qualifies(db, q, page[i])
    ensures IsGreatest(db, q, Sample(page[k], SlicesOf(db, page[k])))
  {
    PageIsPrefix(db, q, lower, upper, page);
    assert page[k] in page;
    forall s | s in db.summaries && s.id > page[k].id
      ensures !Qualifies(db, q, s)
    {
      assert |page| == PAGE_LIMIT ==> page[k].id >= page[PAGE_LIMIT - 1].id;
      if s in page {
        var i :| 0 <= i < |page| && page[i] == s;
        assert i < k;
      }
    }
  }

  lemma NothingOnPage(db: Database, q: Request, lower: int, upper: int, page: seq<Summary>)
    requires Descending(db.summaries) && page == Limit(Candidates(db, q, lower, upper), PAGE_LIMIT)
    requires NoneAbove(db, q, upper) && forall s :: s in page ==> !Qualifies(db, q, s)
    ensures NoneAbove(db, q, if |page| == PAGE_LIMIT then page[PAGE_LIMIT - 1].id - 1 else lower)
  {
    PageIsPrefix(db, q, lower, upper, page);
    var next := if |page| == PAGE_LIMIT then page[PAGE_LIMIT - 1].id - 1 else lower;
    forall s | s in db.summaries && s.id > next
      ensures !Qualifies(db, q, s)
    {
      assert s !in page ==> !InWindow(q, lower, upper, s) || s.id < next + 1;
    }
  }

  // ---- Where the scan goes, whatever qualifies ----

  function LowerBound(upper: int): int {
    if upper > ID_WINDOW then upper - ID_WINDOW else 0
  }

  function PageAt(db: Database, q: Request, upper: int): seq<Summary> {
    Limit(Candidates(db, q, LowerBound(upper), upper), PAGE_LIMIT)
  }

  /** Below a full page the scan resumes under its last id, otherwise under the window. */
  function NextUpper(db: Database, q: Request, upper: int): int {
    var page := PageAt(db, q, upper);
    if |page| == PAGE_LIMIT then page[PAGE_LIMIT - 1].id - 1 else LowerBound(upper)
  }

  /** The bound after `n` pages without an answer. */
  function Position(db: Database, q: Request, upper: int, n: nat): int
    decreases n
  {
    if n == 0 || upper <= 0 then upper else Position(db, q, NextUpper(db, q, upper), n - 1)
  }

  lemma NextIsLower(db: Database, q: Request, upper: int)
    requires Descending(db.summaries) && upper > 0
    ensures NextUpper(db, q, upper) < upper
    ensures forall s :: s in PageAt(db, q, upper) ==> s.id > NextUpper(db, q, upper)
  {
    var page := PageAt(db, q, upper);
    PageIsPrefix(db, q, LowerBound(upper), upper, page);
    if |page| == PAGE_LIMIT {
      assert page[PAGE_LIMIT - 1] in page;
      forall s | s in page
        ensures s.id >= page[PAGE_LIMIT - 1].id
      {
        var i :| 0 <= i < |page| && page[i] == s;
      }
    }
  }

  lemma {:induction false} PositionIsLower(db: Database, q: Request, upper: int, n: nat)
    requires Descending(db.summaries)
    ensures Position(db, q, upper, n) <= upper
    decreases n
  {
    if n == 0 || upper <= 0 {
    } else {
      NextIsLower(db, q, upper);
      PositionIsLower(db, q, NextUpper(db, q, upper), n - 1);
    }
  }

  lemma NextAdvances(db: Database, q: Request, upper: int)
    requires Descending(db.summaries) && upper > 0
    ensures
      var page, next := PageAt(db, q, upper), NextUpper(db, q, upper);
      if |page| == PAGE_LIMIT then CountAbove(db, q, next) >= CountAbove(db, q, upper) + PAGE_LIMIT
      else CountAbove(db, q, next) >= CountAbove(db, q, upper) && (next > 0 ==> next == upper - ID_WINDOW)
  {
    if |PageAt(db, q, upper)| == PAGE_LIMIT {
      FullPageAdvances(db, q, LowerBound(upper), upper);
    } else {
      ShortPageAdvances(db, q, LowerBound(upper), upper);
    }
  }

  /** Each of the pages before a position above 0 was a whole window of ids, or full of eligible summaries. */
  lemma {:induction false} WindowsAndPages(db: Database, q: Request, upper: int, n: nat)
    returns (windows: nat, pages: nat)
    requires Descending(db.summaries) && Position(db, q, upper, n) > 0
    ensures windows + pages == n && windows * ID_WINDOW <= upper - Position(db, q, upper, n)
    ensures PAGE_LIMIT * pages <= CountAbove(db, q, Position(db, q, upper, n)) - CountAbove(db, q, upper)
    decreases n
  {
    windows, pages := 0, 0;
    if n == 0 {
    } else {
      var next := NextUpper(db, q, upper);
      NextAdvances(db, q, upper);
      NextIsLower(db, q, upper);
      PositionIsLower(db, q, next, n - 1);
      windows, pages := WindowsAndPages(db, q, next, n - 1);
      if |PageAt(db, q, upper)| == PAGE_LIMIT {
        pages := pages + 1;
      } else {
        windows := windows + 1;
      }
    }
  }

  /** The scan ends its budget above some ids, and nothing that it has passed qualifies. */
  ghost predicate BudgetTooSmall(db: Database, q: Request) {
    var position := Position(db, q, MaximumId(db), MAXIMUM_PAGES);
    position > 0 && NoneAbove(db, q, position)
  }

  /** The budget is too small only for tables with too many ids or too many eligible summaries. */
  lemma SmallTablesAreEnough(db: Database, q: Request)
    requires Descending(db.summaries) && BudgetTooSmall(db, q)
    ensures MaximumId(db) / ID_WINDOW + EligibleCount(db, q) / PAGE_LIMIT >= MAXIMUM_PAGES
  {
    var position := Position(db, q, MaximumId(db), MAXIMUM_PAGES);
    var windows, pages := WindowsAndPages(db, q, MaximumId(db), MAXIMUM_PAGES);
    CountBounded(db, q, position);
    BudgetSpent(windows, pages, MaximumId(db), EligibleCount(db, q));
  }

  /** The final position is not above the next bound. */
  lemma {:induction false} PositionAfterNext(db: Database, q: Request, upper: int, n: nat)
    requires Descending(db.summaries) && upper > 0 && n > 0
    ensures Position(db, q, upper, n) == Position(db, q, NextUpper(db, q, upper), n - 1) <= NextUpper(db, q, upper)
  {
    PositionIsLower(db, q, NextUpper(db, q, upper), n - 1);
  }

  /** One round of the scan at `upper`, with `left` rounds to go: an answer above the final position of the scan, or the
      next bound. */
  method ScanBelow(db: Database, q: Request, upper: int, completed: map<string, bool>, ghost left: nat)
      returns (answer: Option<Answer>, next: int, completed': map<string, bool>)
    requires Descending(db.summaries) && q.minRows >= 1 && upper > 0 && left > 0 && NoneAbove(db, q, upper)
    requires forall runId :: runId in completed ==> completed[runId] == (runId in db.completed)
    ensures forall runId :: runId in completed' ==> completed'[runId] == (runId in db.completed)
    ensures answer.Some? ==> IsGreatest(db, q, answer.value) && answer.value.summary.id > Position(db, q, upper, left)
    ensures answer.None? ==> NoneAbove(db, q, next) && Position(db, q, upper, left) == Position(db, q, next, left - 1)
  {
    var lower, page := LowerBound(upper), PageAt(db, q, upper);
    PageIsPrefix(db, q, lower, upper, page);
    NextIsLower(db, q, upper);
    PositionAfterNext(db, q, upper, left);
    answer, completed' := ScanPage(db, q, page, completed);
    next := if |page| == PAGE_LIMIT then page[PAGE_LIMIT - 1].id - 1 else lower;
    if answer.Some? {
      ghost var k :| 0 <= k < |page| && answer == Some(Sample(page[k], SlicesOf(db, page[k])))
        && Qualifies(db, q, page[k]) && forall i :: 0 <= i < k ==> !Qualifies(db, q, page[i]);
      FoundIsGreatest(db, q, lower, upper, page, k);
      assert page[k] in page;
    } else {
      NothingOnPage(db, q, lower, upper, page);
    }
  }

  /** `slice_sample` returns the greatest qualifying id with its complete slices, and reports absence only when no id
      qualifies.  It gives up exactly when its pages end above some id and nothing above that id qualifies. */
  method SliceSample(db: Database, q: Request) returns (answer: Answer)
    requires Descending(db.summaries)
    ensures answer.UnsupportedRequest? <==> !Supported(q)
    ensures answer.Sample? ==> IsGreatest(db, q, answer)
    ensures answer.NoSample? ==> forall s :: s in db.summaries ==> !Qualifies(db, q, s)
    ensures answer.SearchExhausted? <==> Supported(q) && BudgetTooSmall(db, q)
  {
    if !Supported(q) {
      return UnsupportedRequest;
    }
    var upper := MaximumId(db);
    var completed: map<string, bool> := map[];
    for n := 0 to MAXIMUM_PAGES
      invariant NoneAbove(db, q, upper)
      invariant Position(db, q, MaximumId(db), MAXIMUM_PAGES) == Position(db, q, upper, MAXIMUM_PAGES - n)
      invariant forall runId :: runId in completed ==> completed[runId] == (runId in db.completed)
    {
      if upper <= 0 {
        return NoSample;
      }
      var found;
      found, upper, completed := ScanBelow(db, q, upper, completed, MAXIMUM_PAGES - n);
      if found.Some? {
        return found.value;
      }
    }
    if upper <= 0 {
      return NoSample;
    }
    return SearchExhausted;
  }

  lemma BudgetSpent(windows: nat, pages: nat, maximum: int, eligible: nat)
    requires windows * ID_WINDOW <= maximum && PAGE_LIMIT * pages <= eligible
    ensures windows + pages <= maximum / ID_WINDOW + eligible / PAGE_LIMIT
  {
  }
}
