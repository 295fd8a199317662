/** `compact_time_summary_sample`: a search over completed runs, their candidate rows and the histories of the factors
    these name, each with its own budget. */
module AuxiliarySample {
  import opened Outcomes
  import opened Queries
  import opened RunPages

  const RUN_BATCH_SIZE: nat := 32
  const MAXIMUM_BATCHES: nat := 8
  const CANDIDATE_LIMIT: nat := 128
  const MAXIMUM_FACTORS: nat := 256
  const COMPACT_HISTORY: nat := 20

  type Identity = (int, int)

  /** A row of factor_ic_summary_metrics; `hasPeriod` says that the payload carries both ends of a period. */
  datatype Summary = Summary(
    id: int, identity: Identity, runId: string, icScope: string, hasPeriod: bool, updatedAt: int)

  /** One snapshot: the completed runs in the order of the run query, and the summaries in the order of the index. */
  datatype Database = Database(runs: seq<Run>, summaries: seq<Summary>)

  datatype Answer = Sample(summary: Summary) | NoSample | SearchIncomplete(checkedRuns: nat) | UnsupportedScope

  // ---- Queries ----

  predicate InRun(scope: string, run: Run, s: Summary) {
    s.runId == run.runId && s.icScope == scope
  }

  /** All candidate rows of a run. */
  function Candidates(db: Database, scope: string, run: Run): seq<Summary> {
    Select((s: Summary) => InRun(scope, run, s), db.summaries)
  }

  function History(db: Database, identity: Identity): seq<Summary> {
    Select((s: Summary) => s.identity == identity, db.summaries)
  }

  predicate RunOf(db: Database, s: Summary, run: Run) {
    run in db.runs && run.runId == s.runId
  }

  /** A row that the sample query of an identity can return. */
  ghost predicate Fits(db: Database, scope: string, identity: Identity, s: Summary) {
    s in db.summaries && s.identity == identity && s.icScope == scope && s.hasPeriod && exists run :: RunOf(db, s, run)
  }

  /** A factor with a short history and a fitting row: what the search is for. */
  ghost predicate Compact(db: Database, scope: string, identity: Identity) {
    |History(db, identity)| <= COMPACT_HISTORY && exists s :: Fits(db, scope, identity, s)
  }

  function FirstRun(runs: seq<Run>, runId: string): (r: Option<Run>)
    ensures r.Some? ==> r.value in runs && r.value.runId == runId
    ensures r.None? ==> forall run :: run in runs ==> run.runId != runId
  {
    if runs == [] then None else if runs[0].runId == runId then Some(runs[0]) else FirstRun(runs[1..], runId)
  }

  /** ORDER BY r.completed_at DESC, m.updated_at DESC, m.id DESC, NULL completion times last. */
  predicate Ahead(db: Database, a: Summary, b: Summary) {
    match (CompletionOf(db, a), CompletionOf(db, b))
    case (Some(x), Some(y)) => x > y || (x == y && Later(a, b))
    case (Some(_), None) => true
    case (None, Some(_)) => false
    case (None, None) => Later(a, b)
  }

  function CompletionOf(db: Database, s: Summary): Option<int> {
    var run := FirstRun(db.runs, s.runId);
    if run.Some? then run.value.completedAt else None
  }

  predicate Later(a: Summary, b: Summary) {
    a.updatedAt > b.updatedAt || (a.updatedAt == b.updatedAt && a.id > b.id)
  }

  lemma AheadIsOrder(db: Database, a: Summary, b: Summary, c: Summary)
    ensures !Ahead(db, a, b) && !Ahead(db, b, c) ==> !Ahead(db, a, c)
    ensures Ahead(db, a, b) ==> !Ahead(db, b, a)
  {
  }

  /** The sample query of an identity: of the rows in `rows` that fit, one that no other is ahead of. */
  function SampleOf(db: Database, scope: string, identity: Identity, rows: seq<Summary>): (r: Option<Summary>)
    requires forall s :: s in rows ==> s in db.summaries
    ensures r.Some? ==> r.value in rows && Fits(db, scope, identity, r.value)
    ensures r.Some? ==> forall s :: s in rows && Fits(db, scope, identity, s) ==> !Ahead(db, s, r.value)
    ensures r.None? ==> forall s :: s in rows ==> !Fits(db, scope, identity, s)
  {
    if rows == [] then None
    else
      var rest := SampleOf(db, scope, identity, rows[1..]);
      var s := rows[0];
      var run := FirstRun(db.runs, s.runId);
      assert forall x :: x in rows <==> x == s || x in rows[1..];
      if s.identity != identity || s.icScope != scope || !s.hasPeriod || run.None? then
        rest
      else
        assert RunOf(db, s, run.value);
        if rest.Some? && Ahead(db, rest.value, s) then rest
        else
          assert rest.Some? ==> forall x :: !Ahead(db, x, rest.value) ==> !Ahead(db, x, s) by {
            if rest.Some? {
              forall x ensures !Ahead(db, x, rest.value) ==> !Ahead(db, x, s) {
                AheadIsOrder(db, x, rest.value, s);
              }
            }
          }
          Some(s)
  }

  // ---- The exact condition for an answer ----

  /** The factors that some completed run names. */
  ghost predicate Named(db: Database, scope: string, identity: Identity) {
    exists run, s :: run in db.runs && s in Candidates(db, scope, run) && s.identity == identity
  }

  ghost function NamedFactors(db: Database, scope: string): set<Identity> {
    set s | s in db.summaries && Named(db, scope, s.identity) :: s.identity
  }

  lemma NamedIsMember(db: Database, scope: string, run: Run, s: Summary)
    requires run in db.runs && s in Candidates(db, scope, run)
    ensures s in db.summaries && InRun(scope, run, s) && s.identity in NamedFactors(db, scope)
  {
    SelectContents((x: Summary) => InRun(scope, run, x), db.summaries);
    assert Named(db, scope, s.identity);
  }

  lemma CompactIsNamed(db: Database, scope: string, identity: Identity)
    requires Compact(db, scope, identity)
    ensures exists run, s :: run in db.runs && s in Candidates(db, scope, run) && s.identity == identity
  {
    var s :| Fits(db, scope, identity, s);
    var run :| RunOf(db, s, run);
    SelectContents((x: Summary) => InRun(scope, run, x), db.summaries);
    assert s in Candidates(db, scope, run);
  }

  /** Every budget is large enough for this snapshot. */
  ghost predicate WithinBudgets(db: Database, scope: string) {
    |db.runs| < RUN_BATCH_SIZE * MAXIMUM_BATCHES
    && (forall run :: run in db.runs ==> |Candidates(db, scope, run)| <= CANDIDATE_LIMIT)
    && |NamedFactors(db, scope)| <= MAXIMUM_FACTORS
  }

  // ---- The factors that the budgets reach ----

  function Elements<T>(s: seq<T>): set<T> {
    set x | x in s
  }

  /** Each factor once, where it first occurs. */
  function Distinct(ids: seq<Identity>): seq<Identity> {
    if ids == [] then []
    else
      var before, last := Distinct(ids[..|ids| - 1]), ids[|ids| - 1];
      if last in before then before else before + [last]
  }

  lemma DistinctStep(ids: seq<Identity>, last: Identity)
    ensures Distinct(ids + [last]) == if last in Distinct(ids) then Distinct(ids) else Distinct(ids) + [last]
  {
    assert (ids + [last])[..|ids|] == ids;
  }

  lemma {:induction false} DistinctContents(ids: seq<Identity>)
    ensures Elements(Distinct(ids)) == Elements(ids)
    ensures |Elements(ids)| == |Distinct(ids)|
  {
    if ids == [] {
    } else {
      var rest, last := ids[..|ids| - 1], ids[|ids| - 1];
      DistinctContents(rest);
      assert ids == rest + [last];
      assert Elements(ids) == Elements(rest) + {last};
      assert last in Distinct(rest) <==> last in Elements(rest);
      assert Elements(Distinct(rest) + [last]) == Elements(Distinct(rest)) + {last};
    }
  }

  lemma {:induction false} DistinctGrows(ids: seq<Identity>, more: seq<Identity>)
    ensures Distinct(ids) <= Distinct(ids + more)
  {
    if more == [] {
      assert ids + more == ids;
    } else {
      var rest, last := more[..|more| - 1], more[|more| - 1];
      DistinctGrows(ids, rest);
      DistinctStep(ids + rest, last);
      assert ids + more == ids + rest + [last];
    }
  }

  function Identities(rows: seq<Summary>): seq<Identity> {
    seq(|rows|, i requires 0 <= i < |rows| => rows[i].identity)
  }

  /** What the candidate query of a run hands to the loop. */
  function Fetched(db: Database, scope: string, run: Run): seq<Identity> {
    Identities(Limit(Candidates(db, scope, run), CANDIDATE_LIMIT))
  }

  /** The factors named by the fetched candidates of the first `n` runs, in the order of the search. */
  function LookedAt(db: Database, scope: string, n: nat): seq<Identity>
    requires n <= |db.runs|
  {
    if n == 0 then [] else LookedAt(db, scope, n - 1) + Fetched(db, scope, db.runs[n - 1])
  }

  /** The same, each factor once. */
  function FactorOrder(db: Database, scope: string, n: nat): seq<Identity>
    requires n <= |db.runs|
  {
    Distinct(LookedAt(db, scope, n))
  }

  /** How many runs the batches reach. */
  function ReachableRuns(db: Database): (n: nat)
    ensures n <= |db.runs|
  {
    if |db.runs| <= RUN_BATCH_SIZE * MAXIMUM_BATCHES then |db.runs| else RUN_BATCH_SIZE * MAXIMUM_BATCHES
  }

  /** `identity` is the first compact factor of `order`, and the factor budget reaches it. */
  ghost predicate FirstCompact(db: Database, scope: string, order: seq<Identity>, identity: Identity) {
    exists k :: 0 <= k < |order| && k < MAXIMUM_FACTORS && order[k] == identity && Compact(db, scope, identity)
                && forall i :: 0 <= i < k ==> !Compact(db, scope, order[i])
  }

  /** None of the factors of `order` that the factor budget reaches is compact. */
  ghost predicate NoneCompact(db: Database, scope: string, order: seq<Identity>) {
    forall k :: 0 <= k < |order| && k < MAXIMUM_FACTORS ==> !Compact(db, scope, order[k])
  }

  /** The factor budget ends inside `order` without an answer. */
  ghost predicate Overrun(db: Database, scope: string, order: seq<Identity>) {
    |order| > MAXIMUM_FACTORS && NoneCompact(db, scope, order)
  }

  lemma {:induction false} OrderGrows(db: Database, scope: string, m: nat, n: nat)
    requires m <= n <= |db.runs|
    ensures FactorOrder(db, scope, m) <= FactorOrder(db, scope, n)
  {
    if m == n {
    } else {
      OrderGrows(db, scope, m, n - 1);
      DistinctGrows(LookedAt(db, scope, n - 1), Fetched(db, scope, db.runs[n - 1]));
    }
  }

  lemma {:induction false} RunLookedAt(db: Database, scope: string, n: nat, i: nat)
    requires i < n <= |db.runs|
    ensures Elements(Fetched(db, scope, db.runs[i])) <= Elements(LookedAt(db, scope, n))
  {
    if i == n - 1 {
    } else {
      RunLookedAt(db, scope, n - 1, i);
    }
  }

  lemma LimitContents<T>(rows: seq<T>, n: nat)
    ensures forall x :: x in Limit(rows, n) ==> x in rows
  {
  }

  lemma FetchedAreNamed(db: Database, scope: string, run: Run)
    requires run in db.runs
    ensures Elements(Fetched(db, scope, run)) <= NamedFactors(db, scope)
  {
    var rows := Limit(Candidates(db, scope, run), CANDIDATE_LIMIT);
    LimitContents(Candidates(db, scope, run), CANDIDATE_LIMIT);
    forall x | x in Fetched(db, scope, run)
      ensures x in NamedFactors(db, scope)
    {
      var i :| 0 <= i < |rows| && rows[i].identity == x;
      NamedIsMember(db, scope, run, rows[i]);
    }
  }

  lemma {:induction false} LookedAtAreNamed(db: Database, scope: string, n: nat)
    requires n <= |db.runs|
    ensures Elements(LookedAt(db, scope, n)) <= NamedFactors(db, scope)
  {
    if n == 0 {
    } else {
      LookedAtAreNamed(db, scope, n - 1);
      FetchedAreNamed(db, scope, db.runs[n - 1]);
    }
  }

  lemma OrderIsNamed(db: Database, scope: string, n: nat)
    requires n <= |db.runs|
    ensures |FactorOrder(db, scope, n)| <= |NamedFactors(db, scope)|
  {
    LookedAtAreNamed(db, scope, n);
    DistinctContents(LookedAt(db, scope, n));
    Fewer(Elements(LookedAt(db, scope, n)), NamedFactors(db, scope));
  }

  // ---- The search ----

  /** The factors of `looked` were looked at within the budget and none is compact. */
  ghost predicate Seen(db: Database, scope: string, looked: seq<Identity>, seen: set<Identity>) {
    seen == Elements(looked) && |Distinct(looked)| <= MAXIMUM_FACTORS
    && forall identity :: identity in looked ==> !Compact(db, scope, identity)
  }

  lemma SeenOrder(db: Database, scope: string, looked: seq<Identity>, seen: set<Identity>)
    requires Seen(db, scope, looked, seen)
    ensures |seen| == |Distinct(looked)|
    ensures forall x :: x in Distinct(looked) <==> x in seen
    ensures NoneCompact(db, scope, Distinct(looked))
  {
    DistinctContents(looked);
    assert forall x :: x in Distinct(looked) <==> x in Elements(Distinct(looked));
    assert forall x :: x in looked <==> x in Elements(looked);
  }

  /** The newest fitting row of a compact factor. */
  ghost predicate GoodSample(db: Database, scope: string, s: Summary) {
    Compact(db, scope, s.identity) && Fits(db, scope, s.identity, s)
    && forall t :: t in db.summaries && Fits(db, scope, s.identity, t) ==> !Ahead(db, t, s)
  }

  /** One factor that has not been seen: its history, then its sample. */
  method CheckFactor(db: Database, scope: string, identity: Identity) returns (sample: Option<Summary>)
    ensures sample.Some? ==> sample.value.identity == identity && GoodSample(db, scope, sample.value)
    ensures sample.None? ==> !Compact(db, scope, identity)
  {
    var history := Limit(History(db, identity), COMPACT_HISTORY + 1);
    if |history| > COMPACT_HISTORY {
      return None;
    }
    sample := SampleOf(db, scope, identity, db.summaries);
  }

  /** One candidate row. */
  method CheckCandidate(db: Database, scope: string, identity: Identity, before: set<Identity>,
                        ghost looked: seq<Identity>)
    returns (sample: Option<Summary>, seen: set<Identity>, exhausted: bool)
    requires Seen(db, scope, looked, before)
    ensures sample.Some? ==> GoodSample(db, scope, sample.value)
    ensures sample.Some? ==> FirstCompact(db, scope, Distinct(looked + [identity]), sample.value.identity)
    ensures sample.None? && !exhausted ==> Seen(db, scope, looked + [identity], seen)
    ensures exhausted ==> sample.None? && Overrun(db, scope, Distinct(looked + [identity]))
  {
    DistinctStep(looked, identity);
    SeenOrder(db, scope, looked, before);
    assert Elements(looked + [identity]) == Elements(looked) + {identity};
    if identity in before {
      return None, before, false;
    }
    if |before| >= MAXIMUM_FACTORS {
      return None, before, true;
    }
    sample := CheckFactor(db, scope, identity);
    seen, exhausted := before + {identity}, false;
    assert sample.Some? ==> Distinct(looked + [identity])[|before|] == identity;
  }

  lemma LookedAtOneMore(looked: seq<Identity>, ids: seq<Identity>, i: nat)
    requires i < |ids|
    ensures looked + ids[..i + 1] == looked + ids[..i] + [ids[i]]
    ensures Distinct(looked + ids[..i + 1]) <= Distinct(looked + ids)
  {
    assert ids[..i + 1] == ids[..i] + [ids[i]];
    assert looked + ids == looked + ids[..i + 1] + ids[i + 1..];
    DistinctGrows(looked + ids[..i + 1], ids[i + 1..]);
  }

  lemma AnswerStays(db: Database, scope: string, some: seq<Identity>, order: seq<Identity>, identity: Identity)
    requires some <= order
    ensures FirstCompact(db, scope, some, identity) ==> FirstCompact(db, scope, order, identity)
    ensures Overrun(db, scope, some) ==> Overrun(db, scope, order)
  {
    assert forall i :: 0 <= i < |some| ==> some[i] == order[i];
    if FirstCompact(db, scope, some, identity) {
      var k :| 0 <= k < |some| && k < MAXIMUM_FACTORS && some[k] == identity && Compact(db, scope, identity)
               && forall i :: 0 <= i < k ==> !Compact(db, scope, some[i]);
      assert order[k] == identity;
    }
  }

  /** The loop over the candidates of a run. */
  method CheckCandidates(db: Database, scope: string, rows: seq<Summary>, before: set<Identity>,
                         ghost looked: seq<Identity>)
    returns (sample: Option<Summary>, seen: set<Identity>, exhausted: bool)
    requires Seen(db, scope, looked, before)
    ensures sample.Some? ==> GoodSample(db, scope, sample.value)
    ensures sample.Some? ==> FirstCompact(db, scope, Distinct(looked + Identities(rows)), sample.value.identity)
    ensures sample.None? && !exhausted ==> Seen(db, scope, looked + Identities(rows), seen)
    ensures exhausted ==> sample.None? && Overrun(db, scope, Distinct(looked + Identities(rows)))
  {
    sample, seen, exhausted := None, before, false;
    ghost var ids := Identities(rows);
    assert looked + ids[..0] == looked;
    for i := 0 to |rows|
      invariant sample.None? && !exhausted && Seen(db, scope, looked + ids[..i], seen)
    {
      sample, seen, exhausted := CheckCandidate(db, scope, rows[i].identity, seen, looked + ids[..i]);
      LookedAtOneMore(looked, ids, i);
      if sample.Some? || exhausted {
        AnswerStays(db, scope, Distinct(looked + ids[..i + 1]), Distinct(looked + ids),
                    if sample.Some? then sample.value.identity else rows[i].identity);
        return;
      }
    }
    assert ids[..|rows|] == ids;
  }

  ghost predicate Truncated(db: Database, scope: string, n: nat)
    requires n <= |db.runs|
  {
    n > 0 && (Truncated(db, scope, n - 1) || |Candidates(db, scope, db.runs[n - 1])| > CANDIDATE_LIMIT)
  }

  lemma {:induction false} TruncatedMeans(db: Database, scope: string, n: nat)
    requires n <= |db.runs|
    ensures Truncated(db, scope, n) <==> exists i :: 0 <= i < n && |Candidates(db, scope, db.runs[i])| > CANDIDATE_LIMIT
  {
    if n == 0 {
    } else {
      TruncatedMeans(db, scope, n - 1);
    }
  }

  lemma NothingCutOff(db: Database, scope: string)
    requires !Truncated(db, scope, |db.runs|)
    ensures forall run :: run in db.runs ==> |Candidates(db, scope, run)| <= CANDIDATE_LIMIT
  {
    TruncatedMeans(db, scope, |db.runs|);
  }

  lemma SomethingCutOff(db: Database, scope: string, n: nat)
    requires n <= |db.runs| && Truncated(db, scope, n)
    ensures !WithinBudgets(db, scope)
  {
    TruncatedMeans(db, scope, n);
    var i :| 0 <= i < n && |Candidates(db, scope, db.runs[i])| > CANDIDATE_LIMIT;
    assert db.runs[i] in db.runs;
  }

  /** The candidate query of one run, with its extra row, and the loop over what it returns. */
  method CheckRun(db: Database, scope: string, run: Run, before: set<Identity>, ghost looked: seq<Identity>)
    returns (sample: Option<Summary>, seen: set<Identity>, truncated: bool, exhausted: bool)
    requires Seen(db, scope, looked, before)
    ensures truncated <==> |Candidates(db, scope, run)| > CANDIDATE_LIMIT
    ensures sample.Some? ==> GoodSample(db, scope, sample.value)
    ensures sample.Some? ==> FirstCompact(db, scope, Distinct(looked + Fetched(db, scope, run)), sample.value.identity)
    ensures sample.None? && !exhausted ==> Seen(db, scope, looked + Fetched(db, scope, run), seen)
    ensures exhausted ==> sample.None? && Overrun(db, scope, Distinct(looked + Fetched(db, scope, run)))
  {
    var candidates := Limit(Candidates(db, scope, run), CANDIDATE_LIMIT + 1);
    truncated := |candidates| > CANDIDATE_LIMIT;
    var checkedRows := Limit(candidates, CANDIDATE_LIMIT);
    assert checkedRows == Limit(Candidates(db, scope, run), CANDIDATE_LIMIT);
    sample, seen, exhausted := CheckCandidates(db, scope, checkedRows, before, looked);
  }

  predicate Continues(cursor: Option<Run>, run: Run) {
    match cursor
    case None => true
    case Some(c) =>
      if c.completedAt.None? then run.completedAt.None? && run.id < c.id
      else
        run.completedAt.None? || run.completedAt.value < c.completedAt.value
        || (run.completedAt == c.completedAt && run.id < c.id)
  }

  /** The continuation is correct across NULL completion times, which come last. */
  lemma PageOf(view: seq<Run>, cursor: Option<Run>, n: nat)
    requires Ordered(view) && n <= |view| && cursor == if n == 0 then None else Some(view[n - 1])
    ensures Page(view, r => Continues(cursor, r), RUN_BATCH_SIZE)
         == if |view| - n <= RUN_BATCH_SIZE then view[n..] else view[n..n + RUN_BATCH_SIZE]
  {
    if n == 0 {
      FirstPage(view, r => Continues(cursor, r), RUN_BATCH_SIZE);
    } else {
      PageResumes(view, r => Continues(cursor, r), n - 1, RUN_BATCH_SIZE);
    }
  }

  /** Where the search stands when `n` runs have been checked without an answer. */
  ghost predicate Standing(db: Database, scope: string, n: nat, seen: set<Identity>, truncated: bool) {
    n <= |db.runs| && Seen(db, scope, LookedAt(db, scope, n), seen) && (truncated <==> Truncated(db, scope, n))
  }

  /** The search has found its answer in run `n` of `db.runs`, counted from 1. */
  ghost predicate AnswerInRun(db: Database, scope: string, n: nat, identity: Identity) {
    n <= |db.runs| && FirstCompact(db, scope, FactorOrder(db, scope, n), identity)
  }

  /** The factor budget has run out in run `n`, and not before. */
  ghost predicate OverrunInRun(db: Database, scope: string, n: nat) {
    0 < n <= |db.runs| && Overrun(db, scope, FactorOrder(db, scope, n))
    && |FactorOrder(db, scope, n - 1)| <= MAXIMUM_FACTORS
  }

  lemma OneMoreRun(db: Database, scope: string, n: nat, truncated: bool, cut: bool)
    requires n < |db.runs| && (truncated <==> Truncated(db, scope, n))
    requires cut <==> |Candidates(db, scope, db.runs[n])| > CANDIDATE_LIMIT
    ensures truncated || cut <==> Truncated(db, scope, n + 1)
    ensures LookedAt(db, scope, n + 1) == LookedAt(db, scope, n) + Fetched(db, scope, db.runs[n])
  {
  }

  /** Run `n` of the view, counted from 0. */
  method CheckNextRun(db: Database, scope: string, run: Run, ghost n: nat, before: set<Identity>, truncatedBefore: bool)
    returns (sample: Option<Summary>, seen: set<Identity>, truncated: bool, exhausted: bool)
    requires n < |db.runs| && run == db.runs[n] && Standing(db, scope, n, before, truncatedBefore)
    ensures sample.Some? ==> GoodSample(db, scope, sample.value)
    ensures sample.Some? ==> AnswerInRun(db, scope, n + 1, sample.value.identity)
    ensures sample.None? && !exhausted ==> Standing(db, scope, n + 1, seen, truncated)
    ensures exhausted ==> sample.None? && OverrunInRun(db, scope, n + 1)
  {
    var cut;
    sample, seen, cut, exhausted := CheckRun(db, scope, run, before, LookedAt(db, scope, n));
    OneMoreRun(db, scope, n, truncatedBefore, cut);
    truncated := truncatedBefore || cut;
  }

  /** The runs of one batch. */
  method CheckRuns(db: Database, scope: string, runs: seq<Run>, n: nat, before: set<Identity>, truncatedBefore: bool)
    returns (sample: Option<Summary>, seen: set<Identity>, checkedRuns: nat, truncated: bool, exhausted: bool)
    requires n + |runs| <= |db.runs| && forall i :: 0 <= i < |runs| ==> runs[i] == db.runs[n + i]
    requires Standing(db, scope, n, before, truncatedBefore)
    ensures n <= checkedRuns <= n + |runs|
    ensures sample.Some? ==> GoodSample(db, scope, sample.value)
    ensures sample.Some? ==> AnswerInRun(db, scope, checkedRuns, sample.value.identity)
    ensures sample.None? && !exhausted ==>
      checkedRuns == n + |runs| && Standing(db, scope, checkedRuns, seen, truncated)
    ensures exhausted ==> sample.None? && OverrunInRun(db, scope, checkedRuns)
  {
    sample, seen, checkedRuns, truncated, exhausted := None, before, n, truncatedBefore, false;
    for i := 0 to |runs|
      invariant sample.None? && !exhausted && checkedRuns == n + i
      invariant Standing(db, scope, n + i, seen, truncated)
    {
      checkedRuns := checkedRuns + 1;
      sample, seen, truncated, exhausted := CheckNextRun(db, scope, runs[i], n + i, seen, truncated);
      if sample.Some? || exhausted {
        return;
      }
    }
  }

  /** The run query of a batch. */
  method FetchRuns(view: seq<Run>, cursor: Option<Run>, n: nat) returns (runs: seq<Run>)
    requires Ordered(view) && n <= |view| && cursor == if n == 0 then None else Some(view[n - 1])
    ensures n + |runs| <= |view| && runs == view[n..n + |runs|] && |runs| <= RUN_BATCH_SIZE
    ensures |runs| < RUN_BATCH_SIZE ==> n + |runs| == |view|
  {
    runs := Page(view, r => Continues(cursor, r), RUN_BATCH_SIZE);
    PageOf(view, cursor, n);
  }

  /** The loop over the batches. */
  method CheckBatches(db: Database, scope: string)
    returns (sample: Option<Summary>, checkedRuns: nat, seen: set<Identity>, runsExhausted: bool, truncated: bool,
             factorsExhausted: bool)
    requires Ordered(db.runs)
    ensures checkedRuns <= ReachableRuns(db)
    ensures sample.Some? ==> GoodSample(db, scope, sample.value)
    ensures sample.Some? ==> AnswerInRun(db, scope, checkedRuns, sample.value.identity)
    ensures factorsExhausted ==> OverrunInRun(db, scope, checkedRuns)
    ensures sample.None? && !factorsExhausted ==>
              checkedRuns == ReachableRuns(db) && Standing(db, scope, checkedRuns, seen, truncated)
    ensures sample.None? && !factorsExhausted ==> (runsExhausted <==> |db.runs| < RUN_BATCH_SIZE * MAXIMUM_BATCHES)
  {
    var cursor: Option<Run> := None;
    sample, checkedRuns, seen := None, 0, {};
    runsExhausted, truncated, factorsExhausted := false, false, false;
    for batch := 0 to MAXIMUM_BATCHES
      invariant sample.None? && !runsExhausted && !factorsExhausted
      invariant checkedRuns == batch * RUN_BATCH_SIZE <= |db.runs|
      invariant cursor == if checkedRuns == 0 then None else Some(db.runs[checkedRuns - 1])
      invariant Standing(db, scope, checkedRuns, seen, truncated)
    {
      var runs := FetchRuns(db.runs, cursor, checkedRuns);
      if runs == [] {
        runsExhausted := true;
        return;
      }
      sample, seen, checkedRuns, truncated, factorsExhausted :=
        CheckRuns(db, scope, runs, checkedRuns, seen, truncated);
      if sample.Some? || factorsExhausted {
        return;
      }
      if |runs| < RUN_BATCH_SIZE {
        runsExhausted := true;
        return;
      }
      cursor := Some(runs[|runs| - 1]);
    }
  }

  /** With all runs looked at and nothing cut off, every named factor was seen. */
  lemma NothingCompact(db: Database, scope: string, seen: set<Identity>)
    requires Standing(db, scope, |db.runs|, seen, false) && |db.runs| < RUN_BATCH_SIZE * MAXIMUM_BATCHES
    ensures WithinBudgets(db, scope)
    ensures forall identity :: !Compact(db, scope, identity)
  {
    NothingCutOff(db, scope);
    forall run, s | run in db.runs && s in Candidates(db, scope, run)
      ensures s.identity in seen
    {
      var i :| 0 <= i < |db.runs| && db.runs[i] == run;
      var k :| 0 <= k < |Candidates(db, scope, run)| && Candidates(db, scope, run)[k] == s;
      assert Fetched(db, scope, run)[k] == s.identity;
      RunLookedAt(db, scope, |db.runs|, i);
    }
    LookedAtAreNamed(db, scope, |db.runs|);
    assert NamedFactors(db, scope) == seen;
    SeenOrder(db, scope, LookedAt(db, scope, |db.runs|), seen);
    forall identity
      ensures !Compact(db, scope, identity)
    {
      if Compact(db, scope, identity) {
        CompactIsNamed(db, scope, identity);
        assert false;
      }
    }
  }

  /** The factors that all budgets together let the search look at. */
  ghost function Reached(db: Database, scope: string): seq<Identity> {
    Limit(FactorOrder(db, scope, ReachableRuns(db)), MAXIMUM_FACTORS)
  }

  /** The number of runs that a search without an answer inspects: all that the batches reach, or those up to the one in
      which the factor budget ends. */
  ghost predicate RunsUntilGivenUp(db: Database, scope: string, n: nat) {
    || (n == ReachableRuns(db) && |FactorOrder(db, scope, n)| <= MAXIMUM_FACTORS)
    || OverrunInRun(db, scope, n)
  }

  /** Some factor that they let the search look at is compact. */
  ghost predicate ReachesCompact(db: Database, scope: string) {
    exists identity :: identity in Reached(db, scope) && Compact(db, scope, identity)
  }

  lemma AnswerIsReached(db: Database, scope: string, n: nat, identity: Identity)
    requires n <= ReachableRuns(db) && AnswerInRun(db, scope, n, identity)
    ensures FirstCompact(db, scope, Reached(db, scope), identity) && ReachesCompact(db, scope)
  {
    var order := FactorOrder(db, scope, ReachableRuns(db));
    OrderGrows(db, scope, n, ReachableRuns(db));
    AnswerStays(db, scope, FactorOrder(db, scope, n), order, identity);
    var k :| 0 <= k < |order| && k < MAXIMUM_FACTORS && order[k] == identity
             && forall i :: 0 <= i < k ==> !Compact(db, scope, order[i]);
    assert Reached(db, scope)[k] == identity;
    assert forall i :: 0 <= i < k ==> Reached(db, scope)[i] == order[i];
  }

  lemma OverrunReachesNothing(db: Database, scope: string, n: nat)
    requires n <= ReachableRuns(db) && OverrunInRun(db, scope, n)
    ensures !ReachesCompact(db, scope) && !WithinBudgets(db, scope)
  {
    OrderGrows(db, scope, n, ReachableRuns(db));
    OrderIsNamed(db, scope, n);
    assert forall k :: 0 <= k < MAXIMUM_FACTORS ==> Reached(db, scope)[k] == FactorOrder(db, scope, n)[k];
  }

  lemma StandingReachesNothing(db: Database, scope: string, seen: set<Identity>, truncated: bool)
    requires Standing(db, scope, ReachableRuns(db), seen, truncated)
    ensures !ReachesCompact(db, scope)
    ensures RunsUntilGivenUp(db, scope, ReachableRuns(db))
    ensures truncated || |db.runs| >= RUN_BATCH_SIZE * MAXIMUM_BATCHES ==> !WithinBudgets(db, scope)
  {
    if truncated {
      SomethingCutOff(db, scope, ReachableRuns(db));
    }
    SeenOrder(db, scope, LookedAt(db, scope, ReachableRuns(db)), seen);
  }

  /** `compact_time_summary_sample` returns a sample of the first compact factor that its budgets reach, exactly when
      they reach one.  It reports absence exactly when no factor is compact and every budget was large enough to know
      it, and otherwise gives up after a definite number of runs. */
  method CompactTimeSummarySample(db: Database, scope: string) returns (answer: Answer)
    requires Ordered(db.runs)
    ensures answer.UnsupportedScope? <==> scope !in {"time_series", "cross_sectional"}
    ensures answer.Sample? ==> GoodSample(db, scope, answer.summary)
    ensures answer.Sample? ==> FirstCompact(db, scope, Reached(db, scope), answer.summary.identity)
    ensures scope in {"time_series", "cross_sectional"} ==>
      (answer.Sample? <==> ReachesCompact(db, scope))
    ensures scope in {"time_series", "cross_sectional"} ==>
      (answer.NoSample? <==> WithinBudgets(db, scope) && forall identity :: !Compact(db, scope, identity))
    ensures answer.SearchIncomplete? ==> RunsUntilGivenUp(db, scope, answer.checkedRuns) && !WithinBudgets(db, scope)
  {
    if scope !in {"time_series", "cross_sectional"} {
      return UnsupportedScope;
    }
    var sample, checkedRuns, seen, runsExhausted, truncated, factorsExhausted := CheckBatches(db, scope);
    if sample.Some? {
      AnswerIsReached(db, scope, checkedRuns, sample.value.identity);
      return Sample(sample.value);
    }
    if factorsExhausted {
      OverrunReachesNothing(db, scope, checkedRuns);
    } else {
      StandingReachesNothing(db, scope, seen, truncated);
    }
    if !runsExhausted || truncated || factorsExhausted {
      return SearchIncomplete(checkedRuns);
    }
    NothingCompact(db, scope, seen);
    return NoSample;
  }

  // ---- Exactly as many runs as the batches reach ----

  /** 256 completed runs and not a single summary. */
  const FULL_BATCHES := Database(seq(256, i => Run(256 - i, "run", Some(0))), [])

  /** All 256 runs are inspected and there is nothing left to find, but the search does not know it. */
  method FullBatchesGiveUp(scope: string) returns (answer: Answer)
    requires scope in {"time_series", "cross_sectional"}
    ensures |FULL_BATCHES.runs| == 256 && forall identity :: !Compact(FULL_BATCHES, scope, identity)
    ensures answer == SearchIncomplete(256)
  {
    assert NamedFactors(FULL_BATCHES, scope) == {};
    answer := CompactTimeSummarySample(FULL_BATCHES, scope);
    if answer.SearchIncomplete? && answer.checkedRuns != 256 {
      OrderIsNamed(FULL_BATCHES, scope, answer.checkedRuns);
    }
  }
}
