/** `check_frozen_missing_dates`, one day at a time: what the daily revisions visible at a cutoff say about a day.
    Timestamps with and without a zone do not compare, so visibility is three-valued. */
module FrozenCalendar {
  import opened Outcomes
  import opened Queries

  /** A parsed timestamp: absent or malformed, without a zone, or an instant with a zone. */
  datatype Stamp = NoStamp | Naive(t: int) | Aware(t: int)

  /** `_timestamp_is_at_or_before`: undefined across zone styles. */
  function AtOrBefore(a: Stamp, b: Stamp): Option<bool> {
    match (a, b)
    case (Naive(x), Naive(y)) => Some(x <= y)
    case (Aware(x), Aware(y)) => Some(x <= y)
    case _ => None
  }

  /** The six codes of ENVIRONMENT_LABELS, or any other text. */
  datatype LabelCode =
    UNILATERAL_UP | CHOPPY_UP | NARROW_RANGE | WIDE_RANGE | UNILATERAL_DOWN | CHOPPY_DOWN | Unlisted(text: string)

  /** A row of market_environment_daily. */
  datatype Daily = Daily(
    id: int, day: int, labelKind: string, labelCode: LabelCode, labelStatus: string, revision: int, availableAt: Stamp)

  datatype Severity = FAIL | BLOCKED_DATA_PRECONDITION | BLOCKED_DOC

  datatype Code =
    ENV_REVISION_AVAILABLE_AT_MISSING | ENV_REVISION_HISTORY_TIMEZONE_UNDEFINED | ENV_FROZEN_CALENDAR_DATE_INVALID
    | ENV_FROZEN_MEMBER_IDENTITY_MISSING | ENV_FROZEN_CALENDAR_DECLARATION_MISSING | ENV_BATCH_CALENDAR_REVERSED
    | ENV_FROZEN_MISSING_DATES_CONFLICT | ENV_FROZEN_DECLARED_DATE_OUTSIDE_BATCH
    | ENV_FULL_CALENDAR_HISTORY_PARTITION_MISMATCH | ENV_FROZEN_MEMBER_DATE_NOT_VISIBLE
    | ENV_FROZEN_UNAVAILABLE_DATE_NOT_DECLARED | ENV_VISIBLE_REVISION_AMBIGUOUS
    | ENV_FROZEN_MISSING_DATE_SELECTION_POLICY_UNDEFINED | ENV_VISIBLE_READY_LABEL_INVALID
    | ENV_FROZEN_MISSING_DATE_HAS_VISIBLE_ENVIRONMENT | ENV_FROZEN_VISIBLE_DATE_OMITTED
    | ENV_FROZEN_REVISION_NOT_LATEST_VISIBLE | ENV_FROZEN_MEMBERS_MISSING | ENV_FULL_CALENDAR_HISTORY_NOT_LOADED
    | ENV_FROZEN_AS_OF_MISSING

  /** `about` is the batch, day or daily row that the evidence names; 0 where the source gives none. */
  datatype Issue = Issue(severity: Severity, code: Code, about: int)

  // ---- Accumulating over a sequence ----

  function FlatMap<A, B>(f: A -> seq<B>, xs: seq<A>): seq<B> {
    if xs == [] then [] else FlatMap(f, xs[..|xs| - 1]) + f(xs[|xs| - 1])
  }

  lemma FlatMapStep<A, B>(f: A -> seq<B>, xs: seq<A>, i: nat)
    requires i < |xs|
    ensures FlatMap(f, xs[..i + 1]) == FlatMap(f, xs[..i]) + f(xs[i])
  {
    assert xs[..i + 1][..i] == xs[..i];
  }

  lemma FlatMapOfThree<A, B>(f: A -> seq<B>, a: A, b: A, c: A)
    ensures FlatMap(f, [a, b, c]) == f(a) + f(b) + f(c)
  {
    assert [a, b, c][..2] == [a, b] && [a, b][..1] == [a] && [a][..0] == [];
    assert FlatMap(f, [a]) == f(a);
    assert FlatMap(f, [a, b]) == f(a) + f(b);
  }

  lemma {:induction false} FlatMapContents<A, B>(f: A -> seq<B>, xs: seq<A>)
    ensures forall y :: y in FlatMap(f, xs) <==> exists x :: x in xs && y in f(x)
    ensures FlatMap(f, xs) == [] <==> forall x :: x in xs ==> f(x) == []
  {
    if xs == [] {
    } else {
      var rest, last := xs[..|xs| - 1], xs[|xs| - 1];
      FlatMapContents(f, rest);
      assert forall x :: x in xs <==> x in rest || x == last;
    }
  }

  // ---- One day ----

  function Visibility(row: Daily, cutoff: Stamp): Option<bool> {
    AtOrBefore(row.availableAt, cutoff)
  }

  function IfVisible(row: Daily, cutoff: Stamp): seq<Daily> {
    if Visibility(row, cutoff) == Some(true) then [row] else []
  }

  function IfUnknown(row: Daily, cutoff: Stamp): seq<Daily> {
    if Visibility(row, cutoff).None? then [row] else []
  }

  function StampIssues(row: Daily, cutoff: Stamp): seq<Issue> {
    if row.availableAt.NoStamp? then [Issue(BLOCKED_DATA_PRECONDITION, ENV_REVISION_AVAILABLE_AT_MISSING, row.id)]
    else if Visibility(row, cutoff).None? then [Issue(BLOCKED_DOC, ENV_REVISION_HISTORY_TIMEZONE_UNDEFINED, row.id)]
    else []
  }

  /** The row with the greatest revision, the first of them if there are several. */
  function Latest(rows: seq<Daily>): (r: Daily)
    requires rows != []
    ensures r in rows && forall x :: x in rows ==> x.revision <= r.revision
  {
    if |rows| == 1 then rows[0]
    else
      var rest := Latest(rows[..|rows| - 1]);
      var last := rows[|rows| - 1];
      assert forall x :: x in rows <==> x in rows[..|rows| - 1] || x == last;
      if last.revision > rest.revision then last else rest
  }

  predicate Ambiguous(rows: seq<Daily>) {
    exists i, j :: 0 <= i < j < |rows| && rows[i].revision == rows[j].revision
  }

  /** Whether rows of unknown visibility could hold the latest revision. */
  predicate Undecidable(visible: seq<Daily>, unknown: seq<Daily>) {
    unknown != []
    && (visible == []
        || exists i :: 0 <= i < |unknown|
             && (unknown[i].revision <= 0 || unknown[i].revision >= Latest(visible).revision))
  }

  /** What the revisions of a day say about it. */
  datatype Verdict = Skipped | Unavailable | AmbiguousRevision | NotReady(id: int) | BadLabel(id: int) | Ready(id: int)

  function Judge(visible: seq<Daily>, unknown: seq<Daily>): Verdict {
    if Undecidable(visible, unknown) then Skipped
    else if visible == [] then Unavailable
    else if Ambiguous(visible) then AmbiguousRevision
    else
      var latest := Latest(visible);
      if latest.labelStatus != "ready" then NotReady(latest.id)
      else if latest.labelCode.Unlisted? then BadLabel(latest.id)
      else Ready(latest.id)
  }

  /** The rows of a day that count as visible when the undecidable ones in `shown` turn out to be visible. */
  function IfResolved(row: Daily, cutoff: Stamp, shown: set<int>): seq<Daily> {
    if Visibility(row, cutoff) == Some(true) || (Visibility(row, cutoff).None? && row.id in shown) then [row] else []
  }

  function VisibleRows(rows: seq<Daily>, cutoff: Stamp): seq<Daily> {
    FlatMap(row => IfVisible(row, cutoff), rows)
  }

  function UnknownRows(rows: seq<Daily>, cutoff: Stamp): seq<Daily> {
    FlatMap(row => IfUnknown(row, cutoff), rows)
  }

  function ResolvedRows(rows: seq<Daily>, cutoff: Stamp, shown: set<int>): seq<Daily> {
    FlatMap(row => IfResolved(row, cutoff, shown), rows)
  }

  /** The verdict on a day, with undecidable rows taken into account. */
  function VerdictOn(rows: seq<Daily>, cutoff: Stamp): Verdict {
    Judge(VisibleRows(rows, cutoff), UnknownRows(rows, cutoff))
  }

  /** The verdict if every undecidable row were resolved. */
  function VerdictIf(rows: seq<Daily>, cutoff: Stamp, shown: set<int>): Verdict {
    Judge(ResolvedRows(rows, cutoff, shown), [])
  }

  predicate DistinctIds(rows: seq<Daily>) {
    forall i, j :: 0 <= i < j < |rows| ==> rows[i].id != rows[j].id
  }

  /** The rows that are visible or might be. */
  function PossibleRows(rows: seq<Daily>, cutoff: Stamp): seq<Daily> {
    ResolvedRows(rows, cutoff, set i | 0 <= i < |rows| :: rows[i].id)
  }

  lemma SelectionContents(keep: Daily -> seq<Daily>, rows: seq<Daily>)
    requires forall x :: keep(x) == [x] || keep(x) == []
    ensures forall x :: x in FlatMap(keep, rows) <==> x in rows && |keep(x)| == 1
  {
    FlatMapContents(keep, rows);
  }

  lemma Memberships(rows: seq<Daily>, cutoff: Stamp, shown: set<int>)
    ensures forall x :: x in VisibleRows(rows, cutoff) <==> x in rows && Visibility(x, cutoff) == Some(true)
    ensures forall x :: x in UnknownRows(rows, cutoff) <==> x in rows && Visibility(x, cutoff).None?
    ensures forall x :: x in ResolvedRows(rows, cutoff, shown)
              <==> x in rows && (Visibility(x, cutoff) == Some(true) || (Visibility(x, cutoff).None? && x.id in shown))
  {
    SelectionContents((row: Daily) => IfVisible(row, cutoff), rows);
    SelectionContents((row: Daily) => IfUnknown(row, cutoff), rows);
    SelectionContents((row: Daily) => IfResolved(row, cutoff, shown), rows);
  }

  predicate RevisionClash(a: Daily, b: Daily) {
    a.id != b.id && a.revision == b.revision
  }

  /** Two rows that both occur and share a revision. */
  ghost predicate Clashing(rows: seq<Daily>) {
    exists a, b :: a in rows && b in rows && RevisionClash(a, b)
  }

  lemma AmbiguousMeansClash(rows: seq<Daily>)
    requires DistinctIds(rows)
    ensures Ambiguous(rows) <==> Clashing(rows)
  {
    if Ambiguous(rows) {
      var i, j :| 0 <= i < j < |rows| && rows[i].revision == rows[j].revision;
      assert RevisionClash(rows[i], rows[j]);
    }
    if Clashing(rows) {
      var a, b :| a in rows && b in rows && RevisionClash(a, b);
      var i :| 0 <= i < |rows| && rows[i] == a;
      var j :| 0 <= j < |rows| && rows[j] == b;
      assert i < j || j < i;
    }
  }

  lemma {:induction false} SubrowsDistinct(f: Daily -> seq<Daily>, rows: seq<Daily>)
    requires DistinctIds(rows) && forall x :: f(x) == [x] || f(x) == []
    ensures DistinctIds(FlatMap(f, rows))
  {
    if rows == [] {
    } else {
      var rest := rows[..|rows| - 1];
      SubrowsDistinct(f, rest);
      FlatMapContents(f, rest);
      var left := FlatMap(f, rest);
      forall i | 0 <= i < |left|
        ensures left[i].id != rows[|rows| - 1].id
      {
        assert left[i] in left;
        var x :| x in rest && left[i] in f(x);
        var k :| 0 <= k < |rest| && rest[k] == x;
        assert rows[k] == left[i];
      }
    }
  }

  lemma DistinctSelections(rows: seq<Daily>, cutoff: Stamp, shown: set<int>)
    requires DistinctIds(rows)
    ensures DistinctIds(VisibleRows(rows, cutoff)) && DistinctIds(ResolvedRows(rows, cutoff, shown))
  {
    SubrowsDistinct((row: Daily) => IfVisible(row, cutoff), rows);
    SubrowsDistinct((row: Daily) => IfResolved(row, cutoff, shown), rows);
  }

  lemma SameId(rows: seq<Daily>, a: Daily, b: Daily)
    requires DistinctIds(rows) && a in rows && b in rows && a.id == b.id
    ensures a == b
  {
    var i :| 0 <= i < |rows| && rows[i] == a;
    var j :| 0 <= j < |rows| && rows[j] == b;
    if i != j {
      assert false;
    }
  }

  lemma LatestUnique(a: seq<Daily>, b: seq<Daily>)
    requires DistinctIds(a) && DistinctIds(b) && !Ambiguous(b) && a != []
    requires forall x :: x in a ==> x in b
    requires forall x :: x in b && x !in a ==> x.revision < Latest(a).revision
    ensures b != [] && Latest(b) == Latest(a)
  {
    var top := Latest(a);
    assert top in b;
    AmbiguousMeansClash(b);
    assert Latest(b) in b && Latest(b).revision == top.revision;
    assert !RevisionClash(Latest(b), top);
    SameId(b, Latest(b), top);
  }

  /** Rows between the visible and the possible ones give the verdict that was issued, unless they bring in a second row
      of some revision. */
  lemma JudgeKept(visible: seq<Daily>, unknown: seq<Daily>, resolved: seq<Daily>)
    requires DistinctIds(visible) && DistinctIds(resolved) && !Undecidable(visible, unknown)
    requires forall x :: x in visible ==> x in resolved
    requires forall x :: x in resolved ==> x in visible || x in unknown
    requires Ambiguous(visible) || !Ambiguous(resolved)
    ensures Judge(resolved, []) == Judge(visible, unknown)
  {
    AmbiguousMeansClash(visible);
    AmbiguousMeansClash(resolved);
    if visible == [] {
      NothingIn(resolved);
    } else if !Ambiguous(visible) {
      assert visible[0] in visible;
      forall x | x in resolved && x !in visible
        ensures x.revision < Latest(visible).revision
      {
        var i :| 0 <= i < |unknown| && unknown[i] == x;
      }
      LatestUnique(visible, resolved);
    } else {
      assert visible[0] in visible;
    }
  }

  /** The skip rule for one way of resolving: a verdict that was issued stays, unless the shown rows bring in a second
      row of some revision. */
  lemma ResolutionKeepsVerdict(rows: seq<Daily>, cutoff: Stamp, shown: set<int>)
    requires DistinctIds(rows) && VerdictOn(rows, cutoff) != Skipped
    requires Ambiguous(VisibleRows(rows, cutoff)) || !Ambiguous(ResolvedRows(rows, cutoff, shown))
    ensures VerdictIf(rows, cutoff, shown) == VerdictOn(rows, cutoff)
  {
    Memberships(rows, cutoff, shown);
    DistinctSelections(rows, cutoff, shown);
    JudgeKept(VisibleRows(rows, cutoff), UnknownRows(rows, cutoff), ResolvedRows(rows, cutoff, shown));
  }

  lemma AllShown(rows: seq<Daily>, cutoff: Stamp, shown: set<int>)
    ensures forall x :: x in ResolvedRows(rows, cutoff, shown) ==> x in PossibleRows(rows, cutoff)
    ensures forall x :: x in VisibleRows(rows, cutoff) ==> x in PossibleRows(rows, cutoff)
    ensures forall x :: x in PossibleRows(rows, cutoff) ==>
      x in VisibleRows(rows, cutoff) || x in UnknownRows(rows, cutoff)
  {
    Memberships(rows, cutoff, shown);
    Memberships(rows, cutoff, set i | 0 <= i < |rows| :: rows[i].id);
  }

  lemma Unstable(rows: seq<Daily>, cutoff: Stamp)
    requires DistinctIds(rows) && VerdictOn(rows, cutoff) != Skipped
    requires !Ambiguous(VisibleRows(rows, cutoff)) && Ambiguous(PossibleRows(rows, cutoff))
    ensures VerdictIf(rows, cutoff, set i | 0 <= i < |rows| :: rows[i].id) != VerdictOn(rows, cutoff)
  {
    AllShown(rows, cutoff, {});
    if VisibleRows(rows, cutoff) == [] {
      NothingIn(PossibleRows(rows, cutoff));
    }
  }

  /** A verdict holds under every way of resolving the undecidable rows exactly when the visible rows already share a
      revision or no two possible rows do: the skip rule does not look for a lower revision that occurs twice. */
  lemma VerdictStableExactlyWhen(rows: seq<Daily>, cutoff: Stamp)
    requires DistinctIds(rows) && VerdictOn(rows, cutoff) != Skipped
    ensures (forall shown :: VerdictIf(rows, cutoff, shown) == VerdictOn(rows, cutoff))
      <==> Ambiguous(VisibleRows(rows, cutoff)) || !Ambiguous(PossibleRows(rows, cutoff))
  {
    if Ambiguous(VisibleRows(rows, cutoff)) || !Ambiguous(PossibleRows(rows, cutoff)) {
      forall shown
        ensures VerdictIf(rows, cutoff, shown) == VerdictOn(rows, cutoff)
      {
        DistinctSelections(rows, cutoff, shown);
        DistinctSelections(rows, cutoff, set i | 0 <= i < |rows| :: rows[i].id);
        AmbiguousMeansClash(ResolvedRows(rows, cutoff, shown));
        AmbiguousMeansClash(PossibleRows(rows, cutoff));
        AllShown(rows, cutoff, shown);
        ResolutionKeepsVerdict(rows, cutoff, shown);
      }
    } else {
      Unstable(rows, cutoff);
    }
  }

  function ReadyRow(id: int, revision: int, stamp: Stamp): Daily {
    Daily(id, 0, "regime", CHOPPY_UP, "ready", revision, stamp)
  }

  /** A ready verdict that turns into "ambiguous" once row 3, whose stamp carries a zone, counts as visible. */
  lemma UndecidableLowerRevisionChangesVerdict()
    ensures
      var rows := [ReadyRow(1, 5, Naive(0)), ReadyRow(2, 4, Naive(0)), ReadyRow(3, 4, Aware(0))];
      VerdictOn(rows, Naive(9)) == Ready(1) && VerdictIf(rows, Naive(9), {3}) == AmbiguousRevision
  {
    var a, b, c := ReadyRow(1, 5, Naive(0)), ReadyRow(2, 4, Naive(0)), ReadyRow(3, 4, Aware(0));
    var cutoff := Naive(9);
    FlatMapOfThree((row: Daily) => IfVisible(row, cutoff), a, b, c);
    FlatMapOfThree((row: Daily) => IfUnknown(row, cutoff), a, b, c);
    FlatMapOfThree((row: Daily) => IfResolved(row, cutoff, {3}), a, b, c);
    assert VisibleRows([a, b, c], cutoff) == [a, b];
    assert UnknownRows([a, b, c], cutoff) == [c];
    assert ResolvedRows([a, b, c], cutoff, {3}) == [a, b, c];
    JudgeExample(a, b, c);
  }

  lemma JudgeExample(a: Daily, b: Daily, c: Daily)
    requires a == ReadyRow(1, 5, Naive(0)) && b == ReadyRow(2, 4, Naive(0)) && c == ReadyRow(3, 4, Aware(0))
    ensures Judge([a, b], [c]) == Ready(1) && Judge([a, b, c], []) == AmbiguousRevision
  {
    assert [a, b][..1] == [a];
    assert Latest([a, b]) == a;
    assert [a, b, c][1].revision == [a, b, c][2].revision;
  }
}
