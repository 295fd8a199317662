/** `check_frozen_missing_dates` as a whole: a frozen declaration of member days and missing days is compared with the
    calendar that the full revision history supports. */
module CalendarCheck {
  import opened Outcomes
  import opened FrozenCalendar

  /** A frozen member; `date` is None when it does not parse, `dailyId` when it is not an integer. */
  datatype Member = NotAMapping | Member(date: Option<int>, dailyId: Option<int>)

  datatype Declared<T> = NotAList | Items(items: seq<T>)

  datatype Frozen = Frozen(members: Declared<Member>, missing: Declared<Option<int>>)

  datatype Snapshot = Snapshot(
    batchId: int, startDay: int, endDay: int, labelKind: string, asOf: Stamp, frozen: Option<Frozen>,
    historyLoaded: bool, historyRange: (int, int, string), history: seq<Daily>)

  datatype Status = Failed | BlockedData | BlockedDoc | Passed

  predicate Has(issues: seq<Issue>, severity: Severity) {
    exists i :: 0 <= i < |issues| && issues[i].severity == severity
  }

  datatype CheckResult = CheckResult(checked: nat, issues: seq<Issue>) {
    /** `_result`: a failure outranks missing data, which outranks undefined documentation. */
    function Status(): (status: Status)
      ensures status == Failed <==> Has(issues, FAIL)
      ensures status == Passed <==> Silent()
      ensures status == BlockedData
              <==> !Has(issues, FAIL) && (Has(issues, BLOCKED_DATA_PRECONDITION) || checked == 0)
      ensures status == BlockedDoc
              <==> Has(issues, BLOCKED_DOC) && !Has(issues, FAIL) && !Has(issues, BLOCKED_DATA_PRECONDITION)
                   && checked > 0
    {
      if Has(issues, FAIL) then Failed
      else if Has(issues, BLOCKED_DATA_PRECONDITION) || checked == 0 then BlockedData
      else if issues != [] then
        assert issues[0].severity == BLOCKED_DOC;
        BlockedDoc
      else Passed
    }

    predicate Silent() {
      issues == [] && checked > 0
    }
  }

  // ---- The declaration ----

  function ItemsOf<T>(declared: Declared<T>): seq<T> {
    if declared.Items? then declared.items else []
  }

  predicate Positive(x: Option<int>) {
    x.Some? && x.value > 0
  }

  predicate Dated(m: Member) {
    m.Member? && m.date.Some?
  }

  function MemberIssues(m: Member): seq<Issue> {
    if !Dated(m) then [Issue(BLOCKED_DATA_PRECONDITION, ENV_FROZEN_CALENDAR_DATE_INVALID, 0)]
    else if !Positive(m.dailyId) then
      [Issue(BLOCKED_DATA_PRECONDITION, ENV_FROZEN_MEMBER_IDENTITY_MISSING, m.date.value)]
    else []
  }

  function Entry(m: Member): seq<(int, Option<int>)> {
    if Dated(m) then [(m.date.value, m.dailyId)] else []
  }

  function MissingIssues(d: Option<int>): seq<Issue> {
    if d.None? then [Issue(BLOCKED_DATA_PRECONDITION, ENV_FROZEN_CALENDAR_DATE_INVALID, 0)] else []
  }

  function DayOf(d: Option<int>): seq<int> {
    if d.Some? then [d.value] else []
  }

  /** What the frozen mapping declares; the flags say that every item of the lists could be read. */
  datatype Declaration = Declaration(
    members: seq<(int, Option<int>)>, missing: seq<int>, membersComplete: bool, missingComplete: bool)
  {
    predicate IsMember(day: int) {
      exists i :: 0 <= i < |members| && members[i].0 == day
    }

    function IdsOn(day: int): seq<Option<int>> {
      FlatMap((m: (int, Option<int>)) => if m.0 == day then [m.1] else [], members)
    }
  }

  function Read(f: Frozen): Declaration {
    var members, missing := ItemsOf(f.members), ItemsOf(f.missing);
    Declaration(
      FlatMap(Entry, members), FlatMap(DayOf, missing),
      f.members.Items? && forall i :: 0 <= i < |members| ==> Dated(members[i]),
      f.missing.Items? && forall i :: 0 <= i < |missing| ==> missing[i].Some?)
  }

  function ReadIssues(f: Frozen): seq<Issue> {
    (if f.members.Items? && f.missing.Items? then []
     else [Issue(BLOCKED_DATA_PRECONDITION, ENV_FROZEN_CALENDAR_DECLARATION_MISSING, 0)])
    + FlatMap(MemberIssues, ItemsOf(f.members)) + FlatMap(MissingIssues, ItemsOf(f.missing))
  }

  predicate Repeats<T(==)>(s: seq<T>) {
    exists i, j :: 0 <= i < j < |s| && s[i] == s[j]
  }

  predicate SameDay(members: seq<(int, Option<int>)>, i: int, j: int) {
    0 <= i < j < |members| && members[i].0 == members[j].0
  }

  predicate Conflict(d: Declaration) {
    (exists i, j {:trigger SameDay(d.members, i, j)} :: 0 <= i < j < |d.members| && SameDay(d.members, i, j))
    || Repeats(d.missing)
    || exists i :: 0 <= i < |d.missing| && d.IsMember(d.missing[i])
  }

  predicate Outside(d: Declaration, startDay: int, endDay: int) {
    (exists i :: 0 <= i < |d.members| && !(startDay <= d.members[i].0 <= endDay))
    || exists i :: 0 <= i < |d.missing| && !(startDay <= d.missing[i] <= endDay)
  }

  function PartitionIssues(s: Snapshot, d: Declaration): seq<Issue> {
    (if s.endDay < s.startDay then [Issue(FAIL, ENV_BATCH_CALENDAR_REVERSED, s.batchId)] else [])
    + (if Conflict(d) then [Issue(FAIL, ENV_FROZEN_MISSING_DATES_CONFLICT, s.batchId)] else [])
    + (if Outside(d, s.startDay, s.endDay) then [Issue(FAIL, ENV_FROZEN_DECLARED_DATE_OUTSIDE_BATCH, s.batchId)]
       else [])
  }

  // ---- The history ----

  predicate InPartition(s: Snapshot, row: Daily) {
    row.labelKind == s.labelKind && s.startDay <= row.day <= s.endDay
  }

  function RowIssues(s: Snapshot, row: Daily): seq<Issue> {
    if InPartition(s, row) then [] else [Issue(FAIL, ENV_FULL_CALENDAR_HISTORY_PARTITION_MISMATCH, row.id)]
  }

  function OnDay(s: Snapshot, day: int, row: Daily): seq<Daily> {
    if InPartition(s, row) && row.day == day then [row] else []
  }

  /** The revisions of a day, in the order of the history. */
  function DayRows(s: Snapshot, day: int): seq<Daily> {
    FlatMap((row: Daily) => OnDay(s, day, row), s.history)
  }

  function StampFindings(rows: seq<Daily>, cutoff: Stamp): seq<Issue> {
    FlatMap((row: Daily) => StampIssues(row, cutoff), rows)
  }

  /** What a verdict on a day means for the declaration. */
  function Compare(d: Declaration, day: int, verdict: Verdict): seq<Issue> {
    match verdict
    case Skipped => []
    case Unavailable =>
      if d.IsMember(day) then [Issue(FAIL, ENV_FROZEN_MEMBER_DATE_NOT_VISIBLE, day)]
      else if d.missingComplete && d.membersComplete && day !in d.missing
      then [Issue(FAIL, ENV_FROZEN_UNAVAILABLE_DATE_NOT_DECLARED, day)]
      else []
    case AmbiguousRevision => [Issue(FAIL, ENV_VISIBLE_REVISION_AMBIGUOUS, day)]
    case NotReady(id) => [Issue(BLOCKED_DOC, ENV_FROZEN_MISSING_DATE_SELECTION_POLICY_UNDEFINED, id)]
    case BadLabel(id) => [Issue(FAIL, ENV_VISIBLE_READY_LABEL_INVALID, id)]
    case Ready(id) =>
      if day in d.missing then [Issue(FAIL, ENV_FROZEN_MISSING_DATE_HAS_VISIBLE_ENVIRONMENT, id)]
      else if d.membersComplete && !d.IsMember(day) then [Issue(FAIL, ENV_FROZEN_VISIBLE_DATE_OMITTED, id)]
      else
        var ids := d.IdsOn(day);
        if ids != [] && (forall i :: 0 <= i < |ids| ==> Positive(ids[i])) && ids != [Some(id)]
        then [Issue(FAIL, ENV_FROZEN_REVISION_NOT_LATEST_VISIBLE, id)]
        else []
  }

  function DayIssues(s: Snapshot, d: Declaration, day: int): seq<Issue> {
    StampFindings(DayRows(s, day), s.asOf) + Compare(d, day, VerdictOn(DayRows(s, day), s.asOf))
  }

  /** What `f` gives for the days from `lo` up to but not including `hi`, in order. */
  function Gather(f: int -> seq<Issue>, lo: int, hi: int): seq<Issue>
    decreases hi - lo
  {
    if hi <= lo then [] else Gather(f, lo, hi - 1) + f(hi - 1)
  }

  function DayCheck(s: Snapshot, d: Declaration): int -> seq<Issue> {
    day => DayIssues(s, d, day)
  }

  function Length(s: Snapshot): nat {
    if s.endDay < s.startDay then 0 else s.endDay - s.startDay + 1
  }

  function HistoryIssues(s: Snapshot): seq<Issue> {
    FlatMap((row: Daily) => RowIssues(s, row), s.history)
  }

  function CalendarFindings(s: Snapshot, check: int -> seq<Issue>, declared: seq<Issue>): CheckResult {
    CheckResult(Length(s), declared + HistoryIssues(s) + Gather(check, s.startDay, s.startDay + Length(s)))
  }

  /** The findings on a frozen declaration when `check` looks at the days. */
  function FindingsWith(s: Snapshot, f: Frozen, check: int -> seq<Issue>): CheckResult {
    var declared := ReadIssues(f) + PartitionIssues(s, Read(f));
    if !s.historyLoaded || s.historyRange != (s.startDay, s.endDay, s.labelKind) then
      CheckResult(0, declared + [Issue(BLOCKED_DATA_PRECONDITION, ENV_FULL_CALENDAR_HISTORY_NOT_LOADED, s.batchId)])
    else if s.asOf.NoStamp? then
      CheckResult(0, declared + [Issue(BLOCKED_DATA_PRECONDITION, ENV_FROZEN_AS_OF_MISSING, 0)])
    else CalendarFindings(s, check, declared)
  }

  /** Everything the check reports. */
  function Findings(s: Snapshot): CheckResult {
    if s.frozen.None? then CheckResult(0, [Issue(BLOCKED_DATA_PRECONDITION, ENV_FROZEN_MEMBERS_MISSING, 0)])
    else FindingsWith(s, s.frozen.value, DayCheck(s, Read(s.frozen.value)))
  }

  // ---- What a passing snapshot looks like ----

  /** The lists can be read completely, and every member names a positive daily identity. */
  ghost predicate Readable(f: Frozen) {
    f.members.Items? && f.missing.Items?
    && (forall i :: 0 <= i < |f.members.items| ==> Dated(f.members.items[i]) && Positive(f.members.items[i].dailyId))
    && forall i :: 0 <= i < |f.missing.items| ==> f.missing.items[i].Some?
  }

  /** Member days and missing days form a duplicate-free, disjoint partition of the non-empty batch interval. */
  ghost predicate PartitionsBatch(s: Snapshot, f: Frozen)
    requires Readable(f)
  {
    var members, missing := f.members.items, f.missing.items;
    s.startDay <= s.endDay
    && (forall i, j :: 0 <= i < j < |members| ==> members[i].date != members[j].date)
    && (forall i, j :: 0 <= i < j < |missing| ==> missing[i] != missing[j])
    && (forall i, j :: 0 <= i < |members| && 0 <= j < |missing| ==> members[i].date != missing[j])
    && forall day :: s.startDay <= day <= s.endDay <==> DeclaredMember(f, day) || DeclaredMissing(f, day)
  }

  ghost predicate DeclaredMember(f: Frozen, day: int)
    requires f.members.Items?
  {
    exists i :: 0 <= i < |f.members.items| && f.members.items[i].Member? && f.members.items[i].date == Some(day)
  }

  ghost predicate DeclaredMissing(f: Frozen, day: int)
    requires f.missing.Items?
  {
    exists i :: 0 <= i < |f.missing.items| && f.missing.items[i] == Some(day)
  }

  predicate VisibleOn(s: Snapshot, day: int, row: Daily) {
    row.day == day && Visibility(row, s.asOf) == Some(true)
  }

  /** No revision of the day is visible at the cutoff. */
  ghost predicate NothingVisible(s: Snapshot, day: int) {
    forall i :: 0 <= i < |s.history| ==> !VisibleOn(s, day, s.history[i])
  }

  ghost predicate RevisionsDiffer(s: Snapshot, day: int) {
    forall i, j :: 0 <= i < j < |s.history| && VisibleOn(s, day, s.history[i]) && VisibleOn(s, day, s.history[j])
      ==> s.history[i].revision != s.history[j].revision
  }

  /** The member's identity is that of the highest visible revision, which is ready and carries a legal label. */
  ghost predicate CarriesLatest(s: Snapshot, day: int, id: int) {
    RevisionsDiffer(s, day)
    && exists i :: 0 <= i < |s.history| && VisibleOn(s, day, s.history[i]) && s.history[i].id == id
         && s.history[i].labelStatus == "ready" && !s.history[i].labelCode.Unlisted?
         && HighestVisible(s, day, s.history[i].revision)
  }

  ghost predicate HighestVisible(s: Snapshot, day: int, revision: int) {
    forall j :: 0 <= j < |s.history| && VisibleOn(s, day, s.history[j]) ==> s.history[j].revision <= revision
  }

  /** The history was loaded for exactly this batch, with comparable stamps throughout. */
  ghost predicate HistoryUsable(s: Snapshot) {
    s.historyLoaded && s.historyRange == (s.startDay, s.endDay, s.labelKind) && !s.asOf.NoStamp?
    && forall i :: 0 <= i < |s.history| ==> InPartition(s, s.history[i]) && Visibility(s.history[i], s.asOf).Some?
  }

  ghost predicate Correct(s: Snapshot) {
    s.frozen.Some? && Readable(s.frozen.value) && PartitionsBatch(s, s.frozen.value) && HistoryUsable(s)
    && (forall i :: 0 <= i < |s.frozen.value.missing.items|
          ==> NothingVisible(s, s.frozen.value.missing.items[i].value))
    && forall i :: 0 <= i < |s.frozen.value.members.items|
         ==> CarriesLatest(s, s.frozen.value.members.items[i].date.value, s.frozen.value.members.items[i].dailyId.value)
  }

  // ---- Reading the declaration ----

  lemma {:induction false} SingletonsInOrder<A, B>(f: A -> seq<B>, xs: seq<A>)
    requires forall x :: x in xs ==> |f(x)| == 1
    ensures |FlatMap(f, xs)| == |xs| && forall i :: 0 <= i < |xs| ==> FlatMap(f, xs)[i] == f(xs[i])[0]
  {
    if xs == [] {
    } else {
      SingletonsInOrder(f, xs[..|xs| - 1]);
    }
  }

  lemma ReadIssuesExact(f: Frozen)
    ensures ReadIssues(f) == [] <==> Readable(f)
  {
    FlatMapContents(MemberIssues, ItemsOf(f.members));
    FlatMapContents(MissingIssues, ItemsOf(f.missing));
    var members, missing := ItemsOf(f.members), ItemsOf(f.missing);
    assert forall i :: 0 <= i < |members| ==> members[i] in members;
    assert forall i :: 0 <= i < |missing| ==> missing[i] in missing;
  }

  /** A readable declaration, item by item. */
  ghost predicate Copies(f: Frozen, d: Declaration)
    requires Readable(f)
  {
    d.membersComplete && d.missingComplete
    && |d.members| == |f.members.items| && |d.missing| == |f.missing.items|
    && (forall i :: 0 <= i < |d.members| ==>
          d.members[i] == (f.members.items[i].date.value, f.members.items[i].dailyId))
    && forall i :: 0 <= i < |d.missing| ==> d.missing[i] == f.missing.items[i].value
  }

  lemma ReadExact(f: Frozen)
    requires Readable(f)
    ensures Copies(f, Read(f))
  {
    SingletonsInOrder(Entry, f.members.items);
    SingletonsInOrder(DayOf, f.missing.items);
  }

  ghost predicate Sound(d: Declaration) {
    d.membersComplete && d.missingComplete && !Conflict(d)
    && forall i :: 0 <= i < |d.members| ==> Positive(d.members[i].1)
  }

  lemma {:induction false} IdsOnAbsent(members: seq<(int, Option<int>)>, day: int)
    requires forall i :: 0 <= i < |members| ==> members[i].0 != day
    ensures FlatMap((m: (int, Option<int>)) => if m.0 == day then [m.1] else [], members) == []
  {
    FlatMapContents((m: (int, Option<int>)) => if m.0 == day then [m.1] else [], members);
  }

  lemma {:induction false} IdsOnPresent(members: seq<(int, Option<int>)>, k: nat)
    requires k < |members| && forall i, j :: 0 <= i < j < |members| ==> members[i].0 != members[j].0
    ensures FlatMap((m: (int, Option<int>)) => if m.0 == members[k].0 then [m.1] else [], members) == [members[k].1]
  {
    var rest := members[..|members| - 1];
    if k == |members| - 1 {
      IdsOnAbsent(rest, members[k].0);
    } else {
      IdsOnPresent(rest, k);
      assert rest[k] == members[k];
    }
  }

  // ---- Reading a day ----

  ghost predicate ClashIn(keep: Daily -> seq<Daily>, rows: seq<Daily>) {
    exists i, j :: 0 <= i < j < |rows| && keep(rows[i]) != [] && keep(rows[j]) != []
           && rows[i].revision == rows[j].revision
  }

  ghost predicate HasRevision(rows: seq<Daily>, revision: int) {
    exists x :: x in rows && x.revision == revision
  }

  lemma AmbiguousSnoc(rows: seq<Daily>, last: Daily)
    ensures Ambiguous(rows + [last]) <==> Ambiguous(rows) || HasRevision(rows, last.revision)
  {
    var all := rows + [last];
    if Ambiguous(rows) {
      var i, j :| 0 <= i < j < |rows| && rows[i].revision == rows[j].revision;
      assert all[i].revision == all[j].revision;
    }
    if HasRevision(rows, last.revision) {
      var x :| x in rows && x.revision == last.revision;
      var i :| 0 <= i < |rows| && rows[i] == x;
      assert all[i].revision == all[|rows|].revision;
    }
    if Ambiguous(all) {
      var i, j :| 0 <= i < j < |all| && all[i].revision == all[j].revision;
      assert rows[i] in rows;
      assert j < |rows| ==> rows[i].revision == rows[j].revision;
    }
  }

  lemma ClashSnoc(keep: Daily -> seq<Daily>, rest: seq<Daily>, last: Daily)
    requires forall x :: keep(x) == [x] || keep(x) == []
    ensures ClashIn(keep, rest + [last])
      <==> ClashIn(keep, rest) || (keep(last) != [] && HasRevision(FlatMap(keep, rest), last.revision))
  {
    var all := rest + [last];
    FlatMapContents(keep, rest);
    if ClashIn(keep, rest) {
      var i, j :| 0 <= i < j < |rest| && keep(rest[i]) != [] && keep(rest[j]) != []
        && rest[i].revision == rest[j].revision;
      assert all[i] == rest[i] && all[j] == rest[j];
    }
    if keep(last) != [] && HasRevision(FlatMap(keep, rest), last.revision) {
      var y :| y in FlatMap(keep, rest) && y.revision == last.revision;
      var x :| x in rest && y in keep(x);
      var i :| 0 <= i < |rest| && rest[i] == x;
      assert all[i] == y && all[|rest|] == last;
    }
    if ClashIn(keep, all) && !ClashIn(keep, rest) {
      var i, j :| 0 <= i < j < |all| && keep(all[i]) != [] && keep(all[j]) != [] && all[i].revision == all[j].revision;
      assert rest[i] in rest && rest[i] in keep(rest[i]);
      assert rest[i] in FlatMap(keep, rest);
    }
  }

  lemma {:induction false} AmbiguousSelection(keep: Daily -> seq<Daily>, rows: seq<Daily>)
    requires forall x :: keep(x) == [x] || keep(x) == []
    ensures Ambiguous(FlatMap(keep, rows)) <==> ClashIn(keep, rows)
  {
    if rows == [] {
    } else {
      var rest, last := rows[..|rows| - 1], rows[|rows| - 1];
      AmbiguousSelection(keep, rest);
      ClashSnoc(keep, rest, last);
      assert rest + [last] == rows;
      if keep(last) == [] {
        assert FlatMap(keep, rest) + [] == FlatMap(keep, rest);
      } else {
        AmbiguousSnoc(FlatMap(keep, rest), last);
      }
    }
  }

  lemma {:induction false} SelectTwice(f: Daily -> seq<Daily>, g: Daily -> seq<Daily>, h: Daily -> seq<Daily>,
      rows: seq<Daily>)
    requires forall x :: (f(x) == [x] && h(x) == g(x)) || (f(x) == [] && h(x) == [])
    ensures FlatMap(g, FlatMap(f, rows)) == FlatMap(h, rows)
  {
    if rows == [] {
    } else {
      var rest, last := rows[..|rows| - 1], rows[|rows| - 1];
      SelectTwice(f, g, h, rest);
      var left := FlatMap(f, rest);
      if f(last) == [last] {
        assert (left + [last])[..|left|] == left;
      } else {
        assert left + [] == left;
      }
    }
  }

  function ShownOn(s: Snapshot, day: int, row: Daily): seq<Daily> {
    if InPartition(s, row) && VisibleOn(s, day, row) then [row] else []
  }

  /** The visible rows of a day straight from the history. */
  lemma VisibleRowsOfDay(s: Snapshot, day: int)
    requires HistoryPlaced(s)
    ensures forall x :: x in VisibleRows(DayRows(s, day), s.asOf) <==> x in s.history && VisibleOn(s, day, x)
    ensures Ambiguous(VisibleRows(DayRows(s, day), s.asOf)) <==> !RevisionsDiffer(s, day)
  {
    var shown := (row: Daily) => ShownOn(s, day, row);
    SelectTwice((row: Daily) => OnDay(s, day, row), (row: Daily) => IfVisible(row, s.asOf), shown, s.history);
    FlatMapContents(shown, s.history);
    AmbiguousSelection(shown, s.history);
  }

  lemma UnknownRowsOfDay(s: Snapshot, day: int)
    ensures StampFindings(DayRows(s, day), s.asOf) == [] <==> UnknownRows(DayRows(s, day), s.asOf) == []
    ensures UnknownRows(DayRows(s, day), s.asOf) == []
      <==> forall i :: 0 <= i < |s.history| && InPartition(s, s.history[i]) && s.history[i].day == day
             ==> Visibility(s.history[i], s.asOf).Some?
  {
    FlatMapContents((row: Daily) => OnDay(s, day, row), s.history);
    FlatMapContents((row: Daily) => StampIssues(row, s.asOf), DayRows(s, day));
    FlatMapContents((row: Daily) => IfUnknown(row, s.asOf), DayRows(s, day));
    assert forall i :: 0 <= i < |s.history| ==> s.history[i] in s.history;
    assert forall x :: StampIssues(x, s.asOf) == [] <==> IfUnknown(x, s.asOf) == [];
    forall x | x in DayRows(s, day)
      ensures x in s.history && InPartition(s, x) && x.day == day
    {
      var y :| y in s.history && x in OnDay(s, day, y);
    }
    forall x | x in s.history && InPartition(s, x) && x.day == day
      ensures x in DayRows(s, day)
    {
      assert x in OnDay(s, day, x);
    }
  }

  lemma NothingVisibleMeans(s: Snapshot, day: int)
    requires HistoryPlaced(s)
    ensures VisibleRows(DayRows(s, day), s.asOf) == [] <==> NothingVisible(s, day)
  {
    VisibleRowsOfDay(s, day);
    var visible := VisibleRows(DayRows(s, day), s.asOf);
    if visible != [] {
      assert visible[0] in visible;
    }
    assert forall i :: 0 <= i < |s.history| ==> s.history[i] in s.history;
  }

  /** Row `k` has the highest visible revision: it decides which identity carries the latest one. */
  lemma TopCarries(s: Snapshot, day: int, id: int, k: nat)
    requires RevisionsDiffer(s, day) && k < |s.history| && VisibleOn(s, day, s.history[k])
    requires HighestVisible(s, day, s.history[k].revision)
    ensures CarriesLatest(s, day, id)
      <==> s.history[k].id == id && s.history[k].labelStatus == "ready" && !s.history[k].labelCode.Unlisted?
  {
    if CarriesLatest(s, day, id) {
      var i :| 0 <= i < |s.history| && VisibleOn(s, day, s.history[i]) && s.history[i].id == id
        && s.history[i].labelStatus == "ready" && !s.history[i].labelCode.Unlisted?
        && HighestVisible(s, day, s.history[i].revision);
      assert i == k;
    }
  }

  lemma LatestIsHighest(s: Snapshot, day: int) returns (k: nat)
    requires HistoryUsable(s) && VisibleRows(DayRows(s, day), s.asOf) != []
    ensures k < |s.history| && s.history[k] == Latest(VisibleRows(DayRows(s, day), s.asOf))
    ensures VisibleOn(s, day, s.history[k]) && HighestVisible(s, day, s.history[k].revision)
  {
    VisibleRowsOfDay(s, day);
    var top := Latest(VisibleRows(DayRows(s, day), s.asOf));
    k :| 0 <= k < |s.history| && s.history[k] == top;
    assert forall i :: 0 <= i < |s.history| ==> s.history[i] in s.history;
  }

  lemma LatestMeans(s: Snapshot, day: int, id: int)
    requires HistoryUsable(s)
    ensures Judge(VisibleRows(DayRows(s, day), s.asOf), []) == Ready(id) <==> CarriesLatest(s, day, id)
  {
    VisibleRowsOfDay(s, day);
    NothingVisibleMeans(s, day);
    if VisibleRows(DayRows(s, day), s.asOf) != [] && RevisionsDiffer(s, day) {
      var k := LatestIsHighest(s, day);
      TopCarries(s, day, id, k);
    }
  }

  // ---- The verdict ----

  ghost predicate MemberHasId(d: Declaration, day: int, id: int) {
    exists i :: 0 <= i < |d.members| && d.members[i] == (day, Some(id))
  }

  lemma IdsOnMeans(d: Declaration, day: int, id: int)
    requires Sound(d) && d.IsMember(day)
    ensures |d.IdsOn(day)| == 1 && Positive(d.IdsOn(day)[0])
    ensures d.IdsOn(day) == [Some(id)] <==> MemberHasId(d, day, id)
  {
    var k :| 0 <= k < |d.members| && d.members[k].0 == day;
    forall i, j | 0 <= i < j < |d.members|
      ensures d.members[i].0 != d.members[j].0
    {
      assert !SameDay(d.members, i, j);
    }
    IdsOnPresent(d.members, k);
    if MemberHasId(d, day, id) {
      var i :| 0 <= i < |d.members| && d.members[i] == (day, Some(id));
      assert i == k;
    } else {
      assert d.members[k] != (day, Some(id));
    }
  }

  /** The comparison is silent on a missing day without a visible revision and on a member with the right identity. */
  lemma CompareMeans(d: Declaration, day: int, verdict: Verdict)
    requires Sound(d) && !verdict.Skipped?
    ensures Compare(d, day, verdict) == []
      <==> (verdict.Unavailable? && day in d.missing)
           || (verdict.Ready? && d.IsMember(day) && MemberHasId(d, day, verdict.id))
  {
    if day in d.missing {
      var j :| 0 <= j < |d.missing| && d.missing[j] == day;
      assert !d.IsMember(day);
    } else if verdict.Ready? && d.IsMember(day) {
      IdsOnMeans(d, day, verdict.id);
    }
  }

  /** A day on which the declaration and the history agree. */
  ghost predicate DayAgrees(s: Snapshot, d: Declaration, day: int) {
    (day in d.missing && NothingVisible(s, day))
    || exists i :: 0 <= i < |d.members| && d.members[i].0 == day && Carries(s, d.members[i])
  }

  ghost predicate Carries(s: Snapshot, m: (int, Option<int>)) {
    m.1.Some? && CarriesLatest(s, m.0, m.1.value)
  }

  lemma JudgeUnavailable(visible: seq<Daily>)
    ensures Judge(visible, []).Unavailable? <==> visible == []
    ensures !Judge(visible, []).Skipped?
  {
  }

  lemma DayClean(s: Snapshot, d: Declaration, day: int)
    requires HistoryUsable(s) && Sound(d)
    ensures |DayIssues(s, d, day)| == 0 <==> DayAgrees(s, d, day)
  {
    UnknownRowsOfDay(s, day);
    NothingVisibleMeans(s, day);
    var visible := VisibleRows(DayRows(s, day), s.asOf);
    var verdict := VerdictOn(DayRows(s, day), s.asOf);
    JudgeUnavailable(visible);
    CompareMeans(d, day, verdict);
    if verdict.Ready? {
      LatestMeans(s, day, verdict.id);
    }
    if i :| 0 <= i < |d.members| && d.members[i].0 == day && Carries(s, d.members[i]) {
      LatestMeans(s, day, d.members[i].1.value);
      assert MemberHasId(d, day, verdict.id);
    }
    if verdict.Ready? && MemberHasId(d, day, verdict.id) {
      var i :| 0 <= i < |d.members| && d.members[i] == (day, Some(verdict.id));
      assert Carries(s, d.members[i]);
    }
  }

  lemma {:induction false} GatherEmpty(f: int -> seq<Issue>, lo: int, hi: int)
    ensures |Gather(f, lo, hi)| == 0 <==> forall day :: lo <= day < hi ==> |f(day)| == 0
    decreases hi - lo
  {
    if lo >= hi {
    } else {
      GatherEmpty(f, lo, hi - 1);
    }
  }

  lemma GatherStep(f: int -> seq<Issue>, lo: int, hi: int)
    requires lo <= hi
    ensures Gather(f, lo, hi + 1) == Gather(f, lo, hi) + f(hi)
  {
  }

  lemma RowsClean(s: Snapshot)
    ensures HistoryIssues(s) == []
      <==> forall i :: 0 <= i < |s.history| ==> InPartition(s, s.history[i])
  {
    FlatMapContents((row: Daily) => RowIssues(s, row), s.history);
    assert forall i :: 0 <= i < |s.history| ==> s.history[i] in s.history;
  }

  /** With comparable stamps left aside, everything about the history that the check asks for. */
  ghost predicate HistoryPlaced(s: Snapshot) {
    s.historyLoaded && s.historyRange == (s.startDay, s.endDay, s.labelKind) && !s.asOf.NoStamp?
    && forall i :: 0 <= i < |s.history| ==> InPartition(s, s.history[i])
  }

  /** The revisions of a day have stamps that compare with the cutoff. */
  ghost predicate Comparable(s: Snapshot, day: int) {
    forall i :: 0 <= i < |s.history| && InPartition(s, s.history[i]) && s.history[i].day == day
      ==> Visibility(s.history[i], s.asOf).Some?
  }

  lemma StampsCompared(s: Snapshot)
    requires HistoryPlaced(s) && forall day :: s.startDay <= day <= s.endDay ==> Comparable(s, day)
    ensures HistoryUsable(s)
  {
    forall i | 0 <= i < |s.history|
      ensures Visibility(s.history[i], s.asOf).Some?
    {
      assert InPartition(s, s.history[i]) && Comparable(s, s.history[i].day);
    }
  }

  lemma CalendarStatus(s: Snapshot, check: int -> seq<Issue>, declared: seq<Issue>)
    ensures CalendarFindings(s, check, declared).Silent()
      <==> declared == [] && HistoryIssues(s) == [] && |Gather(check, s.startDay, s.startDay + Length(s))| == 0
           && s.startDay <= s.endDay
  {
  }

  ghost predicate DaysSilent(s: Snapshot, check: int -> seq<Issue>) {
    forall day :: s.startDay <= day <= s.endDay ==> |check(day)| == 0
  }

  /** The findings are empty exactly when each group of them is. */
  lemma SilentMeans(s: Snapshot, f: Frozen, check: int -> seq<Issue>)
    ensures FindingsWith(s, f, check).Silent()
      <==> ReadIssues(f) == [] && PartitionIssues(s, Read(f)) == []
           && HistoryPlaced(s) && s.startDay <= s.endDay && DaysSilent(s, check)
  {
    CalendarStatus(s, check, ReadIssues(f) + PartitionIssues(s, Read(f)));
    RowsClean(s);
    GatherEmpty(check, s.startDay, s.startDay + Length(s));
  }

  /** The declaration read from a readable frozen mapping is sound and covers exactly the batch interval. */
  ghost predicate Covers(s: Snapshot, d: Declaration) {
    s.startDay <= s.endDay && !Conflict(d) && !Outside(d, s.startDay, s.endDay)
    && forall day :: s.startDay <= day <= s.endDay ==> d.IsMember(day) || day in d.missing
  }

  lemma DeclaredDays(f: Frozen, d: Declaration, day: int)
    requires Readable(f) && Copies(f, d)
    ensures d.IsMember(day) <==> DeclaredMember(f, day)
    ensures day in d.missing <==> DeclaredMissing(f, day)
  {
    if DeclaredMember(f, day) {
      var i :| 0 <= i < |f.members.items| && f.members.items[i].Member? && f.members.items[i].date == Some(day);
      assert d.members[i].0 == day;
    }
    if d.IsMember(day) {
      var i :| 0 <= i < |d.members| && d.members[i].0 == day;
      assert f.members.items[i].date == Some(day);
    }
    if DeclaredMissing(f, day) {
      var i :| 0 <= i < |f.missing.items| && f.missing.items[i] == Some(day);
      assert d.missing[i] == day;
    }
    if day in d.missing {
      var i :| 0 <= i < |d.missing| && d.missing[i] == day;
      assert f.missing.items[i] == Some(day);
    }
  }

  /** Duplicate-free and disjoint, item by item. */
  ghost predicate Disjoint(f: Frozen)
    requires Readable(f)
  {
    var members, missing := f.members.items, f.missing.items;
    (forall i, j :: 0 <= i < j < |members| ==> members[i].date != members[j].date)
    && (forall i, j :: 0 <= i < j < |missing| ==> missing[i] != missing[j])
    && forall i, j :: 0 <= i < |members| && 0 <= j < |missing| ==> members[i].date != missing[j]
  }

  lemma ConflictMeans(f: Frozen, d: Declaration)
    requires Readable(f) && Copies(f, d)
    ensures Disjoint(f) <==> !Conflict(d)
  {
    var members, missing := f.members.items, f.missing.items;
    assert forall i :: 0 <= i < |members| ==> members[i].date == Some(d.members[i].0);
    assert forall i :: 0 <= i < |missing| ==> missing[i] == Some(d.missing[i]);
    assert forall i, j :: 0 <= i < j < |d.members| ==>
      (SameDay(d.members, i, j) <==> members[i].date == members[j].date);
    if i :| 0 <= i < |d.missing| && d.IsMember(d.missing[i]) {
      var k :| 0 <= k < |d.members| && d.members[k].0 == d.missing[i];
      assert members[k].date == missing[i];
    }
  }

  lemma CoversMeans(s: Snapshot, f: Frozen, d: Declaration)
    requires Readable(f) && Copies(f, d)
    ensures Covers(s, d) <==> PartitionsBatch(s, f)
  {
    ConflictMeans(f, d);
    forall day
      ensures d.IsMember(day) <==> DeclaredMember(f, day)
      ensures day in d.missing <==> DeclaredMissing(f, day)
    {
      DeclaredDays(f, d, day);
    }
    if PartitionsBatch(s, f) {
      assert forall i :: 0 <= i < |d.members| ==> d.IsMember(d.members[i].0);
      assert forall i :: 0 <= i < |d.missing| ==> d.missing[i] in d.missing;
    }
    if Covers(s, d) {
      forall day | DeclaredMember(f, day) || DeclaredMissing(f, day)
        ensures s.startDay <= day <= s.endDay
      {
        assert d.IsMember(day) || day in d.missing;
      }
    }
  }

  /** All days agree exactly when the days are covered and each declared day has the history it claims. */
  lemma AgreementMeans(s: Snapshot, f: Frozen, d: Declaration)
    requires Readable(f) && Copies(f, d) && !Conflict(d) && !Outside(d, s.startDay, s.endDay) && s.startDay <= s.endDay
    ensures (forall day :: s.startDay <= day <= s.endDay ==> DayAgrees(s, d, day))
      <==> Covers(s, d)
           && (forall i :: 0 <= i < |d.missing| ==> NothingVisible(s, d.missing[i]))
           && forall i :: 0 <= i < |d.members| ==> Carries(s, d.members[i])
  {
    if forall day :: s.startDay <= day <= s.endDay ==> DayAgrees(s, d, day) {
      forall i | 0 <= i < |d.missing|
        ensures NothingVisible(s, d.missing[i])
      {
        assert DayAgrees(s, d, d.missing[i]);
        assert !d.IsMember(d.missing[i]);
      }
      forall i | 0 <= i < |d.members|
        ensures Carries(s, d.members[i])
      {
        var day := d.members[i].0;
        assert d.IsMember(day);
        assert DayAgrees(s, d, day);
        assert day !in d.missing;
        var k :| 0 <= k < |d.members| && d.members[k].0 == day && Carries(s, d.members[k]);
        assert !SameDay(d.members, k, i) && !SameDay(d.members, i, k);
      }
      forall day | s.startDay <= day <= s.endDay
        ensures d.IsMember(day) || day in d.missing
      {
        assert DayAgrees(s, d, day);
      }
    } else {
      var day :| s.startDay <= day <= s.endDay && !DayAgrees(s, d, day);
      if d.IsMember(day) {
        var i :| 0 <= i < |d.members| && d.members[i].0 == day;
        assert !Carries(s, d.members[i]);
      }
    }
  }

  lemma PartitionSilent(s: Snapshot, d: Declaration)
    ensures PartitionIssues(s, d) == []
      <==> s.startDay <= s.endDay && !Conflict(d) && !Outside(d, s.startDay, s.endDay)
  {
  }

  lemma DeclaredHistory(s: Snapshot, f: Frozen, d: Declaration)
    requires Readable(f) && Copies(f, d)
    ensures (forall i :: 0 <= i < |f.missing.items| ==> NothingVisible(s, f.missing.items[i].value))
      <==> forall i :: 0 <= i < |d.missing| ==> NothingVisible(s, d.missing[i])
    ensures (forall i :: 0 <= i < |f.members.items|
              ==> CarriesLatest(s, f.members.items[i].date.value, f.members.items[i].dailyId.value))
      <==> forall i :: 0 <= i < |d.members| ==> Carries(s, d.members[i])
  {
    assert forall i :: 0 <= i < |d.missing| ==> d.missing[i] == f.missing.items[i].value;
    forall i | 0 <= i < |d.members|
      ensures Carries(s, d.members[i])
        <==> CarriesLatest(s, f.members.items[i].date.value, f.members.items[i].dailyId.value)
    {
    }
  }

  lemma SoundRead(f: Frozen, d: Declaration)
    requires Readable(f) && Copies(f, d) && !Conflict(d)
    ensures Sound(d)
  {
  }

  /** The verdict on a declaration that can be read, in terms of what was read, for any check of the days that is silent
      on the right ones. */
  lemma SilentWhenRead(s: Snapshot, f: Frozen, check: int -> seq<Issue>)
    requires Readable(f) && Copies(f, Read(f))
    requires forall day :: |check(day)| == 0 ==> Comparable(s, day)
    requires HistoryUsable(s) && Sound(Read(f)) ==> forall day :: |check(day)| == 0 <==> DayAgrees(s, Read(f), day)
    ensures FindingsWith(s, f, check).Silent()
      <==> Covers(s, Read(f)) && HistoryUsable(s)
           && (forall i :: 0 <= i < |Read(f).missing| ==> NothingVisible(s, Read(f).missing[i]))
           && forall i :: 0 <= i < |Read(f).members| ==> Carries(s, Read(f).members[i])
  {
    var d := Read(f);
    SilentMeans(s, f, check);
    ReadIssuesExact(f);
    PartitionSilent(s, d);
    if s.startDay <= s.endDay && !Conflict(d) && !Outside(d, s.startDay, s.endDay) && HistoryPlaced(s) {
      SoundRead(f, d);
      if DaysSilent(s, check) {
        StampsCompared(s);
      }
      if HistoryUsable(s) {
        AgreementMeans(s, f, d);
      }
    }
  }

  lemma SilentExactlyWhenCorrect(s: Snapshot, f: Frozen, check: int -> seq<Issue>)
    requires s.frozen == Some(f)
    requires forall day :: |check(day)| == 0 ==> Comparable(s, day)
    requires HistoryUsable(s) && Sound(Read(f)) ==> forall day :: |check(day)| == 0 <==> DayAgrees(s, Read(f), day)
    ensures FindingsWith(s, f, check).Silent() <==> Correct(s)
  {
    SilentMeans(s, f, check);
    ReadIssuesExact(f);
    if Readable(f) {
      ReadExact(f);
      SilentWhenRead(s, f, check);
      CoversMeans(s, f, Read(f));
      DeclaredHistory(s, f, Read(f));
    }
  }

  lemma DayCheckExact(s: Snapshot, d: Declaration, day: int)
    ensures |DayCheck(s, d)(day)| == 0 ==> Comparable(s, day)
    ensures HistoryUsable(s) && Sound(d) ==> (|DayCheck(s, d)(day)| == 0 <==> DayAgrees(s, d, day))
  {
    UnknownRowsOfDay(s, day);
    if HistoryUsable(s) && Sound(d) {
      DayClean(s, d, day);
    }
  }

  /** The check passes exactly on the snapshots whose declaration is a disjoint, duplicate-free partition of the batch
      and is what the revisions visible at the cutoff say. */
  lemma PassedExactlyWhenCorrect(s: Snapshot)
    ensures Findings(s).Status() == Passed <==> Correct(s)
  {
    if s.frozen.Some? {
      var f := s.frozen.value;
      forall day
        ensures |DayCheck(s, Read(f))(day)| == 0 ==> Comparable(s, day)
        ensures HistoryUsable(s) && Sound(Read(f))
          ==> (|DayCheck(s, Read(f))(day)| == 0 <==> DayAgrees(s, Read(f), day))
      {
        DayCheckExact(s, Read(f), day);
      }
      SilentExactlyWhenCorrect(s, f, DayCheck(s, Read(f)));
    }
  }

  // ---- The check as a program ----

  method ReadMembers(members: seq<Member>)
      returns (entries: seq<(int, Option<int>)>, complete: bool, issues: seq<Issue>)
    ensures entries == FlatMap(Entry, members) && issues == FlatMap(MemberIssues, members)
    ensures complete <==> forall i :: 0 <= i < |members| ==> Dated(members[i])
  {
    entries, complete, issues := [], true, [];
    for i := 0 to |members|
      invariant entries == FlatMap(Entry, members[..i]) && issues == FlatMap(MemberIssues, members[..i])
      invariant complete <==> forall k :: 0 <= k < i ==> Dated(members[k])
    {
      FlatMapStep(Entry, members, i);
      FlatMapStep(MemberIssues, members, i);
      var m := members[i];
      if !Dated(m) {
        complete := false;
        issues := issues + [Issue(BLOCKED_DATA_PRECONDITION, ENV_FROZEN_CALENDAR_DATE_INVALID, 0)];
        continue;
      }
      entries := entries + [(m.date.value, m.dailyId)];
      if !Positive(m.dailyId) {
        issues := issues + [Issue(BLOCKED_DATA_PRECONDITION, ENV_FROZEN_MEMBER_IDENTITY_MISSING, m.date.value)];
      }
    }
    assert members[..|members|] == members;
  }

  method ReadMissing(missing: seq<Option<int>>) returns (days: seq<int>, complete: bool, issues: seq<Issue>)
    ensures days == FlatMap(DayOf, missing) && issues == FlatMap(MissingIssues, missing)
    ensures complete <==> forall i :: 0 <= i < |missing| ==> missing[i].Some?
  {
    days, complete, issues := [], true, [];
    for i := 0 to |missing|
      invariant days == FlatMap(DayOf, missing[..i]) && issues == FlatMap(MissingIssues, missing[..i])
      invariant complete <==> forall k :: 0 <= k < i ==> missing[k].Some?
    {
      FlatMapStep(DayOf, missing, i);
      FlatMapStep(MissingIssues, missing, i);
      if missing[i].None? {
        complete := false;
        issues := issues + [Issue(BLOCKED_DATA_PRECONDITION, ENV_FROZEN_CALENDAR_DATE_INVALID, 0)];
      } else {
        days := days + [missing[i].value];
      }
    }
    assert missing[..|missing|] == missing;
  }

  method ReadDeclaration(f: Frozen) returns (d: Declaration, issues: seq<Issue>)
    ensures d == Read(f) && issues == ReadIssues(f)
  {
    var head: seq<Issue> := [];
    if !f.members.Items? || !f.missing.Items? {
      head := [Issue(BLOCKED_DATA_PRECONDITION, ENV_FROZEN_CALENDAR_DECLARATION_MISSING, 0)];
    }
    var entries, membersComplete, memberIssues := ReadMembers(ItemsOf(f.members));
    var days, missingComplete, missingIssues := ReadMissing(ItemsOf(f.missing));
    d := Declaration(entries, days, f.members.Items? && membersComplete, f.missing.Items? && missingComplete);
    issues := head + memberIssues + missingIssues;
  }

  function RowsOf(byDay: map<int, seq<Daily>>, day: int): seq<Daily> {
    if day in byDay then byDay[day] else []
  }

  method GroupByDay(s: Snapshot) returns (byDay: map<int, seq<Daily>>, issues: seq<Issue>)
    ensures issues == HistoryIssues(s)
    ensures forall day :: RowsOf(byDay, day) == DayRows(s, day)
  {
    byDay, issues := map[], [];
    var check := (row: Daily) => RowIssues(s, row);
    for i := 0 to |s.history|
      invariant issues == FlatMap(check, s.history[..i])
      invariant forall day :: RowsOf(byDay, day) == FlatMap((row: Daily) => OnDay(s, day, row), s.history[..i])
    {
      FlatMapStep(check, s.history, i);
      var row, grouped := s.history[i], byDay;
      if !InPartition(s, row) {
        issues := issues + [Issue(FAIL, ENV_FULL_CALENDAR_HISTORY_PARTITION_MISMATCH, row.id)];
      } else {
        byDay := byDay[row.day := RowsOf(byDay, row.day) + [row]];
      }
      forall day
        ensures RowsOf(byDay, day) == FlatMap((row: Daily) => OnDay(s, day, row), s.history[..i + 1])
      {
        FlatMapStep((row: Daily) => OnDay(s, day, row), s.history, i);
        assert RowsOf(byDay, day) == RowsOf(grouped, day) + OnDay(s, day, row);
      }
    }
    assert s.history[..|s.history|] == s.history;
  }

  method Classify(rows: seq<Daily>, cutoff: Stamp)
      returns (visible: seq<Daily>, unknown: seq<Daily>, issues: seq<Issue>)
    requires !cutoff.NoStamp?
    ensures visible == VisibleRows(rows, cutoff) && unknown == UnknownRows(rows, cutoff)
    ensures issues == StampFindings(rows, cutoff)
  {
    visible, unknown, issues := [], [], [];
    var seen, unsure, check := (row: Daily) => IfVisible(row, cutoff), (row: Daily) => IfUnknown(row, cutoff),
      (row: Daily) => StampIssues(row, cutoff);
    for i := 0 to |rows|
      invariant visible == FlatMap(seen, rows[..i]) && unknown == FlatMap(unsure, rows[..i])
      invariant issues == FlatMap(check, rows[..i])
    {
      FlatMapStep(seen, rows, i);
      FlatMapStep(unsure, rows, i);
      FlatMapStep(check, rows, i);
      var row := rows[i];
      if row.availableAt.NoStamp? {
        issues := issues + [Issue(BLOCKED_DATA_PRECONDITION, ENV_REVISION_AVAILABLE_AT_MISSING, row.id)];
        unknown := unknown + [row];
        continue;
      }
      var available := AtOrBefore(row.availableAt, cutoff);
      if available.None? {
        issues := issues + [Issue(BLOCKED_DOC, ENV_REVISION_HISTORY_TIMEZONE_UNDEFINED, row.id)];
        unknown := unknown + [row];
      } else if available.value {
        visible := visible + [row];
      }
    }
    assert rows[..|rows|] == rows;
  }

  method CheckDay(s: Snapshot, d: Declaration, day: int, rows: seq<Daily>, ghost check: int -> seq<Issue>)
      returns (issues: seq<Issue>)
    requires !s.asOf.NoStamp? && rows == DayRows(s, day)
    requires forall x {:trigger DayIssues(s, d, x)} :: check(x) == DayIssues(s, d, x)
    ensures issues == check(day)
  {
    var visible, unknown, stamps := Classify(rows, s.asOf);
    issues := stamps + Compare(d, day, Judge(visible, unknown));
    assert issues == DayIssues(s, d, day);
  }

  method CheckDays(
      s: Snapshot, d: Declaration, byDay: map<int, seq<Daily>>, ghost check: int -> seq<Issue>)
    returns (issues: seq<Issue>)
    requires !s.asOf.NoStamp? && forall day {:trigger RowsOf(byDay, day)} :: RowsOf(byDay, day) == DayRows(s, day)
    requires forall x {:trigger DayIssues(s, d, x)} :: check(x) == DayIssues(s, d, x)
    ensures issues == Gather(check, s.startDay, s.startDay + Length(s))
  {
    issues := [];
    var day := s.startDay;
    while day <= s.endDay
      invariant s.startDay <= day <= s.startDay + Length(s)
      invariant issues == Gather(check, s.startDay, day)
    {
      var found := CheckDay(s, d, day, RowsOf(byDay, day), check);
      GatherStep(check, s.startDay, day);
      issues := issues + found;
      day := day + 1;
    }
  }

  /** The days of a loaded calendar. */
  method CheckCalendar(s: Snapshot, d: Declaration, declared: seq<Issue>, ghost check: int -> seq<Issue>)
      returns (r: CheckResult)
    requires !s.asOf.NoStamp?
    requires forall x {:trigger DayIssues(s, d, x)} :: check(x) == DayIssues(s, d, x)
    ensures r == CalendarFindings(s, check, declared)
  {
    var byDay, misplaced := GroupByDay(s);
    var found := CheckDays(s, d, byDay, check);
    r := CheckResult(Length(s), declared + misplaced + found);
  }

  /** `check_frozen_missing_dates` reports the findings; PassedExactlyWhenCorrect says what they mean. */
  method CheckFrozenMissingDates(s: Snapshot) returns (r: CheckResult)
    ensures r == Findings(s)
  {
    if s.frozen.None? {
      return CheckResult(0, [Issue(BLOCKED_DATA_PRECONDITION, ENV_FROZEN_MEMBERS_MISSING, 0)]);
    }
    var d, issues := ReadDeclaration(s.frozen.value);
    issues := issues + PartitionIssues(s, d);
    if !s.historyLoaded || s.historyRange != (s.startDay, s.endDay, s.labelKind) {
      issues := issues + [Issue(BLOCKED_DATA_PRECONDITION, ENV_FULL_CALENDAR_HISTORY_NOT_LOADED, s.batchId)];
      return CheckResult(0, issues);
    }
    if s.asOf.NoStamp? {
      issues := issues + [Issue(BLOCKED_DATA_PRECONDITION, ENV_FROZEN_AS_OF_MISSING, 0)];
      return CheckResult(0, issues);
    }
    r := CheckCalendar(s, d, issues, DayCheck(s, d));
  }
}
