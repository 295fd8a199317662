/** A failure of `check_frozen_missing_dates` is definite: it does not depend on the timestamps that could not be
    compared. */
module CalendarFailure {
  import opened Outcomes
  import opened FrozenCalendar
  import opened CalendarCheck

  /** The same snapshot with every undecidable stamp replaced by one that can be compared, or kept. */
  ghost predicate Resolves(s: Snapshot, r: Snapshot) {
    r == s.(history := r.history) && |r.history| == |s.history|
    && forall i :: 0 <= i < |s.history| ==> SameButStamp(s, s.history[i], r.history[i])
  }

  ghost predicate SameButStamp(s: Snapshot, row: Daily, other: Daily) {
    other == row.(availableAt := other.availableAt)
    && (Visibility(row, s.asOf).Some? ==> Visibility(other, s.asOf) == Visibility(row, s.asOf))
  }

  function VerdictOf(s: Snapshot, day: int): Verdict {
    VerdictOn(DayRows(s, day), s.asOf)
  }

  function Visible(s: Snapshot, day: int): seq<Daily> {
    VisibleRows(DayRows(s, day), s.asOf)
  }

  lemma UnknownMembers(s: Snapshot, day: int)
    requires HistoryPlaced(s)
    ensures forall x :: x in UnknownRows(DayRows(s, day), s.asOf)
              <==> x in s.history && x.day == day && Visibility(x, s.asOf).None?
  {
    Memberships(DayRows(s, day), s.asOf, {});
    FlatMapContents((row: Daily) => OnDay(s, day, row), s.history);
    forall x
      ensures x in DayRows(s, day) <==> x in s.history && x.day == day
    {
      if x in DayRows(s, day) {
        var y :| y in s.history && x in OnDay(s, day, y);
      }
      if x in s.history && x.day == day {
        assert x in OnDay(s, day, x);
      }
    }
  }

  /** A visible row stays visible, and a row that becomes visible was undecidable. */
  lemma ResolvedRow(s: Snapshot, r: Snapshot, day: int, i: nat)
    requires Resolves(s, r) && i < |s.history|
    ensures VisibleOn(s, day, s.history[i]) ==> VisibleOn(r, day, r.history[i])
    ensures VisibleOn(r, day, r.history[i]) && !VisibleOn(s, day, s.history[i])
      ==> s.history[i].day == day && Visibility(s.history[i], s.asOf).None?
  {
    assert SameButStamp(s, s.history[i], r.history[i]);
  }

  /** Where the judgement of a resolved day falls, given the one that was issued. */
  lemma UnavailableStays(s: Snapshot, r: Snapshot, day: int)
    requires Resolves(s, r) && HistoryPlaced(s) && HistoryPlaced(r) && VerdictOf(s, day).Unavailable?
    ensures Visible(r, day) == []
  {
    UnknownMembers(s, day);
    VisibleRowsOfDay(s, day);
    assert Visible(s, day) == [] && UnknownRows(DayRows(s, day), s.asOf) == [];
    forall i | 0 <= i < |r.history|
      ensures !VisibleOn(r, day, r.history[i])
    {
      ResolvedRow(s, r, day, i);
      assert s.history[i] in s.history;
    }
    NothingVisibleMeans(r, day);
  }

  lemma AmbiguityStays(s: Snapshot, r: Snapshot, day: int)
    requires Resolves(s, r) && HistoryPlaced(s) && HistoryPlaced(r) && Ambiguous(Visible(s, day))
    ensures Ambiguous(Visible(r, day))
  {
    VisibleRowsOfDay(s, day);
    VisibleRowsOfDay(r, day);
    var i, j :| 0 <= i < j < |s.history| && VisibleOn(s, day, s.history[i]) && VisibleOn(s, day, s.history[j])
      && s.history[i].revision == s.history[j].revision;
    ResolvedRow(s, r, day, i);
    ResolvedRow(s, r, day, j);
    assert SameButStamp(s, s.history[i], r.history[i]) && SameButStamp(s, s.history[j], r.history[j]);
  }

  /** The latest visible row stays the latest: what could become visible has a lower revision. */
  lemma LatestStays(s: Snapshot, r: Snapshot, day: int, k: nat)
    requires Resolves(s, r) && HistoryPlaced(s) && HistoryPlaced(r)
    requires Visible(s, day) != [] && !Undecidable(Visible(s, day), UnknownRows(DayRows(s, day), s.asOf))
    requires k < |s.history| && s.history[k] == Latest(Visible(s, day))
    ensures HighestVisible(r, day, s.history[k].revision)
  {
    VisibleRowsOfDay(s, day);
    UnknownMembers(s, day);
    var unknown := UnknownRows(DayRows(s, day), s.asOf);
    forall j | 0 <= j < |r.history| && VisibleOn(r, day, r.history[j])
      ensures r.history[j].revision <= s.history[k].revision
    {
      ResolvedRow(s, r, day, j);
      assert SameButStamp(s, s.history[j], r.history[j]);
      assert s.history[j] in s.history;
      if VisibleOn(s, day, s.history[j]) {
        assert s.history[j] in Visible(s, day);
      } else {
        assert s.history[j] in unknown;
        var n :| 0 <= n < |unknown| && unknown[n] == s.history[j];
      }
    }
  }

  /** In a history without ambiguity on a day, a visible row that no other exceeds is the latest. */
  lemma HighestIsLatest(r: Snapshot, day: int, k: nat)
    requires HistoryPlaced(r) && !Ambiguous(Visible(r, day))
    requires k < |r.history| && VisibleOn(r, day, r.history[k]) && HighestVisible(r, day, r.history[k].revision)
    ensures Visible(r, day) != [] && Latest(Visible(r, day)) == r.history[k]
  {
    VisibleRowsOfDay(r, day);
    assert r.history[k] in r.history;
    assert r.history[k] in Visible(r, day);
    var top := Latest(Visible(r, day));
    assert top in Visible(r, day);
    var j :| 0 <= j < |r.history| && r.history[j] == top;
    assert VisibleOn(r, day, r.history[j]) && r.history[j].revision == r.history[k].revision;
    assert j == k;
  }

  /** After any resolution the latest row is the same but for its stamp, unless there is an ambiguity. */
  lemma SameLatest(s: Snapshot, r: Snapshot, day: int)
    requires Resolves(s, r) && HistoryPlaced(s) && HistoryPlaced(r)
    requires Visible(s, day) != [] && !Undecidable(Visible(s, day), UnknownRows(DayRows(s, day), s.asOf))
    requires !Ambiguous(Visible(r, day))
    ensures Visible(r, day) != []
    ensures Latest(Visible(r, day)) == Latest(Visible(s, day)).(availableAt := Latest(Visible(r, day)).availableAt)
  {
    VisibleRowsOfDay(s, day);
    var k :| 0 <= k < |s.history| && s.history[k] == Latest(Visible(s, day));
    ResolvedRow(s, r, day, k);
    LatestStays(s, r, day, k);
    assert SameButStamp(s, s.history[k], r.history[k]);
    HighestIsLatest(r, day, k);
  }

  // ---- No failure on a day that agrees under some resolution ----

  lemma StampsNeverFail(s: Snapshot, day: int)
    ensures !Has(StampFindings(DayRows(s, day), s.asOf), FAIL)
  {
    var issues := StampFindings(DayRows(s, day), s.asOf);
    FlatMapContents((row: Daily) => StampIssues(row, s.asOf), DayRows(s, day));
    forall i | 0 <= i < |issues|
      ensures issues[i].severity != FAIL
    {
      assert issues[i] in issues;
      var row :| row in DayRows(s, day) && issues[i] in StampIssues(row, s.asOf);
    }
  }

  /** The comparison of a verdict fails only if it says more than the comparison of the resolved verdict allows. */
  lemma CompareNeverFails(d: Declaration, day: int, issued: Verdict, resolved: Verdict)
    requires Sound(d) && !resolved.Skipped? && Compare(d, day, resolved) == []
    requires issued.Unavailable? ==> resolved.Unavailable?
    requires issued.AmbiguousRevision? ==> resolved.AmbiguousRevision?
    requires issued.BadLabel? || issued.Ready? ==> resolved == issued || resolved.AmbiguousRevision?
    ensures !Has(Compare(d, day, issued), FAIL)
  {
  }

  lemma VerdictsRelate(s: Snapshot, r: Snapshot, day: int)
    requires Resolves(s, r) && HistoryPlaced(s) && HistoryPlaced(r)
    ensures
      var issued, resolved := VerdictOf(s, day), Judge(Visible(r, day), []);
      !resolved.Skipped?
      && (issued.Unavailable? ==> resolved.Unavailable?)
      && (issued.AmbiguousRevision? ==> resolved.AmbiguousRevision?)
      && (issued.BadLabel? || issued.Ready? ==> resolved == issued || resolved.AmbiguousRevision?)
  {
    var issued := VerdictOf(s, day);
    JudgeUnavailable(Visible(r, day));
    if issued.Unavailable? {
      UnavailableStays(s, r, day);
    } else if issued.AmbiguousRevision? {
      AmbiguityStays(s, r, day);
    } else if (issued.BadLabel? || issued.Ready?) && !Ambiguous(Visible(r, day)) {
      SameLatest(s, r, day);
    }
  }

  lemma DayNeverFails(s: Snapshot, r: Snapshot, d: Declaration, day: int)
    requires Resolves(s, r) && HistoryPlaced(s) && HistoryUsable(r) && Sound(d) && DayAgrees(r, d, day)
    ensures !Has(DayIssues(s, d, day), FAIL)
  {
    DayClean(r, d, day);
    UnknownRowsOfDay(r, day);
    VerdictsRelate(s, r, day);
    CompareNeverFails(d, day, VerdictOf(s, day), Judge(Visible(r, day), []));
    StampsNeverFail(s, day);
  }

  lemma {:induction false} GatherNeverFails(check: int -> seq<Issue>, lo: int, hi: int)
    requires forall day :: lo <= day < hi ==> !Has(check(day), FAIL)
    ensures !Has(Gather(check, lo, hi), FAIL)
    decreases hi - lo
  {
    if lo >= hi {
    } else {
      GatherNeverFails(check, lo, hi - 1);
      var before, last := Gather(check, lo, hi - 1), check(hi - 1);
      assert forall i :: 0 <= i < |before + last| ==>
          (before + last)[i] == if i < |before| then before[i] else last[i - |before|];
    }
  }

  /** A snapshot that is correct after some resolution gets no failure before it: the findings are those of the days. */
  lemma OnlyDaysAreLeft(s: Snapshot, r: Snapshot, f: Frozen)
    requires Resolves(s, r) && Correct(r) && s.frozen == Some(f)
    ensures Readable(f) && Copies(f, Read(f)) && Sound(Read(f)) && HistoryPlaced(s) && HistoryPlaced(r)
    ensures ReadIssues(f) == [] && PartitionIssues(s, Read(f)) == [] && HistoryIssues(s) == [] && s.startDay <= s.endDay
  {
    ReadExact(f);
    ReadIssuesExact(f);
    CoversMeans(r, f, Read(f));
    PartitionSilent(s, Read(f));
    SoundRead(f, Read(f));
    forall i | 0 <= i < |s.history|
      ensures InPartition(s, s.history[i])
    {
      assert SameButStamp(s, s.history[i], r.history[i]) && InPartition(r, r.history[i]);
    }
    RowsClean(s);
  }

  lemma AllDaysAgree(r: Snapshot, f: Frozen)
    requires Correct(r) && r.frozen == Some(f) && Copies(f, Read(f))
    ensures forall day :: r.startDay <= day <= r.endDay ==> DayAgrees(r, Read(f), day)
  {
    CoversMeans(r, f, Read(f));
    DeclaredHistory(r, f, Read(f));
    AgreementMeans(r, f, Read(f));
  }

  lemma FindingsOfDays(s: Snapshot, f: Frozen, check: int -> seq<Issue>)
    requires ReadIssues(f) == [] && PartitionIssues(s, Read(f)) == [] && HistoryIssues(s) == []
    requires s.historyLoaded && s.historyRange == (s.startDay, s.endDay, s.labelKind) && !s.asOf.NoStamp?
    ensures FindingsWith(s, f, check).issues == Gather(check, s.startDay, s.startDay + Length(s))
  {
  }

  lemma DaysNeverFail(s: Snapshot, r: Snapshot, f: Frozen)
    requires Resolves(s, r) && Correct(r) && s.frozen == Some(f)
    ensures forall day :: s.startDay <= day <= s.endDay ==> !Has(DayCheck(s, Read(f))(day), FAIL)
  {
    OnlyDaysAreLeft(s, r, f);
    AllDaysAgree(r, f);
    forall day | s.startDay <= day <= s.endDay
      ensures !Has(DayCheck(s, Read(f))(day), FAIL)
    {
      DayNeverFails(s, r, Read(f), day);
    }
  }

  lemma CorrectResolutionWithoutFailure(s: Snapshot, r: Snapshot, f: Frozen, check: int -> seq<Issue>)
    requires Resolves(s, r) && Correct(r) && s.frozen == Some(f)
    requires forall day :: s.startDay <= day <= s.endDay ==> !Has(check(day), FAIL)
    ensures !Has(FindingsWith(s, f, check).issues, FAIL)
  {
    OnlyDaysAreLeft(s, r, f);
    FindingsOfDays(s, f, check);
    GatherNeverFails(check, s.startDay, s.startDay + Length(s));
  }

  /** If the check fails, then no way of resolving the undecidable stamps makes the snapshot correct. */
  lemma FailureIsDefinite(s: Snapshot, r: Snapshot)
    requires Resolves(s, r) && Findings(s).Status() == Failed
    ensures !Correct(r)
  {
    if Correct(r) {
      var f := s.frozen.value;
      DaysNeverFail(s, r, f);
      CorrectResolutionWithoutFailure(s, r, f, DayCheck(s, Read(f)));
    }
  }
}
