/** Small databases on which the cleanup passes all of its checks and is then refused by the database, or raises after
    it has taken effect. */
module CleanupCounterexample {
  import opened Schema
  import opened CleanupScope
  import opened CleanupStages
  import opened CleanupResult
  import opened CleanupRerun
  import opened CleanupRun

  /** Form 1 owns pool 7 without pointing at it, and a member of that pool belongs to form 2. */
  const UNLISTED_POOL: Db := map[
    Sessions := map[1 := map[], 2 := map[]],
    Forms := map[1 := map[SessionId := Int(1)], 2 := map[SessionId := Int(2)]],
    Pools := map[7 := map[FormId := Int(1)]],
    Members := map[9 := map[PoolId := Int(7), FormId := Int(2)]]]

  const FIRST_SESSION: Graph := map[1 := {1}]

  lemma OnlyFormOneIsOwned()
    ensures OwnedForms(UNLISTED_POOL, FIRST_SESSION) == {1}
  {
    assert FIRST_SESSION[1] == {1};
    assert 1 in FormIds(FIRST_SESSION);
  }

  lemma NothingElseIsFound(versions: set<int>, experiments: set<int>)
    requires versions == {} && experiments == {}
    ensures VersionsOf(UNLISTED_POOL, {1}) == {}
    ensures ExperimentsOf(UNLISTED_POOL, {1}, versions) == {}
    ensures MetricsOf(UNLISTED_POOL, experiments, versions) == {} && RegistrationsOf(UNLISTED_POOL, versions) == {}
  {
    assert Rows(UNLISTED_POOL, Versions) == map[];
    assert forall column :: Pointers(UNLISTED_POOL, Versions, versions, column) == {};
    assert Pointers(UNLISTED_POOL, Forms, {1}, ExperimentId) == {};
  }

  lemma OnlyTheFormIsInScope()
    ensures ScopeOf(UNLISTED_POOL, FIRST_SESSION) == Scope({1}, {}, {}, {}, {}, {}, {}, {}, {})
  {
    var db := UNLISTED_POOL;
    var versions: set<int> := {};
    OnlyFormOneIsOwned();
    NothingElseIsFound(versions, {});
    assert forall column :: Pointers(db, Versions, versions, column) == {};
    assert Pointers(db, Forms, {1}, PoolId) == {};
    assert Pointers(db, Registrations, {}, SubFactorId) == {};
    assert ExpectedFactorPairs(db, versions, {}) == {} && ExpectedParentPairs(db, versions, {}) == {};
  }

  const FORM_SCOPE := Scope({1}, {}, {}, {}, {}, {}, {}, {}, {})

  lemma PoolExampleConsistent()
    ensures Consistent(UNLISTED_POOL)
  {
    forall child, id, column, parent
      ensures !Dangling(UNLISTED_POOL, child, id, column, parent)
    {
      if id in Rows(UNLISTED_POOL, child) && References(child, column, parent) {
        if At(UNLISTED_POOL, child, id, column).Int? {
          FewPointers(child, id, column, parent);
        }
      }
    }
  }

  lemma FewRows(table: Table, id: int)
    requires id in Rows(UNLISTED_POOL, table)
    ensures (table == Sessions && id in {1, 2}) || (table == Forms && id in {1, 2})
            || (table == Pools && id == 7) || (table == Members && id == 9)
  {
  }

  lemma FewPointers(child: Table, id: int, column: Column, parent: Table)
    requires id in Rows(UNLISTED_POOL, child) && References(child, column, parent)
    requires At(UNLISTED_POOL, child, id, column).Int?
    ensures At(UNLISTED_POOL, child, id, column).n in Rows(UNLISTED_POOL, parent)
  {
    FewRows(child, id);
    if child == Forms {
      assert column == SessionId ==> At(UNLISTED_POOL, Forms, id, SessionId) == Int(id);
      assert column != SessionId ==> At(UNLISTED_POOL, Forms, id, column) == Null;
    }
  }

  lemma PoolExampleOwned()
    ensures OwnershipConfirmed(UNLISTED_POOL, FIRST_SESSION)
  {
  }

  lemma PoolExampleUnshared()
    ensures !ExternallyReferenced(UNLISTED_POOL, FORM_SCOPE)
  {
    assert Rows(UNLISTED_POOL, Feedbacks) == map[];
    assert forall v: Value :: !CellIn(v, {});
  }

  lemma PoolExampleIdle()
    ensures !HasActivePipeline(UNLISTED_POOL, {1}) && !HasActiveRefresh(UNLISTED_POOL, {})
  {
    assert At(UNLISTED_POOL, Forms, 1, PipelineRunId) == Null;
    assert Rows(UNLISTED_POOL, Refreshes) == map[];
  }

  lemma PoolExampleAdmissible()
    ensures Admissible(UNLISTED_POOL, FORM_SCOPE)
  {
    PoolExampleUnshared();
    PoolExampleIdle();
  }

  lemma PoolExampleBlindSpot()
    ensures BlindSpot(UNLISTED_POOL, FORM_SCOPE)
  {
    assert 7 in DeletedPools(UNLISTED_POOL, FORM_SCOPE);
    assert At(UNLISTED_POOL, Members, 9, PoolId) == Int(7) && At(UNLISTED_POOL, Members, 9, FormId) == Int(2);
    var pools := DeletedPools(UNLISTED_POOL, FORM_SCOPE);
    assert UsedByOther(UNLISTED_POOL, Members, PoolId, pools, FormId, FORM_SCOPE.forms);
  }

  /** The checks admit the scope, yet no order of faultless statements can finish: deleting the pool would leave the
      member of form 2 dangling. */
  lemma AdmittedButRefused()
    ensures Consistent(UNLISTED_POOL) && OwnershipConfirmed(UNLISTED_POOL, FIRST_SESSION)
    ensures Admissible(UNLISTED_POOL, ScopeOf(UNLISTED_POOL, FIRST_SESSION))
    ensures !StagesConsistent(UNLISTED_POOL, ScopeOf(UNLISTED_POOL, FIRST_SESSION), 0)
  {
    OnlyTheFormIsInScope();
    PoolExampleConsistent();
    PoolExampleOwned();
    PoolExampleAdmissible();
    PoolExampleBlindSpot();
    IntegrityAtEveryStatement(UNLISTED_POOL, FIRST_SESSION, FORM_SCOPE);
  }

  // ---- A close that fails after the commit ----

  /** A session without forms, and a temporary parent of it that is already gone. */
  const ONE_SESSION := State(map[Sessions := map[1 := map[]]], map[1 := {5}], map[])

  const SESSION_ALONE: Graph := map[1 := {}]

  lemma NothingToMatch()
    ensures OwnedForms(ONE_SESSION.db, SESSION_ALONE) == {}
    ensures ScopeOf(ONE_SESSION.db, SESSION_ALONE) == EMPTY_SCOPE
            && AfterMain(ONE_SESSION.db, SESSION_ALONE) == ONE_SESSION.db
  {
    assert FormIds(SESSION_ALONE) == {};
    assert OwnedForms(ONE_SESSION.db, SESSION_ALONE) == {};
    NoFormsNoScope(ONE_SESSION.db, SESSION_ALONE);
    EmptyScopeKeepsAll(ONE_SESSION.db, MAIN_STATEMENTS);
  }

  lemma SessionAloneRuns()
    ensures RunsThrough(ONE_SESSION, SESSION_ALONE)
  {
    NothingToMatch();
    EmptyScopeAdmissible(ONE_SESSION.db);
    assert 1 in SESSION_ALONE;
    assert Rows(ONE_SESSION.db, FactorRelations) == map[];
  }

  lemma SessionRemoved()
    ensures 1 !in Rows(FinalDb(ONE_SESSION, SESSION_ALONE), Sessions)
  {
    NothingToMatch();
    assert 1 in SESSION_ALONE && Rows(ONE_SESSION.db, Forms) == map[];
    assert 1 in SessionsBy(ONE_SESSION, SESSION_ALONE);
    RemovedSession(ONE_SESSION, SESSION_ALONE, 1);
  }

  lemma OneSessionConsistent()
    ensures Consistent(ONE_SESSION.db)
  {
  }

  /** The run removes the session and stops tracking the parent. */
  lemma SessionGoes()
    ensures RunsThrough(ONE_SESSION, SESSION_ALONE) && Consistent(ONE_SESSION.db)
    ensures 1 !in Rows(AfterRun(ONE_SESSION, SESSION_ALONE).db, Sessions)
    ensures AfterRun(ONE_SESSION, SESSION_ALONE).parentIds == map[]
  {
    OneSessionConsistent();
    SessionAloneRuns();
    AfterRunThrough(ONE_SESSION, SESSION_ALONE);
    SessionRemoved();
    ParentForgotten();
  }

  lemma ParentForgotten()
    ensures PruneIds(ONE_SESSION.parentIds, Owners(SESSION_ALONE), CleanedBy(ONE_SESSION, SESSION_ALONE)) == map[]
  {
    NothingToMatch();
    var st, graph := ONE_SESSION, SESSION_ALONE;
    assert 1 in Owners(graph) && 5 in st.parentIds[1];
    assert 5 in Candidates(st.parentIds, Owners(graph));
    assert 5 in CleanedBy(st, graph);
  }

  /** A run from the given state in which only the close fails. */
  method RunWithFailingClose(st: State, graph: Graph) returns (repository: ComboRepository, ending: Ending)
    requires Consistent(st.db) && RunsThrough(st, graph)
    ensures ending == Raised(CloseFailure)
    ensures repository.db == AfterRun(st, graph).db && repository.parentIds == st.parentIds
  {
    repository := new ComboRepository("test", st.db);
    repository.parentIds, repository.relationPairs := st.parentIds, st.relationPairs;
    assert repository.Snapshot() == st;
    ending := repository.CleanTestGraph(graph, Faults(-1, Acknowledged, true));
  }

  /** The exception leaves a changed database with ownership maps that still name the parent. */
  method CloseFailureLeavesMapsBehind() returns (repository: ComboRepository, ending: Ending)
    ensures ending == Raised(CloseFailure)
    ensures 1 !in Rows(repository.db, Sessions) && repository.parentIds == map[1 := {5}]
  {
    SessionGoes();
    repository, ending := RunWithFailingClose(ONE_SESSION, SESSION_ALONE);
  }
}
