/** Running the cleanup again: a second run changes nothing, and a run whose acknowledgement was lost after the commit
    is completed by the next one. */
module CleanupRerun {
  import opened Schema
  import opened CleanupScope
  import opened CleanupStages
  import opened CleanupResult

  const EMPTY_SCOPE := Scope({}, {}, {}, {}, {}, {}, {}, {}, {})

  lemma NoPointers(db: Db, table: Table, column: Column)
    ensures Pointers(db, table, {}, column) == {}
  {
  }

  lemma NoVersions(db: Db)
    ensures VersionsOf(db, {}) == {}
  {
    NoPointers(db, Forms, VersionId);
  }

  lemma NoExperiments(db: Db)
    ensures ExperimentsOf(db, {}, {}) == {} && MetricsOf(db, {}, {}) == {}
  {
    NoPointers(db, Versions, ExperimentId);
    NoPointers(db, Versions, BestExperimentId);
    NoPointers(db, Forms, ExperimentId);
  }

  lemma NoRegistrations(db: Db)
    ensures RegistrationsOf(db, {}) == {}
    ensures ExpectedFactorPairs(db, {}, {}) == {} && ExpectedParentPairs(db, {}, {}) == {}
  {
    assert HashesOf(db, {}) == {};
  }

  lemma NoFormsNoScope(db: Db, graph: Graph)
    requires OwnedForms(db, graph) == {}
    ensures ScopeOf(db, graph) == EMPTY_SCOPE
  {
    NoVersions(db);
    NoExperiments(db);
    NoRegistrations(db);
    NoPointers(db, Versions, PoolId);
    NoPointers(db, Forms, PoolId);
    NoPointers(db, Registrations, SubFactorId);
  }

  lemma EmptyScopeUnshared(db: Db)
    ensures !ExternallyReferenced(db, EMPTY_SCOPE)
  {
    assert forall v: Value, ids: set<int> :: ids == {} ==> !CellIn(v, ids);
  }

  lemma EmptyScopeOwned(db: Db)
    ensures RegistrationsOwned(db, EMPTY_SCOPE) && !HasActiveRefresh(db, {})
  {
  }

  lemma EmptyScopeAdmissible(db: Db)
    ensures Admissible(db, EMPTY_SCOPE)
    ensures !BlindSpot(db, EMPTY_SCOPE)
  {
    EmptyScopeUnshared(db);
    EmptyScopeOwned(db);
    assert DeletedPools(db, EMPTY_SCOPE) == {};
  }

  lemma EmptyScopeKeepsAll(db: Db, k: nat)
    ensures Stage(db, EMPTY_SCOPE, k) == db
  {
    assert forall table, id, row :: !Doomed(EMPTY_SCOPE, table, id, row);
    forall table | table in db
      ensures StageRows(EMPTY_SCOPE, table, db[table], k) == db[table]
    {
    }
  }

  lemma DropNothing(db: Db)
    ensures Drop(db, {}, {}) == db
  {
    forall table | table in db
      ensures Drop(db, {}, {})[table] == db[table]
    {
    }
  }

  lemma DeleteNothing(db: Db, s: Statement)
    requires !s.Clear?
    requires forall id :: id in Rows(db, Target(s)) ==> !Matches(s, id, Rows(db, Target(s))[id])
    ensures Exec(db, s) == db
  {
    if Target(s) in db {
      var rows, left := db[Target(s)], ExecRows(s, db[Target(s)]);
      assert rows == Rows(db, Target(s));
      assert forall id :: id in rows <==> id in left;
      assert left == rows;
    }
  }

  lemma DropSessionsAgain(db: Db, sessions: set<int>)
    ensures DropSessions(DropSessions(db, sessions), sessions) == DropSessions(db, sessions)
  {
    var after := DropSessions(db, sessions);
    forall id
      ensures id in Rows(after, Messages) ==> !CellIn(At(after, Messages, id, SessionId), sessions)
      ensures id in Rows(after, Sessions) ==> id !in sessions
    {
      DropSessionsContents(db, sessions, Messages, id);
      DropSessionsContents(db, sessions, Sessions, id);
    }
    DeleteNothing(after, Delete(Messages, SessionId, sessions, false));
    DeleteNothing(after, Delete(Sessions, Id, sessions, false));
  }

  /** From the state after the main statements to the final one. */
  lemma TailContents(st: State, graph: Graph, table: Table, id: int)
    requires table !in {Messages, Sessions}
    ensures var main, removed := AfterMain(st.db, graph), RemovedBy(st, graph);
            id in Rows(FinalDb(st, graph), table)
            <==> id in Rows(main, table)
                 && !Dropped(removed, PairsOf(st.relationPairs, removed), table, id, Rows(main, table)[id])
    ensures id in Rows(FinalDb(st, graph), table) ==>
              Rows(FinalDb(st, graph), table)[id] == Rows(AfterMain(st.db, graph), table)[id]
  {
    var main, removed := AfterMain(st.db, graph), RemovedBy(st, graph);
    var pairs := PairsOf(st.relationPairs, removed);
    DropContents(main, removed, pairs, table, id);
    DropSessionsContents(Drop(main, removed, pairs), SessionsBy(st, graph), table, id);
  }

  /** A row that names a factor that is not removed stays. */
  lemma RowOfKeptParentStays(st: State, graph: Graph, f: int, table: Table, id: int)
    requires f !in RemovedBy(st, graph) && table !in {Messages, Sessions, Factors}
    requires id in Rows(AfterMain(st.db, graph), table)
    requires table == FactorRelations ==> At(AfterMain(st.db, graph), table, id, FactorId) == Int(f)
    ensures id in Rows(FinalDb(st, graph), table)
            && Rows(FinalDb(st, graph), table)[id] == Rows(AfterMain(st.db, graph), table)[id]
  {
    TailContents(st, graph, table, id);
  }

  lemma UseStays(st: State, graph: Graph, f: int, table: Table, column: Column)
    requires f !in RemovedBy(st, graph) && table !in {Messages, Sessions, Factors, FactorRelations}
    requires UsedOutside(AfterMain(st.db, graph), table, column, {f}, {})
    ensures UsedOutside(FinalDb(st, graph), table, column, {f}, {})
  {
    var main := AfterMain(st.db, graph);
    var id :| id in Rows(main, table) && CellIn(At(main, table, id, column), {f});
    RowOfKeptParentStays(st, graph, f, table, id);
  }

  lemma RelationStays(st: State, graph: Graph, f: int, owned: set<int>)
    requires f !in RemovedBy(st, graph)
    requires UsedByNamedOther(AfterMain(st.db, graph), FactorRelations, FactorId, {f}, SubFactorId, owned)
    ensures UsedByNamedOther(FinalDb(st, graph), FactorRelations, FactorId, {f}, SubFactorId, owned)
  {
    var main := AfterMain(st.db, graph);
    var id :| id in Rows(main, FactorRelations) && CellIn(At(main, FactorRelations, id, FactorId), {f})
      && BareNotIn(At(main, FactorRelations, id, SubFactorId), owned);
    RowOfKeptParentStays(st, graph, f, FactorRelations, id);
    SameRowUses(main, FinalDb(st, graph), f, owned, id);
  }

  lemma SameRowUses(before: Db, after: Db, f: int, owned: set<int>, id: int)
    requires id in Rows(before, FactorRelations) && id in Rows(after, FactorRelations)
    requires Rows(before, FactorRelations)[id] == Rows(after, FactorRelations)[id]
    requires CellIn(At(before, FactorRelations, id, FactorId), {f})
    requires BareNotIn(At(before, FactorRelations, id, SubFactorId), owned)
    ensures UsedByNamedOther(after, FactorRelations, FactorId, {f}, SubFactorId, owned)
  {
    assert CellIn(At(after, FactorRelations, id, FactorId), {f});
  }

  lemma ReferencesOfKeptParentStay(st: State, graph: Graph, f: int, owned: set<int>)
    requires f !in RemovedBy(st, graph) && ParentReferenced(AfterMain(st.db, graph), f, owned)
    ensures ParentReferenced(FinalDb(st, graph), f, owned)
  {
    var main := AfterMain(st.db, graph);
    if UsedOutside(main, Details, FactorId, {f}, {}) {
      UseStays(st, graph, f, Details, FactorId);
    } else if UsedByNamedOther(main, FactorRelations, FactorId, {f}, SubFactorId, owned) {
      RelationStays(st, graph, f, owned);
    } else if UsedOutside(main, ThemeRelations, FactorId, {f}, {}) {
      UseStays(st, graph, f, ThemeRelations, FactorId);
    } else if UsedOutside(main, Components, ComponentFactorId, {f}, {}) {
      UseStays(st, graph, f, Components, ComponentFactorId);
    } else {
      var id :| id in Rows(main, Validities) && At(main, Validities, id, FactorId) == Int(f)
        && At(main, Validities, id, IsSubFactor) == Int(0);
      RowOfKeptParentStays(st, graph, f, Validities, id);
    }
  }

  /** The verdict on a candidate parent does not change from one run to the next. */
  lemma ParentVerdictStable(st: State, graph: Graph, pairs: RelationPairs, f: int)
    requires f in Candidates(st.parentIds, Owners(graph))
    requires f !in CleanedBy(st, graph) ==> OwnedSubFactors(pairs, f) == OwnedSubFactors(st.relationPairs, f)
    ensures IsTestParent(FinalDb(st, graph), f) <==> f !in CleanedBy(st, graph)
    ensures !Removable(FinalDb(st, graph), pairs, f)
  {
    TailContents(st, graph, Factors, f);
    if f !in CleanedBy(st, graph) {
      ReferencesOfKeptParentStay(st, graph, f, OwnedSubFactors(pairs, f));
    }
  }

  lemma PrunedPairsKeepOthers(pairs: RelationPairs, owners: set<int>, cleaned: set<int>, f: int)
    requires f !in cleaned
    ensures OwnedSubFactors(PrunePairs(pairs, owners, cleaned), f) == OwnedSubFactors(pairs, f)
  {
    var pruned := PrunePairs(pairs, owners, cleaned);
    forall p | p in AllPairs(pairs) && p.0 == f
      ensures p in AllPairs(pruned)
    {
      var owner :| owner in pairs && p in pairs[owner];
      assert p in WithoutParents(pairs[owner], cleaned);
      assert owner in pruned && p in pruned[owner];
    }
    assert AllPairs(pruned) <= AllPairs(pairs);
  }

  lemma PrunedCandidates(ids: ParentIds, owners: set<int>, cleaned: set<int>)
    ensures Candidates(PruneIds(ids, owners, cleaned), owners) == Candidates(ids, owners) - cleaned
  {
    var pruned := PruneIds(ids, owners, cleaned);
    forall f | f in Candidates(ids, owners) - cleaned
      ensures f in Candidates(pruned, owners)
    {
      var owner :| owner in owners && owner in ids && f in ids[owner];
      assert f in ids[owner] - cleaned;
      assert owner in pruned && f in pruned[owner];
    }
  }

  /** The second run sees no form and the same sessions. */
  lemma SecondRunSees(st: State, graph: Graph)
    ensures OwnedForms(FinalDb(st, graph), graph) == {}
    ensures CleanableSessions(FinalDb(st, graph), graph, {}) == SessionsBy(st, graph)
    ensures OwnershipConfirmed(FinalDb(st, graph), graph)
  {
    var after := FinalDb(st, graph);
    forall form | form in FormIds(graph)
      ensures form !in Rows(after, Forms)
    {
      OwnedFormsGo(st, graph, form);
    }
    forall session | session in graph
      ensures session in CleanableSessions(after, graph, {}) <==> session in SessionsBy(st, graph)
    {
      forall form
        ensures form in Rows(after, Forms) && At(after, Forms, form, SessionId) == Int(session)
                <==> form in Rows(st.db, Forms) && At(st.db, Forms, form, SessionId) == Int(session)
                     && form !in OwnedForms(st.db, graph)
      {
        FinalForms(st, graph, form);
      }
    }
  }

  /** Without a form that is present, a run deletes no row of the closure. */
  lemma FormlessRun(db: Db, graph: Graph)
    requires OwnedForms(db, graph) == {}
    ensures AfterMain(db, graph) == db
    ensures Admissible(db, ScopeOf(db, graph)) && !BlindSpot(db, ScopeOf(db, graph))
  {
    NoFormsNoScope(db, graph);
    EmptyScopeAdmissible(db);
    EmptyScopeKeepsAll(db, MAIN_STATEMENTS);
  }

  lemma NothingDroppedAgain(st: State, again: State, graph: Graph)
    requires again.db == FinalDb(st, graph) && AfterMain(again.db, graph) == again.db
    requires RemovedBy(again, graph) == {} && SessionsBy(again, graph) == SessionsBy(st, graph)
    ensures FinalDb(again, graph) == FinalDb(st, graph)
  {
    assert PairsOf(again.relationPairs, {}) == {};
    DropNothing(again.db);
    var removed := RemovedBy(st, graph);
    DropSessionsAgain(
      Drop(AfterMain(st.db, graph), removed, PairsOf(st.relationPairs, removed)), SessionsBy(st, graph));
  }

  lemma FormlessRunGoesThrough(st: State, graph: Graph)
    requires SingleOwner(graph) && graph != map[] && OwnershipConfirmed(st.db, graph)
    requires OwnedForms(st.db, graph) == {} && RemovedBy(st, graph) == {}
    ensures RunsThrough(st, graph)
  {
    FormlessRun(st.db, graph);
    assert forall v: Value :: !CellIn(v, {});
  }

  lemma VerdictsAgain(st: State, again: State, graph: Graph)
    requires AfterMain(again.db, graph) == again.db
    requires Candidates(again.parentIds, Owners(graph)) <= Candidates(st.parentIds, Owners(graph))
    requires forall f :: f in Candidates(again.parentIds, Owners(graph)) ==>
               (IsTestParent(again.db, f) <==> f !in CleanedBy(st, graph))
               && !Removable(again.db, again.relationPairs, f)
    ensures RemovedBy(again, graph) == {}
    ensures CleanedBy(again, graph) == Candidates(again.parentIds, Owners(graph)) * CleanedBy(st, graph)
  {
  }

  /** A run on the state another run left, with ownership maps that agree on the parents still in place. */
  lemma RunAgain(st: State, graph: Graph, ids: ParentIds, pairs: RelationPairs)
    requires RunsThrough(st, graph)
    requires Candidates(ids, Owners(graph)) <= Candidates(st.parentIds, Owners(graph))
    requires forall f :: f in Candidates(ids, Owners(graph)) && f !in CleanedBy(st, graph) ==>
               OwnedSubFactors(pairs, f) == OwnedSubFactors(st.relationPairs, f)
    ensures var again := State(FinalDb(st, graph), ids, pairs);
            && RunsThrough(again, graph) && FinalDb(again, graph) == FinalDb(st, graph)
            && CleanedBy(again, graph) == Candidates(ids, Owners(graph)) * CleanedBy(st, graph)
  {
    var after := FinalDb(st, graph);
    var again := State(after, ids, pairs);
    SecondRunSees(st, graph);
    FormlessRun(after, graph);
    forall f | f in Candidates(ids, Owners(graph))
      ensures IsTestParent(after, f) <==> f !in CleanedBy(st, graph)
      ensures !Removable(after, pairs, f)
    {
      ParentVerdictStable(st, graph, pairs, f);
    }
    VerdictsAgain(st, again, graph);
    FormlessRunGoesThrough(again, graph);
    NothingDroppedAgain(st, again, graph);
  }

  lemma CleanedAreCandidates(st: State, graph: Graph)
    ensures Candidates(st.parentIds, Owners(graph)) * CleanedBy(st, graph) == CleanedBy(st, graph)
  {
  }

  lemma UndisturbedRun(st: State, graph: Graph)
    requires RunsThrough(st, graph)
    ensures AfterRun(st, graph)
         == State(FinalDb(st, graph),
                  PruneIds(st.parentIds, Owners(graph), CleanedBy(st, graph)),
                  PrunePairs(st.relationPairs, Owners(graph), CleanedBy(st, graph)))
  {
  }

  /** Main result: a second run changes neither the database nor the ownership maps. */
  lemma RunIsIdempotent(st: State, graph: Graph)
    ensures AfterRun(AfterRun(st, graph), graph) == AfterRun(st, graph)
  {
    if RunsThrough(st, graph) {
      var owners, cleaned := Owners(graph), CleanedBy(st, graph);
      var next := AfterRun(st, graph);
      PrunedCandidates(st.parentIds, owners, cleaned);
      forall f | f !in cleaned
        ensures OwnedSubFactors(next.relationPairs, f) == OwnedSubFactors(st.relationPairs, f)
      {
        PrunedPairsKeepOthers(st.relationPairs, owners, cleaned, f);
      }
      RunAgain(st, graph, next.parentIds, next.relationPairs);
      assert CleanedBy(next, graph) == {};
      PruneNothing(next, owners);
    }
  }

  lemma PruneNothing(st: State, owners: set<int>)
    requires forall o :: o in owners && o in st.parentIds ==> st.parentIds[o] != {}
    requires forall o :: o in owners && o in st.relationPairs ==> st.relationPairs[o] != {}
    ensures PruneIds(st.parentIds, owners, {}) == st.parentIds
    ensures PrunePairs(st.relationPairs, owners, {}) == st.relationPairs
  {
    forall o | o in st.parentIds
      ensures o in PruneIds(st.parentIds, owners, {}) && PruneIds(st.parentIds, owners, {})[o] == st.parentIds[o]
    {
      assert st.parentIds[o] - {} == st.parentIds[o];
    }
    forall o | o in st.relationPairs
      ensures o in PrunePairs(st.relationPairs, owners, {})
      ensures PrunePairs(st.relationPairs, owners, {})[o] == st.relationPairs[o]
    {
      assert WithoutParents(st.relationPairs[o], {}) == st.relationPairs[o];
    }
  }

  /** Main result: when the commit went through but the caller saw an exception, so that the ownership maps are stale,
      the next run reaches the state an undisturbed first run would have reached. */
  lemma LostAcknowledgementIsRecovered(st: State, graph: Graph)
    requires RunsThrough(st, graph)
    ensures AfterRun(State(AfterRun(st, graph).db, st.parentIds, st.relationPairs), graph) == AfterRun(st, graph)
  {
    RunAgain(st, graph, st.parentIds, st.relationPairs);
    UndisturbedRun(st, graph);
    UndisturbedRun(State(FinalDb(st, graph), st.parentIds, st.relationPairs), graph);
    CleanedAreCandidates(st, graph);
  }
}
