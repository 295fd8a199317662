/** Examples of the blind spots of the cleanup that NULL owners open: a pool member without a form, a component without
    a version, and a relation of a temporary parent without a sub-factor. */
module CleanupOrphans {
  import opened Schema
  import opened CleanupScope
  import opened CleanupStages
  import opened CleanupResult

  /** Form 1 has produced version 2, from which sub-factor 4 is registered. */
  const REGISTERED: Db := map[
    Sessions := map[1 := map[]],
    Forms := map[1 := map[SessionId := Int(1)]],
    Versions := map[2 := map[InitialFormId := Int(1), ComboId := Int(20), VersionHash := Text("h")]],
    Registrations := map[3 := map[SubFactorId := Int(4), ComboId := Int(20), VersionHash := Text("h")]],
    SubFactors := map[4 := map[]]]

  const FORM_ONE: Graph := map[1 := {1}]

  const REGISTERED_SCOPE := Scope({1}, {2}, {}, {}, {}, {3}, {4}, {}, {})

  /** A row that uses sub-factor 4 and has no owner. */
  predicate Orphan(table: Table, column: Column) {
    (table == Members && column == SubFactorId) || (table == Components && column == ComponentSubFactorId)
  }

  function WithOrphan(table: Table, column: Column): Db {
    REGISTERED[table := map[5 := map[column := Int(4)]]]
  }

  /** The rows of the example. */
  ghost predicate ExampleRows(db: Db, table: Table) {
    Rows(db, Sessions).Keys == {1} && Rows(db, Forms).Keys == {1} && Rows(db, Versions).Keys == {2}
    && Rows(db, Registrations).Keys == {3} && Rows(db, SubFactors).Keys == {4} && Rows(db, table).Keys == {5}
    && forall t :: t !in {Sessions, Forms, Versions, Registrations, SubFactors, table} ==> Rows(db, t).Keys == {}
  }

  /** Its cells, without those of the orphan. */
  ghost predicate RegisteredCells(db: Db) {
    (forall c :: At(db, Forms, 1, c) == if c == Id || c == SessionId then Int(1) else Null)
    && (forall c :: At(db, Versions, 2, c)
          == if c == Id then Int(2) else if c == InitialFormId then Int(1) else if c == ComboId then Int(20)
             else if c == VersionHash then Text("h") else Null)
    && (forall c :: At(db, Registrations, 3, c)
          == if c == Id then Int(3) else if c == SubFactorId then Int(4) else if c == ComboId then Int(20)
             else if c == VersionHash then Text("h") else Null)
  }

  ghost predicate ExampleCells(db: Db, table: Table, column: Column) {
    RegisteredCells(db)
    && forall c :: At(db, table, 5, c) == if c == Id then Int(5) else if c == column then Int(4) else Null
  }

  ghost predicate Example(db: Db, table: Table, column: Column) {
    Orphan(table, column) && ExampleRows(db, table) && ExampleCells(db, table, column)
  }

  lemma OtherTables(table: Table, column: Column, t: Table)
    requires Orphan(table, column) && t !in {Sessions, Forms, Versions, Registrations, SubFactors, table}
    ensures Rows(WithOrphan(table, column), t).Keys == {}
  {
    assert t !in REGISTERED;
  }

  lemma RowsOfExample(table: Table, column: Column)
    requires Orphan(table, column)
    ensures ExampleRows(WithOrphan(table, column), table)
  {
    forall t | t !in {Sessions, Forms, Versions, Registrations, SubFactors, table}
      ensures Rows(WithOrphan(table, column), t).Keys == {}
    {
      OtherTables(table, column, t);
    }
  }

  lemma CellsOfExample(table: Table, column: Column)
    requires Orphan(table, column)
    ensures ExampleCells(WithOrphan(table, column), table, column)
  {
    RegisteredForm();
    RegisteredVersion();
    RegisteredRegistration();
    OrphanRows(table, column);
    CellsWithOrphan(REGISTERED, WithOrphan(table, column), table, column);
  }

  lemma CellsWithOrphan(registered: Db, db: Db, table: Table, column: Column)
    requires Orphan(table, column) && RegisteredCells(registered)
    requires Rows(db, table) == map[5 := map[column := Int(4)]]
    requires forall t :: t != table ==> Rows(db, t) == Rows(registered, t)
    ensures ExampleCells(db, table, column)
  {
    SameCells(registered, db, Forms, 1);
    SameCells(registered, db, Versions, 2);
    SameCells(registered, db, Registrations, 3);
    OrphanCells(db, table, column);
  }

  lemma SameCells(a: Db, b: Db, t: Table, id: int)
    requires Rows(a, t) == Rows(b, t)
    ensures forall c :: At(b, t, id, c) == At(a, t, id, c)
  {
  }

  lemma OrphanCells(db: Db, table: Table, column: Column)
    requires Orphan(table, column) && Rows(db, table) == map[5 := map[column := Int(4)]]
    ensures forall c :: At(db, table, 5, c) == if c == Id then Int(5) else if c == column then Int(4) else Null
  {
    assert Rows(db, table)[5] == map[column := Int(4)];
  }

  lemma OrphanRows(table: Table, column: Column)
    requires Orphan(table, column)
    ensures Rows(WithOrphan(table, column), table) == map[5 := map[column := Int(4)]]
    ensures forall t :: t != table ==> Rows(WithOrphan(table, column), t) == Rows(REGISTERED, t)
  {
  }

  lemma RegisteredForm()
    ensures forall c :: At(REGISTERED, Forms, 1, c) == if c == Id || c == SessionId then Int(1) else Null
  {
    assert Rows(REGISTERED, Forms)[1] == map[SessionId := Int(1)];
  }

  lemma RegisteredVersion()
    ensures forall c :: At(REGISTERED, Versions, 2, c)
              == if c == Id then Int(2) else if c == InitialFormId then Int(1) else if c == ComboId then Int(20)
                 else if c == VersionHash then Text("h") else Null
  {
    assert Rows(REGISTERED, Versions)[2] == map[InitialFormId := Int(1), ComboId := Int(20), VersionHash := Text("h")];
  }

  lemma RegisteredRegistration()
    ensures forall c :: At(REGISTERED, Registrations, 3, c)
              == if c == Id then Int(3) else if c == SubFactorId then Int(4) else if c == ComboId then Int(20)
                 else if c == VersionHash then Text("h") else Null
  {
    assert Rows(REGISTERED, Registrations)[3]
        == map[SubFactorId := Int(4), ComboId := Int(20), VersionHash := Text("h")];
  }

  lemma OrphanFormsAndVersions(db: Db, table: Table, column: Column)
    requires Example(db, table, column)
    ensures OwnedForms(db, FORM_ONE) == {1} && VersionsOf(db, {1}) == {2}
  {
    assert FORM_ONE[1] == {1} && 1 in FormIds(FORM_ONE);
    assert 2 in Rows(db, Versions) && CellIn(At(db, Versions, 2, InitialFormId), {1});
    assert 1 in Rows(db, Forms);
  }

  lemma OrphanPools(db: Db, table: Table, column: Column)
    requires Example(db, table, column)
    ensures Pointers(db, Versions, {2}, PoolId) == {} && Pointers(db, Forms, {1}, PoolId) == {}
  {
  }

  lemma OrphanExperiments(db: Db, table: Table, column: Column)
    requires Example(db, table, column)
    ensures ExperimentsOf(db, {1}, {2}) == {} && MetricsOf(db, {}, {2}) == {}
  {
    assert Pointers(db, Versions, {2}, ExperimentId) == {} && Pointers(db, Versions, {2}, BestExperimentId) == {};
    assert Pointers(db, Forms, {1}, ExperimentId) == {};
    assert Rows(db, Metrics).Keys == {};
  }

  lemma OrphanRegistrations(db: Db, table: Table, column: Column)
    requires Example(db, table, column)
    ensures RegistrationsOf(db, {2}) == {3} && Pointers(db, Registrations, {3}, SubFactorId) == {4}
  {
    assert At(db, Versions, 2, VersionHash).s in HashesOf(db, {2});
    assert 3 in Rows(db, Registrations) && At(db, Registrations, 3, SubFactorId) == Int(4);
    assert 3 in RegistrationsOf(db, {2});
  }

  lemma NoSources(db: Db, table: Table, column: Column, c: int)
    requires Example(db, table, column) && c in Rows(db, Components)
    ensures !SourceOf(db, {2}, 3, c)
  {
    assert c == 5 && At(db, Components, 5, ComboId) == Null;
  }

  lemma RegistrationWithoutFactor(db: Db, table: Table, column: Column)
    requires Example(db, table, column)
    ensures At(db, Registrations, 3, FactorId) == Null
  {
  }

  lemma OrphanLineage(db: Db, table: Table, column: Column)
    requires Example(db, table, column)
    ensures ExpectedFactorPairs(db, {2}, {3}) == {} && ExpectedParentPairs(db, {2}, {3}) == {}
  {
    assert forall c :: c in Rows(db, Components) ==> !SourceOf(db, {2}, 3, c) by {
      forall c | c in Rows(db, Components)
        ensures !SourceOf(db, {2}, 3, c)
      {
        NoSources(db, table, column, c);
      }
    }
    RegistrationWithoutFactor(db, table, column);
  }

  lemma OrphanScope(db: Db, table: Table, column: Column)
    requires Example(db, table, column)
    ensures ScopeOf(db, FORM_ONE) == REGISTERED_SCOPE
  {
    OrphanFormsAndVersions(db, table, column);
    OrphanPools(db, table, column);
    OrphanExperiments(db, table, column);
    OrphanRegistrations(db, table, column);
    OrphanLineage(db, table, column);
  }

  lemma RowOfExample(db: Db, table: Table, column: Column, t: Table, id: int)
    requires Example(db, table, column) && id in Rows(db, t)
    ensures (t == Sessions && id == 1) || (t == Forms && id == 1) || (t == Versions && id == 2)
            || (t == Registrations && id == 3) || (t == SubFactors && id == 4) || (t == table && id == 5)
  {
  }

  lemma RowPointsSomewhere(db: Db, table: Table, column: Column, child: Table, id: int, c: Column, parent: Table)
    requires Example(db, table, column) && id in Rows(db, child) && References(child, c, parent)
    ensures At(db, child, id, c).Int? ==>
      (child == Forms && id == 1 && c == SessionId) || (child == Versions && id == 2 && c == InitialFormId)
      || (child == Registrations && id == 3 && c == SubFactorId) || (child == table && id == 5 && c == column)
  {
    RowOfExample(db, table, column, child, id);
  }

  lemma OrphanConsistent(db: Db, table: Table, column: Column)
    requires Example(db, table, column)
    ensures Consistent(db)
  {
    forall child, id, c, parent
      ensures !Dangling(db, child, id, c, parent)
    {
      if id in Rows(db, child) && References(child, c, parent) {
        RowPointsSomewhere(db, table, column, child, id, c, parent);
      }
    }
  }

  lemma PoolsAndExperimentsNotShared(db: Db, table: Table, column: Column)
    requires Example(db, table, column)
    ensures !PoolShared(db, REGISTERED_SCOPE) && !ExperimentShared(db, REGISTERED_SCOPE)
    ensures !MetricShared(db, REGISTERED_SCOPE)
  {
  }

  lemma VersionsNotShared(db: Db, table: Table, column: Column)
    requires Example(db, table, column)
    ensures !VersionShared(db, REGISTERED_SCOPE)
  {
    assert Rows(db, Feedbacks).Keys == {} && Rows(db, Forms).Keys == {1};
  }

  lemma SubFactorsNotShared(db: Db, table: Table, column: Column)
    requires Example(db, table, column)
    ensures !SubFactorShared(db, REGISTERED_SCOPE)
  {
    assert Rows(db, Registrations).Keys == {3};
    assert Rows(db, FactorRelations).Keys == {} && Rows(db, ParentRelations).Keys == {};
    assert !UsedByNamedOther(db, Components, ComponentSubFactorId, {4}, ComboId, {2}) by {
      forall id | id in Rows(db, Components)
        ensures !BareNotIn(At(db, Components, id, ComboId), {2})
      {
        RowOfExample(db, table, column, Components, id);
      }
    }
    assert !UsedByNamedOther(db, Members, SubFactorId, {4}, FormId, {1}) by {
      forall id | id in Rows(db, Members)
        ensures !BareNotIn(At(db, Members, id, FormId), {1})
      {
        RowOfExample(db, table, column, Members, id);
      }
    }
  }

  lemma OrphanOwned(db: Db, table: Table, column: Column)
    requires Example(db, table, column)
    ensures OwnershipConfirmed(db, FORM_ONE)
  {
    assert At(db, Forms, 1, SessionId) == Int(1);
  }

  lemma OrphanIdentified(db: Db, table: Table, column: Column)
    requires Example(db, table, column)
    ensures VersionsIdentified(db, {2})
  {
    assert At(db, Versions, 2, VersionHash) == Text("h") && At(db, Versions, 2, ComboId) == Int(20);
  }

  lemma OrphanIdle(db: Db, table: Table, column: Column)
    requires Example(db, table, column)
    ensures !HasActivePipeline(db, {1}) && !HasActiveRefresh(db, {4})
  {
    assert TextOr(At(db, Forms, 1, PipelineRunId)) == "";
    assert Rows(db, Refreshes).Keys == {};
  }

  lemma OrphanRegistrationsOwned(db: Db, table: Table, column: Column)
    requires Example(db, table, column)
    ensures RegistrationsOwned(db, REGISTERED_SCOPE)
  {
    assert RegisteredFrom(db, {2}, 3, 2);
    assert At(db, Versions, 2, ComboId) == Int(20);
    assert 20 in AcceptedCombos(db, {2});
  }

  lemma NothingShared(db: Db, table: Table, column: Column)
    requires Example(db, table, column)
    ensures !ExternallyReferenced(db, REGISTERED_SCOPE)
  {
    PoolsAndExperimentsNotShared(db, table, column);
    VersionsNotShared(db, table, column);
    SubFactorsNotShared(db, table, column);
  }

  lemma AllGuardsPass(db: Db, sc: Scope)
    requires sc.experiments == {} && sc.metrics == {}
    requires VersionsIdentified(db, sc.versions) && RegistrationsOwned(db, sc) && !ExternallyReferenced(db, sc)
    requires !HasActivePipeline(db, sc.forms) && !HasActiveRefresh(db, sc.subFactors)
    ensures Admissible(db, sc)
  {
  }

  lemma OrphanAdmissible(db: Db, table: Table, column: Column)
    requires Example(db, table, column)
    ensures Admissible(db, REGISTERED_SCOPE) && OwnershipConfirmed(db, FORM_ONE)
  {
    OrphanOwned(db, table, column);
    OrphanIdentified(db, table, column);
    OrphanIdle(db, table, column);
    OrphanRegistrationsOwned(db, table, column);
    NothingShared(db, table, column);
    AllGuardsPass(db, REGISTERED_SCOPE);
  }

  lemma OrphanIsBlindSpot(db: Db, table: Table, column: Column)
    requires Example(db, table, column)
    ensures BlindSpot(db, REGISTERED_SCOPE)
  {
    assert 5 in Rows(db, table);
    if table == Members {
      assert UsedByNobody(db, Members, SubFactorId, {4}, FormId);
    } else {
      assert UsedByNobody(db, Components, ComponentSubFactorId, {4}, ComboId);
    }
  }

  lemma ExampleRefused(db: Db, table: Table, column: Column)
    requires Example(db, table, column)
    ensures Consistent(db) && OwnershipConfirmed(db, FORM_ONE) && Admissible(db, ScopeOf(db, FORM_ONE))
    ensures !StagesConsistent(db, ScopeOf(db, FORM_ONE), 0)
  {
    OrphanScope(db, table, column);
    OrphanConsistent(db, table, column);
    OrphanAdmissible(db, table, column);
    OrphanIsBlindSpot(db, table, column);
    IntegrityAtEveryStatement(db, FORM_ONE, REGISTERED_SCOPE);
  }

  /** A member without a form, or a component without a version, passes all checks and makes the database refuse. */
  lemma OrphanAdmittedButRefused(table: Table, column: Column)
    requires Orphan(table, column)
    ensures
      var db := WithOrphan(table, column);
      Consistent(db) && OwnershipConfirmed(db, FORM_ONE) && Admissible(db, ScopeOf(db, FORM_ONE))
      && !StagesConsistent(db, ScopeOf(db, FORM_ONE), 0)
  {
    RowsOfExample(table, column);
    CellsOfExample(table, column);
    ExampleRefused(WithOrphan(table, column), table, column);
  }

  // ---- A temporary parent ----

  /** Temporary parent 1 with a relation that names no sub-factor. */
  const LOOSE_RELATION: Db := map[
    Factors := map[1 := map[FactorName := Text(TEST_PARENT_FACTOR_PREFIX)]],
    FactorRelations := map[9 := map[FactorId := Int(1)]]]

  const OWNED_PAIR: RelationPairs := map[7 := {(1, 2)}]

  lemma LooseIsTestParent()
    ensures IsTestParent(LOOSE_RELATION, 1)
  {
    assert At(LOOSE_RELATION, Factors, 1, FactorName) == Text(TEST_PARENT_FACTOR_PREFIX);
  }

  lemma LooseNotReferenced(owned: set<int>)
    requires 2 in owned
    ensures !ParentReferenced(LOOSE_RELATION, 1, owned)
  {
    LooseTablesEmpty();
    LooseRelationOverlooked(owned);
  }

  lemma LooseTablesEmpty()
    ensures Rows(LOOSE_RELATION, Details) == map[] && Rows(LOOSE_RELATION, ThemeRelations) == map[]
    ensures Rows(LOOSE_RELATION, Components) == map[] && Rows(LOOSE_RELATION, Validities) == map[]
  {
  }

  lemma LooseRelationOverlooked(owned: set<int>)
    requires 2 in owned
    ensures !UsedByNamedOther(LOOSE_RELATION, FactorRelations, FactorId, {1}, SubFactorId, owned)
  {
    assert Rows(LOOSE_RELATION, FactorRelations).Keys == {9};
    assert At(LOOSE_RELATION, FactorRelations, 9, SubFactorId) == Null;
  }

  lemma LooseParentRemovable()
    ensures Removable(LOOSE_RELATION, OWNED_PAIR, 1)
  {
    var owned := OwnedSubFactors(OWNED_PAIR, 1);
    assert (1, 2) in OWNED_PAIR[7] && (1, 2) in AllPairs(OWNED_PAIR) && 2 in owned;
    LooseIsTestParent();
    LooseNotReferenced(owned);
  }

  /** Nothing else uses the parent, so it is deleted, which leaves its relation dangling. */
  lemma LooseRelationBreaksIntegrity()
    ensures Consistent(LOOSE_RELATION) && Removable(LOOSE_RELATION, OWNED_PAIR, 1)
    ensures ParentBlindSpot(LOOSE_RELATION, {1})
    ensures !Consistent(Drop(LOOSE_RELATION, {1}, PairsOf(OWNED_PAIR, {1})))
  {
    LooseConsistent();
    LooseParentRemovable();
    assert 9 in Rows(LOOSE_RELATION, FactorRelations);
    assert CellIn(At(LOOSE_RELATION, FactorRelations, 9, FactorId), {1});
    DropKeepsIntegrity(LOOSE_RELATION, OWNED_PAIR, {1});
  }

  lemma LooseConsistent()
    ensures Consistent(LOOSE_RELATION)
  {
    forall child, id, c, parent
      ensures !Dangling(LOOSE_RELATION, child, id, c, parent)
    {
      if id in Rows(LOOSE_RELATION, child) && References(child, c, parent) {
        assert child == FactorRelations && id == 9;
      }
    }
  }
}
