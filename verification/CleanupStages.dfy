/** The twenty-one UPDATE and DELETE statements that remove a scope, the state between any two of them, and the
    theorem that decides when every one of these states keeps referential integrity. */
module CleanupStages {
  import opened Schema
  import opened CleanupScope

  /** A statement of the cleanup.  An empty value list means that no SQL is sent at all. */
  datatype Statement =
    | Delete(table: Table, column: Column, values: set<int>, subFactorsOnly: bool)
    | Clear(table: Table, columns: set<Column>, values: set<int>)
    | DeletePair(factor: int, subFactor: int)  // from factor_sub_factor_relations

  predicate Matches(s: Statement, id: int, row: Row)
    requires !s.Clear?
  {
    match s
    case Delete(_, column, values, only) =>
      CellIn(Cell(id, row, column), values) && (only ==> Cell(id, row, IsSubFactor) == Int(1))
    case DeletePair(f, g) => Cell(id, row, FactorId) == Int(f) && Cell(id, row, SubFactorId) == Int(g)
  }

  function ExecRows(s: Statement, rows: map<int, Row>): map<int, Row> {
    if s.Clear? then map id | id in rows :: if id in s.values then rows[id] - s.columns else rows[id]
    else map id | id in rows && !Matches(s, id, rows[id]) :: rows[id]
  }

  function Target(s: Statement): Table {
    if s.DeletePair? then FactorRelations else s.table
  }

  /** The table contents after one statement. */
  function Exec(db: Db, s: Statement): Db {
    if Target(s) in db then db[Target(s) := ExecRows(s, db[Target(s)])] else db
  }

  const MAIN_STATEMENTS: nat := 21

  /** The pointers that are set to NULL before the rows they point at are deleted. */
  const FORM_POINTERS: set<Column> := {VersionId, ExperimentId}
  const EXPERIMENT_POINTERS: set<Column> := {MetricsId}
  const VERSION_POINTERS: set<Column> := {ExperimentId, BestExperimentId}

  /** The statements in the order the cleanup sends them. */
  function MainStatement(sc: Scope, k: nat): Statement
    requires k < MAIN_STATEMENTS
  {
    match k
    case 0 => Delete(Registrations, Id, sc.registrations, false)
    case 1 => Delete(Validities, FactorId, sc.subFactors, true)
    case 2 => Delete(IcSlices, FactorId, sc.subFactors, true)
    case 3 => Delete(ValueSlices, FactorId, sc.subFactors, true)
    case 4 => Delete(IcSummaries, FactorId, sc.subFactors, true)
    case 5 => Delete(Refreshes, SubFactorId, sc.subFactors, false)
    case 6 => Delete(Feedbacks, FormId, sc.forms, false)
    case 7 => Delete(Components, ComboId, sc.versions, false)
    case 8 => Delete(Members, FormId, sc.forms, false)
    case 9 => Delete(Details, FactorId, sc.subFactors, true)
    case 10 => Delete(ParentRelations, SubFactorId, sc.subFactors, false)
    case 11 => Delete(FactorRelations, SubFactorId, sc.subFactors, false)
    case 12 => Delete(SubFactors, Id, sc.subFactors, false)
    case 13 => Clear(Forms, FORM_POINTERS, sc.forms)
    case 14 => Clear(Experiments, EXPERIMENT_POINTERS, sc.experiments)
    case 15 => Clear(Versions, VERSION_POINTERS, sc.versions)
    case 16 => Delete(Metrics, Id, sc.metrics, false)
    case 17 => Delete(Experiments, Id, sc.experiments, false)
    case 18 => Delete(Versions, Id, sc.versions, false)
    case 19 => Delete(Pools, FormId, sc.forms, false)
    case _ => Delete(Forms, Id, sc.forms, false)
  }

  /** The column that ties a row of `table` to the scope. */
  function ScopeColumn(table: Table): Column {
    match table
    case Validities => FactorId
    case IcSlices => FactorId
    case ValueSlices => FactorId
    case IcSummaries => FactorId
    case Details => FactorId
    case Refreshes => SubFactorId
    case Feedbacks => FormId
    case Components => ComboId
    case Members => FormId
    case ParentRelations => SubFactorId
    case FactorRelations => SubFactorId
    case Pools => FormId
    case _ => Id
  }

  /** The identifiers that tie it. */
  function ScopeIds(sc: Scope, table: Table): set<int> {
    match table
    case Registrations => sc.registrations
    case Validities => sc.subFactors
    case IcSlices => sc.subFactors
    case ValueSlices => sc.subFactors
    case IcSummaries => sc.subFactors
    case Details => sc.subFactors
    case Refreshes => sc.subFactors
    case Feedbacks => sc.forms
    case Components => sc.versions
    case Members => sc.forms
    case ParentRelations => sc.subFactors
    case FactorRelations => sc.subFactors
    case SubFactors => sc.subFactors
    case Metrics => sc.metrics
    case Experiments => sc.experiments
    case Versions => sc.versions
    case Pools => sc.forms
    case Forms => sc.forms
    case _ => {}
  }

  /** Tables whose `factor_id` names a parent factor or a sub-factor, told apart by `is_sub_factor_id`. */
  predicate Typed(table: Table) {
    table in {Validities, IcSlices, ValueSlices, IcSummaries, Details}
  }

  /** Row `id` of `table` belongs to the scope. */
  predicate Doomed(sc: Scope, table: Table, id: int, row: Row) {
    && CellIn(Cell(id, row, ScopeColumn(table)), ScopeIds(sc, table))
    && (Typed(table) ==> Cell(id, row, IsSubFactor) == Int(1))
  }

  const NEVER: nat := 99

  /** The number of the statement that deletes from a table. */
  function DeletedAt(table: Table): nat {
    match table
    case Registrations => 0
    case Validities => 1
    case IcSlices => 2
    case ValueSlices => 3
    case IcSummaries => 4
    case Refreshes => 5
    case Feedbacks => 6
    case Components => 7
    case Members => 8
    case Details => 9
    case ParentRelations => 10
    case FactorRelations => 11
    case SubFactors => 12
    case Metrics => 16
    case Experiments => 17
    case Versions => 18
    case Pools => 19
    case Forms => 20
    case _ => NEVER
  }

  /** The number of the statement that clears pointers of a table, and the pointers it clears. */
  function ClearedAt(table: Table): nat {
    match table
    case Forms => 13
    case Experiments => 14
    case Versions => 15
    case _ => NEVER
  }

  function ClearedColumns(table: Table): set<Column> {
    match table
    case Forms => FORM_POINTERS
    case Experiments => EXPERIMENT_POINTERS
    case Versions => VERSION_POINTERS
    case _ => {}
  }

  function StageRow(sc: Scope, table: Table, id: int, row: Row, k: nat): Row {
    if ClearedAt(table) < k && Doomed(sc, table, id, row) then row - ClearedColumns(table) else row
  }

  function StageRows(sc: Scope, table: Table, rows: map<int, Row>, k: nat): map<int, Row> {
    map id | id in rows && !(DeletedAt(table) < k && Doomed(sc, table, id, rows[id])) ::
      StageRow(sc, table, id, rows[id], k)
  }

  /** The database after the first `k` statements, described without running them. */
  function Stage(db: Db, sc: Scope, k: nat): Db {
    map table | table in db :: StageRows(sc, table, db[table], k)
  }

  lemma StageZero(db: Db, sc: Scope)
    ensures Stage(db, sc, 0) == db
  {
    forall table | table in db
      ensures StageRows(sc, table, db[table], 0) == db[table]
    {
    }
  }

  lemma OtherTablesKeep(sc: Scope, table: Table, rows: map<int, Row>, k: nat)
    requires DeletedAt(table) != k && ClearedAt(table) != k
    ensures StageRows(sc, table, rows, k) == StageRows(sc, table, rows, k + 1)
  {
    assert forall id :: id in rows ==>
      StageRow(sc, table, id, rows[id], k) == StageRow(sc, table, id, rows[id], k + 1);
  }

  /** Only the target of statement `k` is touched at position `k`. */
  lemma TargetOnly(sc: Scope, k: nat, table: Table)
    requires k < MAIN_STATEMENTS && table != Target(MainStatement(sc, k))
    ensures DeletedAt(table) != k && ClearedAt(table) != k
  {
  }

  /** The delete that belongs to a table. */
  function ScopeDelete(sc: Scope, table: Table): Statement {
    Delete(table, ScopeColumn(table), ScopeIds(sc, table), Typed(table))
  }

  /** Clearing pointers does not change what a row belongs to. */
  lemma ClearingKeepsOwner(sc: Scope, table: Table, s: Statement, id: int, row: Row, k: nat)
    requires s == ScopeDelete(sc, table)
    ensures Matches(s, id, StageRow(sc, table, id, row, k)) <==> Doomed(sc, table, id, row)
  {
    assert ScopeColumn(table) !in ClearedColumns(table) && IsSubFactor !in ClearedColumns(table);
  }

  lemma DeleteStep(sc: Scope, table: Table, rows: map<int, Row>)
    requires ClearedAt(table) != DeletedAt(table)
    ensures ExecRows(ScopeDelete(sc, table), StageRows(sc, table, rows, DeletedAt(table)))
         == StageRows(sc, table, rows, DeletedAt(table) + 1)
  {
    DeleteStepAt(sc, table, ScopeDelete(sc, table), rows, DeletedAt(table));
  }

  lemma DeleteStepAt(sc: Scope, table: Table, s: Statement, rows: map<int, Row>, k: nat)
    requires s == ScopeDelete(sc, table) && k == DeletedAt(table) && k != ClearedAt(table)
    ensures ExecRows(s, StageRows(sc, table, rows, k)) == StageRows(sc, table, rows, k + 1)
  {
    var now, next := StageRows(sc, table, rows, k), StageRows(sc, table, rows, k + 1);
    RowsBeforeDelete(sc, table, rows, k);
    forall id | id in rows
      ensures id in now && (Matches(s, id, now[id]) <==> Doomed(sc, table, id, rows[id]))
    {
      ClearingKeepsOwner(sc, table, s, id, rows[id], k);
    }
  }

  lemma RowsBeforeDelete(sc: Scope, table: Table, rows: map<int, Row>, k: nat)
    requires k == DeletedAt(table) && k != ClearedAt(table)
    ensures var now, next := StageRows(sc, table, rows, k), StageRows(sc, table, rows, k + 1);
            && now.Keys == rows.Keys
            && (forall id :: id in next <==> id in rows && !Doomed(sc, table, id, rows[id]))
            && (forall id :: id in rows ==> now[id] == StageRow(sc, table, id, rows[id], k))
            && (forall id :: id in next ==> next[id] == now[id])
  {
  }

  lemma ClearStep(sc: Scope, table: Table, rows: map<int, Row>)
    requires ClearedAt(table) < DeletedAt(table) && ScopeColumn(table) == Id && !Typed(table)
    ensures ExecRows(Clear(table, ClearedColumns(table), ScopeIds(sc, table)),
                     StageRows(sc, table, rows, ClearedAt(table)))
         == StageRows(sc, table, rows, ClearedAt(table) + 1)
  {
  }

  /** Statement `k` is the delete or the clear of its table. */
  lemma StatementShape(sc: Scope, k: nat)
    requires k < MAIN_STATEMENTS
    ensures var s := MainStatement(sc, k);
            if s.Clear? then
              ClearedAt(s.table) == k && s == Clear(s.table, ClearedColumns(s.table), ScopeIds(sc, s.table))
            else s.Delete? && DeletedAt(s.table) == k && s == ScopeDelete(sc, s.table)
  {
  }

  lemma TargetStep(sc: Scope, k: nat, rows: map<int, Row>)
    requires k < MAIN_STATEMENTS
    ensures var s := MainStatement(sc, k);
            ExecRows(s, StageRows(sc, Target(s), rows, k)) == StageRows(sc, Target(s), rows, k + 1)
  {
    StatementShape(sc, k);
    var s := MainStatement(sc, k);
    if s.Clear? {
      ClearStep(sc, s.table, rows);
    } else {
      DeleteStep(sc, s.table, rows);
    }
  }

  /** Running statement `k` on stage `k` gives stage `k + 1`. */
  lemma StageStep(db: Db, sc: Scope, k: nat)
    requires k < MAIN_STATEMENTS
    ensures Exec(Stage(db, sc, k), MainStatement(sc, k)) == Stage(db, sc, k + 1)
  {
    var s := MainStatement(sc, k);
    forall table | table in db
      ensures Exec(Stage(db, sc, k), s)[table] == Stage(db, sc, k + 1)[table]
    {
      if table == Target(s) {
        TargetStep(sc, k, db[table]);
      } else {
        TargetOnly(sc, k, table);
        OtherTablesKeep(sc, table, db[table], k);
      }
    }
  }

  /** The doomed rows of a referencing table are deleted, or lose the pointer, before the rows they point at. */
  lemma StatementOrderRespectsReferences(child: Table, column: Column, parent: Table)
    requires References(child, column, parent) && DeletedAt(child) != NEVER && DeletedAt(parent) != NEVER
    ensures DeletedAt(child) < DeletedAt(parent)
            || (column in ClearedColumns(child) && ClearedAt(child) < DeletedAt(parent))
  {
  }

  predicate DoomedAt(db: Db, sc: Scope, table: Table, id: int) {
    id in Rows(db, table) && Doomed(sc, table, id, Rows(db, table)[id])
  }

  /** A row that stays points at a row that goes. */
  ghost predicate KeptPointsAtDoomed(db: Db, sc: Scope, child: Table, id: int, column: Column, parent: Table) {
    && References(child, column, parent)
    && id in Rows(db, child) && !DoomedAt(db, sc, child, id)
    && At(db, child, id, column).Int?
    && DoomedAt(db, sc, parent, At(db, child, id, column).n)
  }

  /** No row outside the scope points into it. */
  ghost predicate Closed(db: Db, sc: Scope) {
    forall child, id, column, parent :: !KeptPointsAtDoomed(db, sc, child, id, column, parent)
  }

  /** Which rows are present between two statements, and what their cells hold. */
  lemma StageContents(db: Db, sc: Scope, k: nat, table: Table, id: int)
    ensures id in Rows(Stage(db, sc, k), table)
            <==> id in Rows(db, table) && !(DeletedAt(table) < k && DoomedAt(db, sc, table, id))
    ensures id in Rows(Stage(db, sc, k), table) ==> forall column ::
              At(Stage(db, sc, k), table, id, column)
              == if ClearedAt(table) < k && DoomedAt(db, sc, table, id) && column in ClearedColumns(table) then Null
                 else At(db, table, id, column)
  {
  }

  /** A row outside the scope is never touched. */
  lemma StageKeepsRow(db: Db, sc: Scope, k: nat, table: Table, id: int)
    requires id in Rows(db, table) && !DoomedAt(db, sc, table, id)
    ensures id in Rows(Stage(db, sc, k), table) && Rows(Stage(db, sc, k), table)[id] == Rows(db, table)[id]
  {
  }

  lemma NeverDoomed(db: Db, sc: Scope, table: Table, id: int)
    requires DeletedAt(table) == NEVER
    ensures !DoomedAt(db, sc, table, id)
  {
  }

  lemma DeletedInTime(table: Table)
    ensures DeletedAt(table) < MAIN_STATEMENTS || DeletedAt(table) == NEVER
  {
  }

  /** Either the pointing row is gone by then, or its pointer is. */
  lemma DoomedPointerGone(db: Db, sc: Scope, k: nat, child: Table, id: int, column: Column, parent: Table)
    requires k <= MAIN_STATEMENTS && References(child, column, parent) && DeletedAt(parent) < k
    requires id in Rows(Stage(db, sc, k), child) && DoomedAt(db, sc, child, id)
    ensures At(Stage(db, sc, k), child, id, column).Null?
  {
    StageContents(db, sc, k, child, id);
    if DeletedAt(child) == NEVER {
      NeverDoomed(db, sc, child, id);
    } else {
      StatementOrderRespectsReferences(child, column, parent);
    }
  }

  /** A dangling pointer between two statements would start in a kept row and end in a doomed one. */
  lemma DanglingMeansOpen(db: Db, sc: Scope, k: nat, child: Table, id: int, column: Column, parent: Table)
    requires !Dangling(db, child, id, column, parent) && k <= MAIN_STATEMENTS
    requires Dangling(Stage(db, sc, k), child, id, column, parent)
    ensures KeptPointsAtDoomed(db, sc, child, id, column, parent)
  {
    StageContents(db, sc, k, child, id);
    StageContents(db, sc, k, parent, At(Stage(db, sc, k), child, id, column).n);
    if DoomedAt(db, sc, child, id) {
      DoomedPointerGone(db, sc, k, child, id, column, parent);
    }
  }

  /** Referential integrity holds between any two statements when the scope is closed. */
  lemma StageConsistent(db: Db, sc: Scope, k: nat)
    requires Consistent(db) && Closed(db, sc) && k <= MAIN_STATEMENTS
    ensures Consistent(Stage(db, sc, k))
  {
    forall child, id, column, parent
      ensures !Dangling(Stage(db, sc, k), child, id, column, parent)
    {
      if Dangling(Stage(db, sc, k), child, id, column, parent) {
        DanglingMeansOpen(db, sc, k, child, id, column, parent);
      }
    }
  }

  /** Right after the statement that deletes from its target's table, a kept pointer at a doomed row dangles. */
  lemma OpenMeansDangling(db: Db, sc: Scope, k: nat, child: Table, id: int, column: Column, parent: Table)
    requires k == DeletedAt(parent) && KeptPointsAtDoomed(db, sc, child, id, column, parent)
    ensures Dangling(Stage(db, sc, k + 1), child, id, column, parent)
  {
    StageContents(db, sc, k + 1, child, id);
    StageContents(db, sc, k + 1, parent, At(db, child, id, column).n);
  }

  lemma SoundStageDoesNotOpen(db: Db, sc: Scope, k: nat, child: Table, id: int, column: Column, parent: Table)
    requires k == DeletedAt(parent) && !Dangling(Stage(db, sc, k + 1), child, id, column, parent)
    ensures !KeptPointsAtDoomed(db, sc, child, id, column, parent)
  {
    if KeptPointsAtDoomed(db, sc, child, id, column, parent) {
      OpenMeansDangling(db, sc, k, child, id, column, parent);
    }
  }

  lemma KeptTableDoesNotOpen(db: Db, sc: Scope, child: Table, id: int, column: Column, parent: Table)
    requires DeletedAt(parent) >= MAIN_STATEMENTS
    ensures !KeptPointsAtDoomed(db, sc, child, id, column, parent)
  {
    DeletedInTime(parent);
    if KeptPointsAtDoomed(db, sc, child, id, column, parent) {
      NeverDoomed(db, sc, parent, At(db, child, id, column).n);
    }
  }

  /** Integrity of the states after statements `i`, `i + 1`, and so on. */
  ghost predicate StagesConsistent(db: Db, sc: Scope, i: nat) {
    forall k: nat {:trigger Stage(db, sc, k)} :: i < k <= MAIN_STATEMENTS ==> Consistent(Stage(db, sc, k))
  }

  lemma ClosedStagesConsistent(db: Db, sc: Scope)
    requires Consistent(db) && Closed(db, sc)
    ensures StagesConsistent(db, sc, 0)
  {
    forall k: nat {:trigger Stage(db, sc, k)} | 0 < k <= MAIN_STATEMENTS
      ensures Consistent(Stage(db, sc, k))
    {
      StageConsistent(db, sc, k);
    }
  }

  lemma NothingDanglesAt(db: Db, sc: Scope, k: nat, child: Table, id: int, column: Column, parent: Table)
    requires k < MAIN_STATEMENTS && StagesConsistent(db, sc, 0)
    ensures !Dangling(Stage(db, sc, k + 1), child, id, column, parent)
  {
    assert Consistent(Stage(db, sc, k + 1));
  }

  lemma ConsistentStagesDontOpen(db: Db, sc: Scope, child: Table, id: int, column: Column, parent: Table)
    requires StagesConsistent(db, sc, 0)
    ensures !KeptPointsAtDoomed(db, sc, child, id, column, parent)
  {
    var k := DeletedAt(parent);
    if k < MAIN_STATEMENTS {
      NothingDanglesAt(db, sc, k, child, id, column, parent);
      SoundStageDoesNotOpen(db, sc, k, child, id, column, parent);
    } else {
      KeptTableDoesNotOpen(db, sc, child, id, column, parent);
    }
  }

  /** Otherwise some statement leaves a dangling reference. */
  lemma ConsistentStagesMeanClosed(db: Db, sc: Scope)
    requires StagesConsistent(db, sc, 0)
    ensures Closed(db, sc)
  {
    forall child, id, column, parent
      ensures !KeptPointsAtDoomed(db, sc, child, id, column, parent)
    {
      ConsistentStagesDontOpen(db, sc, child, id, column, parent);
    }
  }

  // ---- What the checks see, and what they do not ----

  /** The pools that are deleted: those whose form is owned. */
  function DeletedPools(db: Db, sc: Scope): set<int> {
    set p | p in Rows(db, Pools) && CellIn(At(db, Pools, p, FormId), sc.forms)
  }

  /** A row without an owner holds one of `ids` in `column`. */
  predicate UsedByNobody(db: Db, table: Table, column: Column, ids: set<int>, owner: Column) {
    exists id :: id in Rows(db, table) && CellIn(At(db, table, id, column), ids) && At(db, table, id, owner).Null?
  }

  /** Rows that the sharing checks overlook: a bare NOT IN is never true of NULL, and only the pools named by a version
      or a form of the scope are checked although every pool of an owned form is deleted. */
  predicate BlindSpot(db: Db, sc: Scope) {
    || UsedByNobody(db, Members, SubFactorId, sc.subFactors, FormId)
    || UsedByNobody(db, Components, ComponentSubFactorId, sc.subFactors, ComboId)
    || UsedByOther(db, Members, PoolId, DeletedPools(db, sc), FormId, sc.forms)
    || UsedOutside(db, Versions, PoolId, DeletedPools(db, sc), sc.versions)
  }

  /** The two ways in which the closure takes in referencing rows by itself. */
  predicate TakesInReferences(db: Db, sc: Scope) {
    && (forall v :: v in Rows(db, Versions) && CellIn(At(db, Versions, v, InitialFormId), sc.forms) ==>
          v in sc.versions)
    && (forall m :: m in Rows(db, Metrics) && CellIn(At(db, Metrics, m, ExperimentId), sc.experiments) ==>
          m in sc.metrics)
    && (sc.versions == {} ==> sc.experiments == {})
  }

  lemma ScopeTakesInReferences(db: Db, graph: Graph, sc: Scope)
    requires sc == ScopeOf(db, graph) && ExperimentsOwned(db, sc)
    ensures TakesInReferences(db, sc)
  {
    // Without a version no combination is accepted, so no experiment can be in scope.
    if sc.versions == {} {
      assert AcceptedCombos(db, sc.versions) == {};
      assert forall e :: e in sc.experiments ==>
        CellIn(At(db, Experiments, e, ComboId), AcceptedCombos(db, sc.versions));
      assert forall e :: e !in sc.experiments;
    }
  }

  /** The keys that disappear from a referenced table. */
  function Targets(db: Db, sc: Scope, parent: Table): set<int> {
    if parent == Pools then DeletedPools(db, sc) else ScopeIds(sc, parent)
  }

  lemma DoomedTarget(db: Db, sc: Scope, child: Table, column: Column, parent: Table, target: int)
    requires References(child, column, parent) && DoomedAt(db, sc, parent, target)
    ensures target in Targets(db, sc, parent)
  {
  }

  /** The row is not one that the scope itself deletes, by the column that ties it to the scope. */
  predicate Outside(db: Db, sc: Scope, child: Table, id: int) {
    id in Rows(db, child) && !CellIn(At(db, child, id, ScopeColumn(child)), ScopeIds(sc, child))
  }

  lemma KeptPointer(db: Db, sc: Scope, child: Table, id: int, column: Column, parent: Table)
    requires KeptPointsAtDoomed(db, sc, child, id, column, parent)
    ensures Outside(db, sc, child, id) && CellIn(At(db, child, id, column), Targets(db, sc, parent))
  {
    DoomedTarget(db, sc, child, column, parent, At(db, child, id, column).n);
    KeptIsOutside(db, sc, child, id, column, parent);
  }

  /** No table with a foreign key is typed. */
  lemma KeptIsOutside(db: Db, sc: Scope, child: Table, id: int, column: Column, parent: Table)
    requires References(child, column, parent) && id in Rows(db, child) && !DoomedAt(db, sc, child, id)
    ensures Outside(db, sc, child, id)
  {
    assert !Typed(child);
  }

  /** Outside the blind spots the checks close the scope. */
  lemma ChecksCloseScope(db: Db, sc: Scope)
    requires TakesInReferences(db, sc) && !ExternallyReferenced(db, sc) && !BlindSpot(db, sc)
    ensures Closed(db, sc)
  {
    forall child, id, column, parent
      ensures !KeptPointsAtDoomed(db, sc, child, id, column, parent)
    {
      if KeptPointsAtDoomed(db, sc, child, id, column, parent) {
        KeptPointer(db, sc, child, id, column, parent);
        NoOutsidePointer(db, sc, child, id, column, parent);
      }
    }
  }

  lemma NoOutsidePointer(db: Db, sc: Scope, child: Table, id: int, column: Column, parent: Table)
    requires TakesInReferences(db, sc) && !ExternallyReferenced(db, sc) && !BlindSpot(db, sc)
    requires References(child, column, parent) && Outside(db, sc, child, id)
    ensures !CellIn(At(db, child, id, column), Targets(db, sc, parent))
  {
    match child {
      case Components => ComponentOutside(db, sc, id, column, parent);
      case Members => MemberOutside(db, sc, id, column, parent);
      case Feedbacks => FeedbackOutside(db, sc, id, column, parent);
      case Versions => VersionOutside(db, sc, id, column, parent);
      case Forms => FormOutside(db, sc, id, column, parent);
      case _ => OtherOutside(db, sc, child, id, column, parent);
    }
  }

  lemma ComponentOutside(db: Db, sc: Scope, id: int, column: Column, parent: Table)
    requires !UsedByNamedOther(db, Components, ComponentSubFactorId, sc.subFactors, ComboId, sc.versions)
    requires !UsedByNobody(db, Components, ComponentSubFactorId, sc.subFactors, ComboId)
    requires References(Components, column, parent) && Outside(db, sc, Components, id)
    ensures !CellIn(At(db, Components, id, column), Targets(db, sc, parent))
  {
    var combo := At(db, Components, id, ComboId);
    assert !combo.Null? ==> BareNotIn(combo, sc.versions);
  }

  lemma MemberOutside(db: Db, sc: Scope, id: int, column: Column, parent: Table)
    requires !UsedByNamedOther(db, Members, SubFactorId, sc.subFactors, FormId, sc.forms)
    requires !UsedByNobody(db, Members, SubFactorId, sc.subFactors, FormId)
    requires !UsedByOther(db, Members, PoolId, DeletedPools(db, sc), FormId, sc.forms)
    requires References(Members, column, parent) && Outside(db, sc, Members, id)
    ensures !CellIn(At(db, Members, id, column), Targets(db, sc, parent))
  {
    var form := At(db, Members, id, FormId);
    assert !form.Null? ==> BareNotIn(form, sc.forms);
  }

  lemma FeedbackOutside(db: Db, sc: Scope, id: int, column: Column, parent: Table)
    requires sc.versions == {} ==> sc.experiments == {}
    requires !VersionShared(db, sc)
    requires References(Feedbacks, column, parent) && Outside(db, sc, Feedbacks, id)
    ensures !CellIn(At(db, Feedbacks, id, column), Targets(db, sc, parent))
  {
  }

  lemma VersionOutside(db: Db, sc: Scope, id: int, column: Column, parent: Table)
    requires id in Rows(db, Versions) && CellIn(At(db, Versions, id, InitialFormId), sc.forms) ==> id in sc.versions
    requires !UsedOutside(db, Versions, ExperimentId, sc.experiments, sc.versions)
    requires !UsedOutside(db, Versions, BestExperimentId, sc.experiments, sc.versions)
    requires !UsedOutside(db, Versions, PoolId, DeletedPools(db, sc), sc.versions)
    requires References(Versions, column, parent) && Outside(db, sc, Versions, id)
    ensures !CellIn(At(db, Versions, id, column), Targets(db, sc, parent))
  {
    assert id !in sc.versions;
  }

  lemma FormOutside(db: Db, sc: Scope, id: int, column: Column, parent: Table)
    requires !UsedOutside(db, Forms, ExperimentId, sc.experiments, sc.forms)
    requires !UsedOutside(db, Forms, VersionId, sc.versions, sc.forms)
    requires References(Forms, column, parent) && Outside(db, sc, Forms, id)
    ensures !CellIn(At(db, Forms, id, column), Targets(db, sc, parent))
  {
    assert id !in sc.forms;
  }

  lemma OtherOutside(db: Db, sc: Scope, child: Table, id: int, column: Column, parent: Table)
    requires child !in {Components, Members, Feedbacks, Versions, Forms}
    requires References(child, column, parent) && Outside(db, sc, child, id)
    requires child == Metrics && CellIn(At(db, Metrics, id, ExperimentId), sc.experiments) ==> id in sc.metrics
    requires !UsedOutside(db, Experiments, MetricsId, sc.metrics, sc.experiments)
    requires !UsedOutside(db, Registrations, SubFactorId, sc.subFactors, sc.registrations)
    requires !UsedOutside(db, ParentRelations, ParentSubFactorId, sc.subFactors, {})
    ensures !CellIn(At(db, child, id, column), Targets(db, sc, parent))
  {
  }

  /** A blind spot is a row that stays and points into the scope. */
  lemma BlindSpotOpensScope(db: Db, sc: Scope)
    requires Consistent(db) && BlindSpot(db, sc)
    ensures !Closed(db, sc)
  {
    if UsedByNobody(db, Members, SubFactorId, sc.subFactors, FormId) {
      OrphanMemberOpens(db, sc);
    } else if UsedByNobody(db, Components, ComponentSubFactorId, sc.subFactors, ComboId) {
      OrphanComponentOpens(db, sc);
    } else {
      UnlistedPoolOpens(db, sc);
    }
  }

  lemma OrphanMemberOpens(db: Db, sc: Scope)
    requires Consistent(db) && UsedByNobody(db, Members, SubFactorId, sc.subFactors, FormId)
    ensures !Closed(db, sc)
  {
    var m :| m in Rows(db, Members) && CellIn(At(db, Members, m, SubFactorId), sc.subFactors)
      && At(db, Members, m, FormId).Null?;
    OpenAt(db, sc, Members, m, SubFactorId, SubFactors);
  }

  lemma OrphanComponentOpens(db: Db, sc: Scope)
    requires Consistent(db) && UsedByNobody(db, Components, ComponentSubFactorId, sc.subFactors, ComboId)
    ensures !Closed(db, sc)
  {
    var c :| c in Rows(db, Components) && CellIn(At(db, Components, c, ComponentSubFactorId), sc.subFactors)
      && At(db, Components, c, ComboId).Null?;
    OpenAt(db, sc, Components, c, ComponentSubFactorId, SubFactors);
  }

  lemma UnlistedPoolOpens(db: Db, sc: Scope)
    requires Consistent(db)
    requires UsedByOther(db, Members, PoolId, DeletedPools(db, sc), FormId, sc.forms)
             || UsedOutside(db, Versions, PoolId, DeletedPools(db, sc), sc.versions)
    ensures !Closed(db, sc)
  {
    if UsedByOther(db, Members, PoolId, DeletedPools(db, sc), FormId, sc.forms) {
      SharedPoolOpens(db, sc);
    } else {
      OutsideVersionOpens(db, sc);
    }
  }

  lemma SharedPoolOpens(db: Db, sc: Scope)
    requires Consistent(db) && UsedByOther(db, Members, PoolId, DeletedPools(db, sc), FormId, sc.forms)
    ensures !Closed(db, sc)
  {
    var m :| m in Rows(db, Members) && CellIn(At(db, Members, m, PoolId), DeletedPools(db, sc))
      && !CellIn(At(db, Members, m, FormId), sc.forms);
    OpenAt(db, sc, Members, m, PoolId, Pools);
  }

  lemma OutsideVersionOpens(db: Db, sc: Scope)
    requires Consistent(db) && UsedOutside(db, Versions, PoolId, DeletedPools(db, sc), sc.versions)
    ensures !Closed(db, sc)
  {
    var v :| v in Rows(db, Versions) && CellIn(At(db, Versions, v, PoolId), DeletedPools(db, sc))
      && v !in sc.versions;
    OpenAt(db, sc, Versions, v, PoolId, Pools);
  }

  lemma OpenAt(db: Db, sc: Scope, child: Table, id: int, column: Column, parent: Table)
    requires !Dangling(db, child, id, column, parent)
    requires References(child, column, parent) && id in Rows(db, child) && !DoomedAt(db, sc, child, id)
    requires At(db, child, id, column).Int?
    requires At(db, child, id, column).n in Rows(db, parent) ==> DoomedAt(db, sc, parent, At(db, child, id, column).n)
    ensures !Closed(db, sc)
  {
    assert KeptPointsAtDoomed(db, sc, child, id, column, parent);
  }

  /** Main result: for a scope that passed the checks, every one of the twenty-one statements keeps referential
      integrity exactly when no row sits in a blind spot of the checks. */
  lemma IntegrityAtEveryStatement(db: Db, graph: Graph, sc: Scope)
    requires Consistent(db) && sc == ScopeOf(db, graph) && Admissible(db, sc)
    ensures StagesConsistent(db, sc, 0) <==> !BlindSpot(db, sc)
  {
    ScopeTakesInReferences(db, graph, sc);
    if BlindSpot(db, sc) {
      BlindSpotOpensScope(db, sc);
      if StagesConsistent(db, sc, 0) {
        ConsistentStagesMeanClosed(db, sc);
      }
    } else {
      ChecksCloseScope(db, sc);
      ClosedStagesConsistent(db, sc);
    }
  }
}
