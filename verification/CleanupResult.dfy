/** What a completed cleanup run leaves behind, as a function of the state before it, and the laws of that function:
    integrity, frame, sessions, idempotence and recovery after a lost acknowledgement. */
module CleanupResult {
  import opened Schema
  import opened CleanupScope
  import opened CleanupStages

  const TEST_PARENT_FACTOR_PREFIX := "__questtest_unrelated_parent__"

  /** Owner (form or session) to the temporary parent factors created for it. */
  type ParentIds = map<int, set<int>>

  /** Owner to the (parent factor, sub-factor) relations created for it. */
  type RelationPairs = map<int, set<(int, int)>>

  /** The database and the two in-memory ownership maps. */
  datatype State = State(db: Db, parentIds: ParentIds, relationPairs: RelationPairs)

  function AllPairs(pairs: RelationPairs): set<(int, int)> {
    set owner, p | owner in pairs && p in pairs[owner] :: p
  }

  function OwnedSubFactors(pairs: RelationPairs, f: int): set<int> {
    set p | p in AllPairs(pairs) && p.0 == f :: p.1
  }

  function Candidates(ids: ParentIds, owners: set<int>): set<int> {
    set owner, f | owner in owners && owner in ids && f in ids[owner] :: f
  }

  predicate IsTestParent(db: Db, f: int) {
    f in Rows(db, Factors) && TEST_PARENT_FACTOR_PREFIX <= TextOr(At(db, Factors, f, FactorName))
  }

  /** The reference query of one temporary parent factor. */
  predicate ParentReferenced(db: Db, f: int, owned: set<int>) {
    || UsedOutside(db, Details, FactorId, {f}, {})
    || UsedByNamedOther(db, FactorRelations, FactorId, {f}, SubFactorId, owned)
    || UsedOutside(db, ThemeRelations, FactorId, {f}, {})
    || UsedOutside(db, Components, ComponentFactorId, {f}, {})
    || (exists v :: v in Rows(db, Validities) && At(db, Validities, v, FactorId) == Int(f)
                    && At(db, Validities, v, IsSubFactor) == Int(0))
  }

  predicate Removable(db: Db, pairs: RelationPairs, f: int) {
    IsTestParent(db, f) && !ParentReferenced(db, f, OwnedSubFactors(pairs, f))
  }

  /** Temporary parents that the run deletes. */
  function RemovedParents(db: Db, pairs: RelationPairs, candidates: set<int>): set<int> {
    set f | f in candidates && Removable(db, pairs, f)
  }

  /** Temporary parents that the run stops tracking: deleted now, or no longer present as such. */
  function CleanedParents(db: Db, pairs: RelationPairs, candidates: set<int>): set<int> {
    set f | f in candidates && (!IsTestParent(db, f) || Removable(db, pairs, f))
  }

  /** Deleting parent factors and relation pairs. */
  predicate Dropped(factors: set<int>, pairs: set<(int, int)>, table: Table, id: int, row: Row) {
    || (table == Factors && id in factors)
    || (table == FactorRelations && Cell(id, row, FactorId).Int? && Cell(id, row, SubFactorId).Int?
        && (Cell(id, row, FactorId).n, Cell(id, row, SubFactorId).n) in pairs)
  }

  function DropRows(factors: set<int>, pairs: set<(int, int)>, table: Table, rows: map<int, Row>): map<int, Row> {
    map id | id in rows && !Dropped(factors, pairs, table, id, rows[id]) :: rows[id]
  }

  function Drop(db: Db, factors: set<int>, pairs: set<(int, int)>): Db {
    map table | table in db :: DropRows(factors, pairs, table, db[table])
  }

  function PairsOf(pairs: RelationPairs, factors: set<int>): set<(int, int)> {
    set p | p in AllPairs(pairs) && p.0 in factors
  }

  /** A relation of a removed parent without a sub-factor: no check sees it and no statement deletes it. */
  predicate ParentBlindSpot(db: Db, removed: set<int>) {
    UsedByNobody(db, FactorRelations, FactorId, removed, SubFactorId)
  }

  /** Sessions of the graph all of whose forms are removed. */
  function CleanableSessions(db: Db, graph: Graph, removedForms: set<int>): set<int> {
    set session | session in graph
      && forall form :: form in Rows(db, Forms) && At(db, Forms, form, SessionId) == Int(session) ==>
           form in removedForms
  }

  function DropSessions(db: Db, sessions: set<int>): Db {
    Exec(Exec(db, Delete(Messages, SessionId, sessions, false)), Delete(Sessions, Id, sessions, false))
  }

  /** After the twenty-one statements. */
  function AfterMain(db: Db, graph: Graph): Db {
    Stage(db, ScopeOf(db, graph), MAIN_STATEMENTS)
  }

  function RemovedBy(st: State, graph: Graph): set<int> {
    RemovedParents(AfterMain(st.db, graph), st.relationPairs, Candidates(st.parentIds, Owners(graph)))
  }

  function CleanedBy(st: State, graph: Graph): set<int> {
    CleanedParents(AfterMain(st.db, graph), st.relationPairs, Candidates(st.parentIds, Owners(graph)))
  }

  function SessionsBy(st: State, graph: Graph): set<int> {
    CleanableSessions(st.db, graph, OwnedForms(st.db, graph))
  }

  function FinalDb(st: State, graph: Graph): Db {
    DropSessions(
      Drop(AfterMain(st.db, graph), RemovedBy(st, graph), PairsOf(st.relationPairs, RemovedBy(st, graph))),
      SessionsBy(st, graph))
  }

  function PruneIds(ids: ParentIds, owners: set<int>, cleaned: set<int>): ParentIds {
    map o | o in ids && (o in owners ==> ids[o] - cleaned != {}) :: if o in owners then ids[o] - cleaned else ids[o]
  }

  function WithoutParents(pairs: set<(int, int)>, cleaned: set<int>): set<(int, int)> {
    set p | p in pairs && p.0 !in cleaned
  }

  function PrunePairs(pairs: RelationPairs, owners: set<int>, cleaned: set<int>): RelationPairs {
    map o | o in pairs && (o in owners ==> WithoutParents(pairs[o], cleaned) != {}) ::
      if o in owners then WithoutParents(pairs[o], cleaned) else pairs[o]
  }

  /** The run deletes: nothing refuses and no blind spot makes the database refuse. */
  predicate RunsThrough(st: State, graph: Graph) {
    && SingleOwner(graph) && graph != map[]
    && OwnershipConfirmed(st.db, graph)
    && Admissible(st.db, ScopeOf(st.db, graph))
    && !BlindSpot(st.db, ScopeOf(st.db, graph))
    && !ParentBlindSpot(AfterMain(st.db, graph), RemovedBy(st, graph))
  }

  /** The state after an undisturbed run. */
  function AfterRun(st: State, graph: Graph): State {
    if RunsThrough(st, graph) then
      State(FinalDb(st, graph),
            PruneIds(st.parentIds, Owners(graph), CleanedBy(st, graph)),
            PrunePairs(st.relationPairs, Owners(graph), CleanedBy(st, graph)))
    else st
  }

  lemma AfterRunThrough(st: State, graph: Graph)
    requires RunsThrough(st, graph)
    ensures AfterRun(st, graph).db == FinalDb(st, graph)
    ensures AfterRun(st, graph).parentIds == PruneIds(st.parentIds, Owners(graph), CleanedBy(st, graph))
  {
  }

  // ---- Contents of the final database ----

  /** Everything a run deletes. */
  predicate Removed(st: State, graph: Graph, table: Table, id: int, row: Row) {
    || Doomed(ScopeOf(st.db, graph), table, id, row)
    || Dropped(RemovedBy(st, graph), PairsOf(st.relationPairs, RemovedBy(st, graph)), table, id, row)
    || (table == Messages && CellIn(Cell(id, row, SessionId), SessionsBy(st, graph)))
    || (table == Sessions && id in SessionsBy(st, graph))
  }

  lemma DropContents(db: Db, factors: set<int>, pairs: set<(int, int)>, table: Table, id: int)
    ensures id in Rows(Drop(db, factors, pairs), table)
            <==> id in Rows(db, table) && !Dropped(factors, pairs, table, id, Rows(db, table)[id])
    ensures id in Rows(Drop(db, factors, pairs), table) ==>
              Rows(Drop(db, factors, pairs), table)[id] == Rows(db, table)[id]
  {
  }

  lemma ExecContents(db: Db, s: Statement, table: Table, id: int)
    requires !s.Clear?
    ensures id in Rows(Exec(db, s), table)
            <==> id in Rows(db, table) && !(table == Target(s) && Matches(s, id, Rows(db, table)[id]))
    ensures id in Rows(Exec(db, s), table) ==> Rows(Exec(db, s), table)[id] == Rows(db, table)[id]
  {
  }

  lemma DropSessionsContents(db: Db, sessions: set<int>, table: Table, id: int)
    ensures id in Rows(DropSessions(db, sessions), table)
            <==> id in Rows(db, table)
                 && !(table == Messages && CellIn(At(db, Messages, id, SessionId), sessions))
                 && !(table == Sessions && id in sessions)
    ensures id in Rows(DropSessions(db, sessions), table) ==>
              Rows(DropSessions(db, sessions), table)[id] == Rows(db, table)[id]
  {
    var first := Delete(Messages, SessionId, sessions, false);
    ExecContents(db, first, table, id);
    ExecContents(Exec(db, first), Delete(Sessions, Id, sessions, false), table, id);
  }

  /** A kept row is kept as it was: only doomed rows had pointers cleared. */
  lemma MainContents(db: Db, sc: Scope, table: Table, id: int)
    ensures id in Rows(Stage(db, sc, MAIN_STATEMENTS), table) <==> id in Rows(db, table) && !DoomedAt(db, sc, table, id)
    ensures id in Rows(Stage(db, sc, MAIN_STATEMENTS), table) ==>
              Rows(Stage(db, sc, MAIN_STATEMENTS), table)[id] == Rows(db, table)[id]
  {
    StageContents(db, sc, MAIN_STATEMENTS, table, id);
    if id in Rows(db, table) && !DoomedAt(db, sc, table, id) {
      StageKeepsRow(db, sc, MAIN_STATEMENTS, table, id);
    }
    DeletedInTime(table);
    if DeletedAt(table) == NEVER {
      NeverDoomed(db, sc, table, id);
    }
  }

  /** Main result, deletion and frame: a run removes exactly the rows of its closure, its unreferenced temporary
      parents with their own relations, and its emptied sessions; every other row is untouched. */
  lemma RunRemovesExactlyItsOwn(st: State, graph: Graph, table: Table, id: int)
    ensures id in Rows(FinalDb(st, graph), table)
            <==> id in Rows(st.db, table) && !Removed(st, graph, table, id, Rows(st.db, table)[id])
    ensures id in Rows(FinalDb(st, graph), table) ==>
              Rows(FinalDb(st, graph), table)[id] == Rows(st.db, table)[id]
  {
    var main, removed := AfterMain(st.db, graph), RemovedBy(st, graph);
    var pairs := PairsOf(st.relationPairs, removed);
    MainContents(st.db, ScopeOf(st.db, graph), table, id);
    DropContents(main, removed, pairs, table, id);
    DropSessionsContents(Drop(main, removed, pairs), SessionsBy(st, graph), table, id);
  }

  lemma DoomedForm(sc: Scope, form: int, row: Row)
    ensures Doomed(sc, Forms, form, row) <==> form in sc.forms
  {
  }

  lemma RemovedForm(st: State, graph: Graph, form: int)
    requires form in Rows(st.db, Forms)
    ensures Removed(st, graph, Forms, form, Rows(st.db, Forms)[form]) <==> form in OwnedForms(st.db, graph)
  {
    DoomedForm(ScopeOf(st.db, graph), form, Rows(st.db, Forms)[form]);
  }

  lemma FinalForms(st: State, graph: Graph, form: int)
    ensures form in Rows(FinalDb(st, graph), Forms) <==> form in Rows(st.db, Forms) && form !in OwnedForms(st.db, graph)
    ensures form in Rows(FinalDb(st, graph), Forms) ==>
              At(FinalDb(st, graph), Forms, form, SessionId) == At(st.db, Forms, form, SessionId)
  {
    RunRemovesExactlyItsOwn(st, graph, Forms, form);
    if form in Rows(st.db, Forms) {
      RemovedForm(st, graph, form);
    }
  }

  /** No owned form survives. */
  lemma OwnedFormsGo(st: State, graph: Graph, form: int)
    requires form in FormIds(graph)
    ensures form !in Rows(FinalDb(st, graph), Forms)
  {
    FinalForms(st, graph, form);
  }

  /** A session goes only with the last of its forms. */
  lemma SessionsGoLast(st: State, graph: Graph, session: int, form: int)
    requires session in Rows(st.db, Sessions) && session !in Rows(FinalDb(st, graph), Sessions)
    requires form in Rows(FinalDb(st, graph), Forms)
    ensures session in graph && At(FinalDb(st, graph), Forms, form, SessionId) != Int(session)
  {
    RemovedSession(st, graph, session);
    FinalForms(st, graph, form);
  }

  lemma SessionUntilLast(db: Db, sc: Scope, factors: set<int>, pairs: set<(int, int)>, session: int)
    requires session in Rows(db, Sessions)
    ensures session in Rows(Drop(Stage(db, sc, MAIN_STATEMENTS), factors, pairs), Sessions)
  {
    NeverDoomed(db, sc, Sessions, session);
    MainContents(db, sc, Sessions, session);
    DropContents(Stage(db, sc, MAIN_STATEMENTS), factors, pairs, Sessions, session);
  }

  lemma RemovedSession(st: State, graph: Graph, session: int)
    requires session in Rows(st.db, Sessions)
    ensures session in Rows(FinalDb(st, graph), Sessions) <==> session !in SessionsBy(st, graph)
  {
    var main, removed := AfterMain(st.db, graph), RemovedBy(st, graph);
    var pairs := PairsOf(st.relationPairs, removed);
    SessionUntilLast(st.db, ScopeOf(st.db, graph), removed, pairs, session);
    DropSessionsContents(Drop(main, removed, pairs), SessionsBy(st, graph), Sessions, session);
  }

  lemma TypedRowNotRemoved(st: State, graph: Graph, table: Table, id: int, row: Row)
    requires Typed(table) && Cell(id, row, IsSubFactor) == Int(0)
    ensures !Removed(st, graph, table, id, row)
  {
    assert table !in {Factors, FactorRelations, Messages, Sessions};
    TypedRowNotDoomed(ScopeOf(st.db, graph), table, id, row);
  }

  lemma TypedRowNotDoomed(sc: Scope, table: Table, id: int, row: Row)
    requires Typed(table) && Cell(id, row, IsSubFactor) == Int(0)
    ensures !Doomed(sc, table, id, row)
  {
  }

  /** A parent factor that shares its number with a generated sub-factor keeps its typed rows. */
  lemma TypedRowsOfParentsKept(st: State, graph: Graph, table: Table, id: int)
    requires Typed(table) && id in Rows(st.db, table) && At(st.db, table, id, IsSubFactor) == Int(0)
    ensures id in Rows(FinalDb(st, graph), table) && Rows(FinalDb(st, graph), table)[id] == Rows(st.db, table)[id]
  {
    TypedRowNotRemoved(st, graph, table, id, Rows(st.db, table)[id]);
    RunRemovesExactlyItsOwn(st, graph, table, id);
  }

  // ---- Integrity after the two tail deletions ----

  /** Dropping removable parents with their own relations keeps integrity, unless a relation has no sub-factor. */
  lemma DropKeepsIntegrity(db: Db, relations: RelationPairs, factors: set<int>)
    requires Consistent(db) && forall f :: f in factors ==> Removable(db, relations, f)
    ensures Consistent(Drop(db, factors, PairsOf(relations, factors))) <==> !ParentBlindSpot(db, factors)
  {
    if ParentBlindSpot(db, factors) {
      var r :| r in Rows(db, FactorRelations) && CellIn(At(db, FactorRelations, r, FactorId), factors)
        && At(db, FactorRelations, r, SubFactorId).Null?;
      DropDangles(db, relations, factors, r);
    } else {
      forall child, id, column, parent
        ensures !Dangling(Drop(db, factors, PairsOf(relations, factors)), child, id, column, parent)
      {
        assert !Dangling(db, child, id, column, parent);
        DropNeverDangles(db, relations, factors, child, id, column, parent);
      }
    }
  }

  lemma DropDangles(db: Db, relations: RelationPairs, factors: set<int>, r: int)
    requires r in Rows(db, FactorRelations) && CellIn(At(db, FactorRelations, r, FactorId), factors)
    requires At(db, FactorRelations, r, SubFactorId).Null?
    ensures !Consistent(Drop(db, factors, PairsOf(relations, factors)))
  {
    var pairs := PairsOf(relations, factors);
    DropContents(db, factors, pairs, FactorRelations, r);
    DropContents(db, factors, pairs, Factors, At(db, FactorRelations, r, FactorId).n);
    assert Dangling(Drop(db, factors, pairs), FactorRelations, r, FactorId, Factors);
  }

  /** A drop leaves a pointer dangling only by deleting the parent factor that it names. */
  lemma TargetDropped(db: Db, factors: set<int>, pairs: set<(int, int)>,
                      child: Table, id: int, column: Column, parent: Table)
    requires !Dangling(db, child, id, column, parent) && Dangling(Drop(db, factors, pairs), child, id, column, parent)
    ensures id in Rows(db, child) && !Dropped(factors, pairs, child, id, Rows(db, child)[id])
    ensures References(child, column, parent) && parent == Factors && CellIn(At(db, child, id, column), factors)
  {
    var after := Drop(db, factors, pairs);
    DropContents(db, factors, pairs, child, id);
    DropContents(db, factors, pairs, parent, At(after, child, id, column).n);
    NoReferenceIntoRelations(child, column, parent);
  }

  lemma DropNeverDangles(db: Db, relations: RelationPairs, factors: set<int>,
                         child: Table, id: int, column: Column, parent: Table)
    requires !ParentBlindSpot(db, factors) && forall f :: f in factors ==> Removable(db, relations, f)
    requires !Dangling(db, child, id, column, parent)
    ensures !Dangling(Drop(db, factors, PairsOf(relations, factors)), child, id, column, parent)
  {
    var pairs := PairsOf(relations, factors);
    if Dangling(Drop(db, factors, pairs), child, id, column, parent) {
      TargetDropped(db, factors, pairs, child, id, column, parent);
      NobodyPointsAtRemovable(db, relations, factors, child, id, column);
    }
  }

  lemma NoReferenceIntoRelations(child: Table, column: Column, parent: Table)
    requires References(child, column, parent)
    ensures parent != FactorRelations && parent != Messages
    ensures parent == Factors ==> (child == FactorRelations && column == FactorId)
                                  || (child == Components && column == ComponentFactorId)
                                  || (child == ThemeRelations && column == FactorId)
    ensures parent == Sessions ==> column == SessionId && (child == Forms || child == Messages)
  {
  }

  /** Whoever points at a removed parent is one of its own relations. */
  lemma NobodyPointsAtRemovable(db: Db, relations: RelationPairs, factors: set<int>, child: Table, id: int,
      column: Column)
    requires References(child, column, Factors) && forall f :: f in factors ==> Removable(db, relations, f)
    requires !ParentBlindSpot(db, factors)
    requires id in Rows(db, child) && CellIn(At(db, child, id, column), factors)
    ensures Dropped(factors, PairsOf(relations, factors), child, id, Rows(db, child)[id])
  {
    NoReferenceIntoRelations(child, column, Factors);
    var f := At(db, child, id, column).n;
    assert !ParentReferenced(db, f, OwnedSubFactors(relations, f));
    assert CellIn(At(db, child, id, column), {f});
    if child == FactorRelations {
      var sub := At(db, FactorRelations, id, SubFactorId);
      assert !BareNotIn(sub, OwnedSubFactors(relations, f));
    }
  }

  /** A delete dangles nothing if no row that stays points at a row that goes. */
  lemma DeleteKeepsIntegrity(db: Db, s: Statement)
    requires Consistent(db) && !s.Clear?
    requires forall child, id, column {:trigger At(db, child, id, column), References(child, column, Target(s))} ::
               References(child, column, Target(s)) && id in Rows(db, child) && At(db, child, id, column).Int?
               && !(child == Target(s) && Matches(s, id, Rows(db, child)[id]))
               && At(db, child, id, column).n in Rows(db, Target(s)) ==>
                 !Matches(s, At(db, child, id, column).n, Rows(db, Target(s))[At(db, child, id, column).n])
    ensures Consistent(Exec(db, s))
  {
    forall child, id, column, parent
      ensures !Dangling(Exec(db, s), child, id, column, parent)
    {
      assert !Dangling(db, child, id, column, parent);
      if Dangling(Exec(db, s), child, id, column, parent) {
        ExecContents(db, s, child, id);
        ExecContents(db, s, parent, At(db, child, id, column).n);
      }
    }
  }

  /** Nothing references a message. */
  lemma DeleteMessagesKeepsIntegrity(db: Db, sessions: set<int>)
    requires Consistent(db)
    ensures Consistent(Exec(db, Delete(Messages, SessionId, sessions, false)))
  {
    assert forall child, column :: !References(child, column, Messages);
    DeleteKeepsIntegrity(db, Delete(Messages, SessionId, sessions, false));
  }

  lemma DropSessionsKeepsIntegrity(db: Db, sessions: set<int>)
    requires Consistent(db) && !UsedOutside(db, Forms, SessionId, sessions, {})
    ensures Consistent(Exec(db, Delete(Messages, SessionId, sessions, false)))
    ensures Consistent(DropSessions(db, sessions))
  {
    DeleteMessagesKeepsIntegrity(db, sessions);
    var middle := Exec(db, Delete(Messages, SessionId, sessions, false));
    forall child, id, column | References(child, column, Sessions) && id in Rows(middle, child)
      ensures !CellIn(At(middle, child, id, column), sessions)
    {
      NoReferenceIntoRelations(child, column, Sessions);
      ExecContents(db, Delete(Messages, SessionId, sessions, false), child, id);
    }
    DeleteKeepsIntegrity(middle, Delete(Sessions, Id, sessions, false));
  }
}
