/** What `ensure_parent_choices_for_test` creates, `clean_test_graph` removes: the inserts of the preparation in the
    tables of the cleanup, and a later run for their owner. */
module CleanupOfPrepared {
  import opened Schema
  import opened CleanupScope
  import opened CleanupStages
  import opened CleanupResult
  import ParentChoices

  /** Keys from `first` on are not used anywhere: factors are numbered by auto-increment. */
  ghost predicate Unused(db: Db, first: int) {
    (forall f :: f in Rows(db, Factors) ==> f < first)
    && (forall d :: d in Rows(db, Details) && At(db, Details, d, FactorId).Int? ==>
          At(db, Details, d, FactorId).n < first)
    && forall v :: v in Rows(db, Validities) && At(db, Validities, v, FactorId).Int?
                   && At(db, Validities, v, IsSubFactor) == Int(0) ==>
         At(db, Validities, v, FactorId).n < first
  }

  /** Temporary factors `first` to `first + count - 1` for an owner, each related to the chosen sub-factors. */
  datatype Preparation = Preparation(owner: int, first: int, count: nat, chosen: seq<int>) {
    predicate Creates(f: int) {
      first <= f < first + count
    }
  }

  /** A relation row that the preparation inserts. */
  ghost predicate NewRelation(db: Db, r: int, p: Preparation) {
    At(db, FactorRelations, r, FactorId).Int? && At(db, FactorRelations, r, SubFactorId).Int?
    && p.Creates(At(db, FactorRelations, r, FactorId).n) && At(db, FactorRelations, r, SubFactorId).n in p.chosen
  }

  /** The database after the inserts. */
  ghost predicate Inserted(before: Db, after: Db, p: Preparation) {
    (forall table :: table != Factors && table != FactorRelations ==> Rows(after, table) == Rows(before, table))
    && (forall f :: f in Rows(after, Factors) <==> f in Rows(before, Factors) || p.Creates(f))
    && (forall f :: p.Creates(f) ==> IsTestParent(after, f))
    && (forall r :: r in Rows(before, FactorRelations) ==>
          r in Rows(after, FactorRelations) && Rows(after, FactorRelations)[r] == Rows(before, FactorRelations)[r])
    && forall r :: r in Rows(after, FactorRelations) && r !in Rows(before, FactorRelations) ==> NewRelation(after, r, p)
  }

  /** The ownership maps after the preparation, as `EnsureParentChoices` leaves them. */
  ghost predicate Recorded(before: State, after: State, p: Preparation) {
    (forall f :: f in ParentChoices.OwnedOf(after.parentIds, p.owner)
       <==> f in ParentChoices.OwnedOf(before.parentIds, p.owner) || p.Creates(f))
    && forall pair :: pair in ParentChoices.OwnedOf(after.relationPairs, p.owner)
         <==> pair in ParentChoices.OwnedOf(before.relationPairs, p.owner)
              || ParentChoices.IsNewPair(p.first, p.count, p.chosen, pair)
  }

  ghost predicate Prepared(before: State, after: State, p: Preparation) {
    Consistent(before.db) && Unused(before.db, p.first) && p.chosen != []
    && Inserted(before.db, after.db, p) && Recorded(before, after, p)
  }

  /** Every row of `main` is an unchanged row of `db`. */
  ghost predicate Kept(main: Db, db: Db) {
    forall table, id {:trigger Rows(main, table)[id]} :: id in Rows(main, table)
      ==> id in Rows(db, table) && Rows(main, table)[id] == Rows(db, table)[id]
  }

  /** What `EnsureParentChoices` promises about the ownership maps, in terms of the relations before and after. */
  lemma PreparationRecords(
      before: State, after: State, p: Preparation, relations: set<(int, int)>, extended: set<(int, int)>)
    requires p.chosen != [] && forall x :: x in relations ==> x.0 < p.first
    requires forall x :: x in extended <==> x in relations || ParentChoices.IsNewPair(p.first, p.count, p.chosen, x)
    requires after.parentIds == before.parentIds[p.owner :=
               ParentChoices.OwnedOf(before.parentIds, p.owner) + set x | x in extended - relations :: x.0]
    requires after.relationPairs == before.relationPairs[p.owner :=
               ParentChoices.OwnedOf(before.relationPairs, p.owner) + (extended - relations)]
    ensures Recorded(before, after, p)
  {
    var created := set x | x in extended - relations :: x.0;
    forall f
      ensures f in created <==> p.Creates(f)
    {
      if p.Creates(f) {
        assert ParentChoices.IsNewPair(p.first, p.count, p.chosen, (f, p.chosen[0]));
        assert (f, p.chosen[0]) in extended - relations;
      }
    }
    forall pair
      ensures pair in extended - relations <==> ParentChoices.IsNewPair(p.first, p.count, p.chosen, pair)
    {
    }
  }

  // ---- Nothing but its own relations refers to a new parent ----

  lemma MainKeeps(db: Db, graph: Graph)
    ensures Kept(AfterMain(db, graph), db)
  {
    forall table, id | id in Rows(AfterMain(db, graph), table)
      ensures id in Rows(db, table) && Rows(AfterMain(db, graph), table)[id] == Rows(db, table)[id]
    {
      MainContents(db, ScopeOf(db, graph), table, id);
    }
  }

  lemma KeptRow(main: Db, db: Db, table: Table, id: int, column: Column)
    requires Kept(main, db) && id in Rows(main, table)
    ensures id in Rows(db, table) && At(main, table, id, column) == At(db, table, id, column)
  {
    assert Rows(main, table)[id] == Rows(db, table)[id];
  }

  lemma OldReference(before: Db, first: int, table: Table, column: Column, id: int)
    requires Consistent(before) && Unused(before, first) && References(table, column, Factors)
             && id in Rows(before, table)
    requires At(before, table, id, column).Int?
    ensures At(before, table, id, column).n < first
  {
    assert !Dangling(before, table, id, column, Factors);
  }

  lemma Owned(before: State, after: State, p: Preparation, f: int, x: int)
    requires Recorded(before, after, p) && p.Creates(f) && x in p.chosen
    ensures (f, x) in AllPairs(after.relationPairs) && x in OwnedSubFactors(after.relationPairs, f)
  {
    assert ParentChoices.IsNewPair(p.first, p.count, p.chosen, (f, x));
    assert (f, x) in ParentChoices.OwnedOf(after.relationPairs, p.owner);
    assert p.owner in after.relationPairs && (f, x) in after.relationPairs[p.owner];
  }

  /** A relation of a new parent is one of its own. */
  lemma RelationIsOwn(before: State, after: State, p: Preparation, f: int, r: int)
    requires Prepared(before, after, p) && p.Creates(f)
    requires r in Rows(after.db, FactorRelations) && At(after.db, FactorRelations, r, FactorId) == Int(f)
    ensures At(after.db, FactorRelations, r, SubFactorId).Int?
    ensures At(after.db, FactorRelations, r, SubFactorId).n in OwnedSubFactors(after.relationPairs, f)
    ensures (f, At(after.db, FactorRelations, r, SubFactorId).n) in AllPairs(after.relationPairs)
  {
    if r in Rows(before.db, FactorRelations) {
      OldReference(before.db, p.first, FactorRelations, FactorId, r);
    }
    assert NewRelation(after.db, r, p);
    Owned(before, after, p, f, At(after.db, FactorRelations, r, SubFactorId).n);
  }

  lemma SameTable(before: State, after: State, p: Preparation, table: Table)
    requires Prepared(before, after, p) && table in {Details, ThemeRelations, Components, Validities}
    ensures Rows(after.db, table) == Rows(before.db, table)
  {
  }

  lemma OldRowDoesNotUse(before: State, after: State, p: Preparation, f: int, table: Table, column: Column, id: int)
    requires Prepared(before, after, p) && p.Creates(f) && id in Rows(after.db, table)
    requires (table == Details && column == FactorId) || (table == ThemeRelations && column == FactorId)
             || (table == Components && column == ComponentFactorId)
             || (table == Validities && column == FactorId && At(after.db, table, id, IsSubFactor) == Int(0))
    ensures At(after.db, table, id, column) != Int(f)
  {
    SameTable(before, after, p, table);
    if At(before.db, table, id, column).Int? {
      if table == ThemeRelations || table == Components {
        OldReference(before.db, p.first, table, column, id);
      }
      assert At(before.db, table, id, column).n < p.first;
    }
  }

  lemma NotUsedBy(before: State, after: State, p: Preparation, main: Db, f: int, table: Table, column: Column)
    requires Prepared(before, after, p) && Kept(main, after.db) && p.Creates(f)
    requires (table == Details && column == FactorId) || (table == ThemeRelations && column == FactorId)
             || (table == Components && column == ComponentFactorId)
    ensures !UsedOutside(main, table, column, {f}, {})
  {
    forall id | id in Rows(main, table)
      ensures !CellIn(At(main, table, id, column), {f})
    {
      KeptRow(main, after.db, table, id, column);
      OldRowDoesNotUse(before, after, p, f, table, column, id);
    }
  }

  lemma NoValidity(before: State, after: State, p: Preparation, main: Db, f: int, v: int)
    requires Prepared(before, after, p) && Kept(main, after.db) && p.Creates(f)
    requires v in Rows(main, Validities) && At(main, Validities, v, IsSubFactor) == Int(0)
    ensures At(main, Validities, v, FactorId) != Int(f)
  {
    KeptRow(main, after.db, Validities, v, FactorId);
    KeptRow(main, after.db, Validities, v, IsSubFactor);
    OldRowDoesNotUse(before, after, p, f, Validities, FactorId, v);
  }

  lemma OnlyOwnRelations(before: State, after: State, p: Preparation, main: Db, f: int)
    requires Prepared(before, after, p) && Kept(main, after.db) && p.Creates(f)
    ensures !UsedByNamedOther(
               main, FactorRelations, FactorId, {f}, SubFactorId, OwnedSubFactors(after.relationPairs, f))
  {
    forall r | r in Rows(main, FactorRelations) && CellIn(At(main, FactorRelations, r, FactorId), {f})
      ensures !BareNotIn(At(main, FactorRelations, r, SubFactorId), OwnedSubFactors(after.relationPairs, f))
    {
      OwnRelation(before, after, p, main, f, r);
    }
  }

  lemma OwnRelation(before: State, after: State, p: Preparation, main: Db, f: int, r: int)
    requires Prepared(before, after, p) && Kept(main, after.db) && p.Creates(f)
    requires r in Rows(main, FactorRelations) && At(main, FactorRelations, r, FactorId) == Int(f)
    ensures CellIn(At(main, FactorRelations, r, SubFactorId), OwnedSubFactors(after.relationPairs, f))
  {
    KeptRow(main, after.db, FactorRelations, r, FactorId);
    KeptRow(main, after.db, FactorRelations, r, SubFactorId);
    RelationIsOwn(before, after, p, f, r);
  }

  lemma NewParentRemovable(before: State, after: State, p: Preparation, main: Db, f: int)
    requires Prepared(before, after, p) && Kept(main, after.db) && p.Creates(f) && IsTestParent(main, f)
    ensures Removable(main, after.relationPairs, f)
  {
    NotUsedBy(before, after, p, main, f, Details, FactorId);
    NotUsedBy(before, after, p, main, f, ThemeRelations, FactorId);
    NotUsedBy(before, after, p, main, f, Components, ComponentFactorId);
    OnlyOwnRelations(before, after, p, main, f);
    forall v | v in Rows(main, Validities) && At(main, Validities, v, IsSubFactor) == Int(0)
      ensures At(main, Validities, v, FactorId) != Int(f)
    {
      NoValidity(before, after, p, main, f, v);
    }
  }

  // ---- The run ----

  lemma FactorStays(db: Db, graph: Graph, f: int)
    requires f in Rows(db, Factors)
    ensures f in Rows(AfterMain(db, graph), Factors)
  {
    MainContents(db, ScopeOf(db, graph), Factors, f);
    NeverDoomed(db, ScopeOf(db, graph), Factors, f);
  }

  lemma StillTestParent(main: Db, db: Db, f: int)
    requires IsTestParent(db, f) && Kept(main, db) && f in Rows(main, Factors)
    ensures IsTestParent(main, f)
  {
    KeptRow(main, db, Factors, f, FactorName);
  }

  lemma RemovableCandidate(st: State, graph: Graph, owner: int, f: int)
    requires owner in Owners(graph) && f in ParentChoices.OwnedOf(st.parentIds, owner)
    requires Removable(AfterMain(st.db, graph), st.relationPairs, f)
    ensures f in RemovedBy(st, graph) && f in CleanedBy(st, graph)
  {
    assert owner in st.parentIds && f in st.parentIds[owner];
    assert f in Candidates(st.parentIds, Owners(graph));
  }

  lemma NewParentGoes(before: State, after: State, p: Preparation, graph: Graph, f: int)
    requires Prepared(before, after, p) && p.Creates(f) && p.owner in Owners(graph)
    ensures f in RemovedBy(after, graph) && f in CleanedBy(after, graph)
  {
    MainKeeps(after.db, graph);
    FactorStays(after.db, graph, f);
    StillTestParent(AfterMain(after.db, graph), after.db, f);
    NewParentRemovable(before, after, p, AfterMain(after.db, graph), f);
    RemovableCandidate(after, graph, p.owner, f);
  }

  lemma RemovedFactorIsGone(st: State, graph: Graph, f: int)
    requires f in RemovedBy(st, graph)
    ensures f !in Rows(FinalDb(st, graph), Factors)
  {
    RunRemovesExactlyItsOwn(st, graph, Factors, f);
  }

  lemma OwnPairIsGone(st: State, graph: Graph, f: int, r: int)
    requires f in RemovedBy(st, graph) && r in Rows(st.db, FactorRelations)
    requires At(st.db, FactorRelations, r, FactorId) == Int(f) && At(st.db, FactorRelations, r, SubFactorId).Int?
    requires (f, At(st.db, FactorRelations, r, SubFactorId).n) in AllPairs(st.relationPairs)
    ensures r !in Rows(FinalDb(st, graph), FactorRelations)
  {
    RunRemovesExactlyItsOwn(st, graph, FactorRelations, r);
    assert (f, At(st.db, FactorRelations, r, SubFactorId).n) in PairsOf(st.relationPairs, RemovedBy(st, graph));
  }

  lemma OwnRelationGoes(before: State, after: State, p: Preparation, graph: Graph, f: int, r: int)
    requires Prepared(before, after, p) && p.Creates(f) && f in RemovedBy(after, graph)
    requires r in Rows(after.db, FactorRelations) && At(after.db, FactorRelations, r, FactorId) == Int(f)
    ensures r !in Rows(FinalDb(after, graph), FactorRelations)
  {
    RelationIsOwn(before, after, p, f, r);
    OwnPairIsGone(after, graph, f, r);
  }

  lemma NoLongerTracked(st: State, graph: Graph, owner: int, f: int)
    requires RunsThrough(st, graph) && owner in Owners(graph) && f in CleanedBy(st, graph)
    ensures f !in ParentChoices.OwnedOf(AfterRun(st, graph).parentIds, owner)
  {
    AfterRunThrough(st, graph);
  }

  /** A run for the owner removes every parent of the preparation with its relations, and stops tracking it. */
  lemma PreparedParentsAreRemoved(before: State, after: State, p: Preparation, graph: Graph, f: int)
    requires Prepared(before, after, p) && p.Creates(f) && p.owner in Owners(graph) && RunsThrough(after, graph)
    ensures f !in Rows(AfterRun(after, graph).db, Factors)
    ensures forall r :: r in Rows(after.db, FactorRelations) && At(after.db, FactorRelations, r, FactorId) == Int(f)
              ==> r !in Rows(AfterRun(after, graph).db, FactorRelations)
    ensures f !in ParentChoices.OwnedOf(AfterRun(after, graph).parentIds, p.owner)
  {
    NewParentGoes(before, after, p, graph, f);
    AfterRunThrough(after, graph);
    RemovedFactorIsGone(after, graph, f);
    NoLongerTracked(after, graph, p.owner, f);
    forall r | r in Rows(after.db, FactorRelations) && At(after.db, FactorRelations, r, FactorId) == Int(f)
      ensures r !in Rows(FinalDb(after, graph), FactorRelations)
    {
      OwnRelationGoes(before, after, p, graph, f, r);
    }
  }
}
