/** The cleanup as it runs: one database transaction whose statements may fail, a commit, a close, and the update of
    the in-memory ownership maps. */
module CleanupRun {
  import opened Outcomes
  import opened Schema
  import opened CleanupScope
  import opened CleanupQuery
  import opened CleanupStages
  import opened CleanupResult

  datatype Error =
    | NotTestEnvironment
    | FormInTwoSessions
    | ForeignForm          // a form's session is not the one that claims it
    | ReferenceRestricted  // the database refuses to leave a dangling reference
    | DriverFailure
    | CloseFailure

  /** How the run ended: everything deleted, everything kept, or an exception. */
  datatype Ending = Cleaned | Kept | Raised(error: Error)

  /** A commit takes effect and says so, fails, or takes effect while its acknowledgement is lost. */
  datatype Commit = Acknowledged | Refused | Unacknowledged

  /** Faults of the surroundings: the number of the database call that fails (negative for none), what becomes of the
      commit, and whether the close fails. */
  datatype Faults = Faults(call: int, commit: Commit, close: bool)

  predicate NoDangling(db: Db)
    ensures NoDangling(db) <==> Consistent(db)
  {
    forall child: Table :: forall id | id in Rows(db, child) ::
      forall column: Column, parent: Table :: !Dangling(db, child, id, column, parent)
  }

  class Transaction {
    var work: Db
    var calls: nat
    const fault: int

    constructor (db: Db, fault: int)
      ensures work == db && this.fault == fault
    {
      work := db;
      calls := 0;
      this.fault := fault;
    }

    /** The exception comes from a faulty call, not from the database's own rules. */
    predicate Disturbed(r: Outcome<Error>) {
      fault >= 0 && r == Fail(DriverFailure)
    }

    /** Why a call or a sequence of calls fails: a fault, or a statement that would break integrity. */
    ghost predicate FailsFor(r: Outcome<Error>, breaks: bool) {
      Disturbed(r) || (r == Fail(ReferenceRestricted) && breaks)
    }

    /** One round trip to the database. */
    method Call() returns (r: Outcome<Error>)
      modifies this`calls
      ensures r.Fail? ==> Disturbed(r)
    {
      calls := calls + 1;
      r := if calls - 1 == fault then Fail(DriverFailure) else Pass;
    }

    /** A write: the database applies it unless a foreign key would dangle. */
    method Execute(s: Statement) returns (r: Outcome<Error>)
      modifies this
      ensures r.Pass? ==> work == Exec(old(work), s) && Consistent(work)
      ensures r.Fail? ==> work == old(work)
      ensures r.Fail? ==> FailsFor(r, !Consistent(Exec(old(work), s)))
    {
      r := Call();
      if r.Pass? {
        if NoDangling(Exec(work, s)) {
          work := Exec(work, s);
        } else {
          r := Fail(ReferenceRestricted);
        }
      }
    }

    /** `_delete_in`: nothing is sent for an empty value list. */
    method DeleteIn(table: Table, column: Column, values: set<int>, subFactorsOnly: bool) returns (r: Outcome<Error>)
      requires Consistent(work)
      modifies this
      ensures r.Pass? ==> work == Exec(old(work), Delete(table, column, values, subFactorsOnly)) && Consistent(work)
      ensures r.Fail? ==> work == old(work)
      ensures r.Fail? ==> FailsFor(r, !Consistent(Exec(old(work), Delete(table, column, values, subFactorsOnly))))
    {
      if values == {} {
        EmptyStatement(work, Delete(table, column, values, subFactorsOnly));
        return Pass;
      }
      r := Execute(Delete(table, column, values, subFactorsOnly));
    }

    /** The UPDATE counterpart. */
    method ClearIn(table: Table, columns: set<Column>, ids: set<int>) returns (r: Outcome<Error>)
      requires Consistent(work)
      modifies this
      ensures r.Pass? ==> work == Exec(old(work), Clear(table, columns, ids)) && Consistent(work)
      ensures r.Fail? ==> work == old(work)
      ensures r.Fail? ==> FailsFor(r, !Consistent(Exec(old(work), Clear(table, columns, ids))))
    {
      if ids == {} {
        EmptyStatement(work, Clear(table, columns, ids));
        return Pass;
      }
      r := Execute(Clear(table, columns, ids));
    }
  }

  lemma EmptyStatement(db: Db, s: Statement)
    requires !s.DeletePair? && s.values == {}
    ensures Exec(db, s) == db
  {
    if s.table in db {
      assert ExecRows(s, db[s.table]) == db[s.table];
    }
  }

  /** Statements `i` to `j - 1`, one after the other. */
  ghost function Chain(db: Db, sc: Scope, i: nat, j: nat): Db
    requires j <= MAIN_STATEMENTS
    decreases j - i
  {
    if i >= j then db else Chain(Exec(db, MainStatement(sc, i)), sc, i + 1, j)
  }

  /** Integrity holds after each of them. */
  ghost predicate ChainConsistent(db: Db, sc: Scope, i: nat, j: nat)
    requires j <= MAIN_STATEMENTS
    decreases j - i
  {
    i < j ==>
      Consistent(Exec(db, MainStatement(sc, i))) && ChainConsistent(Exec(db, MainStatement(sc, i)), sc, i + 1, j)
  }

  /** The first statement of a chain and the rest of it. */
  lemma ChainFront(db: Db, sc: Scope, i: nat, j: nat, s: Statement)
    requires i < j <= MAIN_STATEMENTS && s == MainStatement(sc, i)
    ensures Chain(db, sc, i, j) == Chain(Exec(db, s), sc, i + 1, j)
    ensures ChainConsistent(db, sc, i, j) <==> Consistent(Exec(db, s)) && ChainConsistent(Exec(db, s), sc, i + 1, j)
  {
  }

  /** Registrations and the typed results of the generated sub-factors; the run headers stay as audit records. */
  method DeleteResults(tx: Transaction, sc: Scope) returns (r: Outcome<Error>)
    requires Consistent(tx.work)
    modifies tx
    ensures r.Pass? ==> tx.work == Chain(old(tx.work), sc, 0, 6) && ChainConsistent(old(tx.work), sc, 0, 6)
    ensures r.Pass? ==> Consistent(tx.work)
    ensures r.Fail? ==> tx.FailsFor(r, !ChainConsistent(old(tx.work), sc, 0, 6))
  {
    r := Pass;
    ChainFront(tx.work, sc, 0, 6, Delete(Registrations, Id, sc.registrations, false));
    :- tx.DeleteIn(Registrations, Id, sc.registrations, false);
    ChainFront(tx.work, sc, 1, 6, Delete(Validities, FactorId, sc.subFactors, true));
    :- tx.DeleteIn(Validities, FactorId, sc.subFactors, true);
    ChainFront(tx.work, sc, 2, 6, Delete(IcSlices, FactorId, sc.subFactors, true));
    :- tx.DeleteIn(IcSlices, FactorId, sc.subFactors, true);
    ChainFront(tx.work, sc, 3, 6, Delete(ValueSlices, FactorId, sc.subFactors, true));
    :- tx.DeleteIn(ValueSlices, FactorId, sc.subFactors, true);
    ChainFront(tx.work, sc, 4, 6, Delete(IcSummaries, FactorId, sc.subFactors, true));
    :- tx.DeleteIn(IcSummaries, FactorId, sc.subFactors, true);
    ChainFront(tx.work, sc, 5, 6, Delete(Refreshes, SubFactorId, sc.subFactors, false));
    :- tx.DeleteIn(Refreshes, SubFactorId, sc.subFactors, false);
  }

  /** Rows that use generated sub-factors or versions. */
  method DeleteUses(tx: Transaction, sc: Scope) returns (r: Outcome<Error>)
    requires Consistent(tx.work)
    modifies tx
    ensures r.Pass? ==> tx.work == Chain(old(tx.work), sc, 6, 9) && ChainConsistent(old(tx.work), sc, 6, 9)
    ensures r.Pass? ==> Consistent(tx.work)
    ensures r.Fail? ==> tx.FailsFor(r, !ChainConsistent(old(tx.work), sc, 6, 9))
  {
    r := Pass;
    ChainFront(tx.work, sc, 6, 9, Delete(Feedbacks, FormId, sc.forms, false));
    :- tx.DeleteIn(Feedbacks, FormId, sc.forms, false);
    ChainFront(tx.work, sc, 7, 9, Delete(Components, ComboId, sc.versions, false));
    :- tx.DeleteIn(Components, ComboId, sc.versions, false);
    ChainFront(tx.work, sc, 8, 9, Delete(Members, FormId, sc.forms, false));
    :- tx.DeleteIn(Members, FormId, sc.forms, false);
  }

  /** Details and lineage of the generated sub-factors, then the sub-factors. */
  method DeleteSubFactors(tx: Transaction, sc: Scope) returns (r: Outcome<Error>)
    requires Consistent(tx.work)
    modifies tx
    ensures r.Pass? ==> tx.work == Chain(old(tx.work), sc, 9, 13) && ChainConsistent(old(tx.work), sc, 9, 13)
    ensures r.Pass? ==> Consistent(tx.work)
    ensures r.Fail? ==> tx.FailsFor(r, !ChainConsistent(old(tx.work), sc, 9, 13))
  {
    r := Pass;
    ChainFront(tx.work, sc, 9, 13, Delete(Details, FactorId, sc.subFactors, true));
    :- tx.DeleteIn(Details, FactorId, sc.subFactors, true);
    ChainFront(tx.work, sc, 10, 13, Delete(ParentRelations, SubFactorId, sc.subFactors, false));
    :- tx.DeleteIn(ParentRelations, SubFactorId, sc.subFactors, false);
    ChainFront(tx.work, sc, 11, 13, Delete(FactorRelations, SubFactorId, sc.subFactors, false));
    :- tx.DeleteIn(FactorRelations, SubFactorId, sc.subFactors, false);
    ChainFront(tx.work, sc, 12, 13, Delete(SubFactors, Id, sc.subFactors, false));
    :- tx.DeleteIn(SubFactors, Id, sc.subFactors, false);
  }

  /** The pointers that run in circles between forms, versions, experiments and metrics. */
  method ClearPointers(tx: Transaction, sc: Scope) returns (r: Outcome<Error>)
    requires Consistent(tx.work)
    modifies tx
    ensures r.Pass? ==> tx.work == Chain(old(tx.work), sc, 13, 16) && ChainConsistent(old(tx.work), sc, 13, 16)
    ensures r.Pass? ==> Consistent(tx.work)
    ensures r.Fail? ==> tx.FailsFor(r, !ChainConsistent(old(tx.work), sc, 13, 16))
  {
    r := Pass;
    ChainFront(tx.work, sc, 13, 16, Clear(Forms, FORM_POINTERS, sc.forms));
    :- tx.ClearIn(Forms, FORM_POINTERS, sc.forms);
    ChainFront(tx.work, sc, 14, 16, Clear(Experiments, EXPERIMENT_POINTERS, sc.experiments));
    :- tx.ClearIn(Experiments, EXPERIMENT_POINTERS, sc.experiments);
    ChainFront(tx.work, sc, 15, 16, Clear(Versions, VERSION_POINTERS, sc.versions));
    :- tx.ClearIn(Versions, VERSION_POINTERS, sc.versions);
  }

  /** Metrics, experiments and versions. */
  method DeleteVersions(tx: Transaction, sc: Scope) returns (r: Outcome<Error>)
    requires Consistent(tx.work)
    modifies tx
    ensures r.Pass? ==> tx.work == Chain(old(tx.work), sc, 16, 19) && ChainConsistent(old(tx.work), sc, 16, 19)
    ensures r.Pass? ==> Consistent(tx.work)
    ensures r.Fail? ==> tx.FailsFor(r, !ChainConsistent(old(tx.work), sc, 16, 19))
  {
    r := Pass;
    ChainFront(tx.work, sc, 16, 19, Delete(Metrics, Id, sc.metrics, false));
    :- tx.DeleteIn(Metrics, Id, sc.metrics, false);
    ChainFront(tx.work, sc, 17, 19, Delete(Experiments, Id, sc.experiments, false));
    :- tx.DeleteIn(Experiments, Id, sc.experiments, false);
    ChainFront(tx.work, sc, 18, 19, Delete(Versions, Id, sc.versions, false));
    :- tx.DeleteIn(Versions, Id, sc.versions, false);
  }

  /** Pools and forms. */
  method DeleteForms(tx: Transaction, sc: Scope) returns (r: Outcome<Error>)
    requires Consistent(tx.work)
    modifies tx
    ensures r.Pass? ==> tx.work == Chain(old(tx.work), sc, 19, 21) && ChainConsistent(old(tx.work), sc, 19, 21)
    ensures r.Pass? ==> Consistent(tx.work)
    ensures r.Fail? ==> tx.FailsFor(r, !ChainConsistent(old(tx.work), sc, 19, 21))
  {
    r := Pass;
    ChainFront(tx.work, sc, 19, 21, Delete(Pools, FormId, sc.forms, false));
    :- tx.DeleteIn(Pools, FormId, sc.forms, false);
    ChainFront(tx.work, sc, 20, 21, Delete(Forms, Id, sc.forms, false));
    :- tx.DeleteIn(Forms, Id, sc.forms, false);
  }

  lemma {:induction false} ChainJoins(db: Db, sc: Scope, i: nat, j: nat, k: nat)
    requires i <= j <= k <= MAIN_STATEMENTS
    ensures Chain(Chain(db, sc, i, j), sc, j, k) == Chain(db, sc, i, k)
    ensures ChainConsistent(db, sc, i, k)
            <==> ChainConsistent(db, sc, i, j) && ChainConsistent(Chain(db, sc, i, j), sc, j, k)
    decreases j - i
  {
    if i == j {
    } else {
      ChainJoins(Exec(db, MainStatement(sc, i)), sc, i + 1, j, k);
    }
  }

  /** Deletes every table's share of the scope. */
  method DeleteScope(tx: Transaction, sc: Scope) returns (r: Outcome<Error>)
    requires Consistent(tx.work)
    modifies tx
    ensures r.Pass? ==> tx.work == Chain(old(tx.work), sc, 0, 21) && ChainConsistent(old(tx.work), sc, 0, 21)
    ensures r.Pass? ==> Consistent(tx.work)
    ensures r.Fail? ==> tx.FailsFor(r, !ChainConsistent(old(tx.work), sc, 0, 21))
  {
    ghost var db := tx.work;
    ChainJoins(db, sc, 0, 6, 21);
    :- DeleteResults(tx, sc);
    ChainJoins(tx.work, sc, 6, 9, 21);
    :- DeleteUses(tx, sc);
    ChainJoins(tx.work, sc, 9, 13, 21);
    :- DeleteSubFactors(tx, sc);
    ChainJoins(tx.work, sc, 13, 16, 21);
    :- ClearPointers(tx, sc);
    ChainJoins(tx.work, sc, 16, 19, 21);
    :- DeleteVersions(tx, sc);
    :- DeleteForms(tx, sc);
    r := Pass;
  }

  lemma StagesFront(db: Db, sc: Scope, i: nat)
    requires i < MAIN_STATEMENTS
    ensures StagesConsistent(db, sc, i) <==> Consistent(Stage(db, sc, i + 1)) && StagesConsistent(db, sc, i + 1)
  {
    if Consistent(Stage(db, sc, i + 1)) && StagesConsistent(db, sc, i + 1) {
      forall k: nat {:trigger Stage(db, sc, k)} | i < k <= MAIN_STATEMENTS
        ensures Consistent(Stage(db, sc, k))
      {
        assert k == i + 1 || i + 1 < k;
      }
    }
  }

  /** Running the statements walks through the stages. */
  lemma {:induction false} ChainIsStage(db: Db, sc: Scope, i: nat)
    requires i <= MAIN_STATEMENTS
    ensures Chain(Stage(db, sc, i), sc, i, MAIN_STATEMENTS) == Stage(db, sc, MAIN_STATEMENTS)
    ensures ChainConsistent(Stage(db, sc, i), sc, i, MAIN_STATEMENTS) <==> StagesConsistent(db, sc, i)
    decreases MAIN_STATEMENTS - i
  {
    if i >= MAIN_STATEMENTS {
    } else {
      StageStep(db, sc, i);
      ChainFront(Stage(db, sc, i), sc, i, MAIN_STATEMENTS, MainStatement(sc, i));
      StagesFront(db, sc, i);
      ChainIsStage(db, sc, i + 1);
    }
  }

  /** The twenty-one statements succeed exactly when no reference breaks on the way. */
  lemma ScopeDeletable(db: Db, graph: Graph, sc: Scope)
    requires Consistent(db) && sc == ScopeOf(db, graph) && Admissible(db, sc)
    ensures Chain(db, sc, 0, 21) == Stage(db, sc, MAIN_STATEMENTS)
    ensures ChainConsistent(db, sc, 0, 21) <==> !BlindSpot(db, sc)
  {
    StageZero(db, sc);
    ChainIsStage(db, sc, 0);
    IntegrityAtEveryStatement(db, graph, sc);
  }

  // ---- Temporary parent factors ----

  /** A statement on one table, described by what it does to the rows of that table. */
  lemma ExecOnDrop(db: Db, s: Statement, factors: set<int>, pairs: set<(int, int)>,
                   moreFactors: set<int>, morePairs: set<(int, int)>)
    requires forall table, rows :: table != Target(s) ==>
               DropRows(factors, pairs, table, rows) == DropRows(moreFactors, morePairs, table, rows)
    requires forall rows ::
               ExecRows(s, DropRows(factors, pairs, Target(s), rows))
               == DropRows(moreFactors, morePairs, Target(s), rows)
    ensures Exec(Drop(db, factors, pairs), s) == Drop(db, moreFactors, morePairs)
  {
    forall table | table in db
      ensures Exec(Drop(db, factors, pairs), s)[table] == Drop(db, moreFactors, morePairs)[table]
    {
    }
  }

  lemma DropOnePairRows(factors: set<int>, pairs: set<(int, int)>, f: int, g: int, rows: map<int, Row>)
    ensures ExecRows(DeletePair(f, g), DropRows(factors, pairs, FactorRelations, rows))
         == DropRows(factors, pairs + {(f, g)}, FactorRelations, rows)
  {
    forall id | id in rows
      ensures Dropped(factors, pairs + {(f, g)}, FactorRelations, id, rows[id])
              <==> Dropped(factors, pairs, FactorRelations, id, rows[id]) || Matches(DeletePair(f, g), id, rows[id])
    {
    }
  }

  lemma DropOnePair(db: Db, factors: set<int>, pairs: set<(int, int)>, f: int, g: int)
    ensures Exec(Drop(db, factors, pairs), DeletePair(f, g)) == Drop(db, factors, pairs + {(f, g)})
  {
    forall rows: map<int, Row>
      ensures ExecRows(DeletePair(f, g), DropRows(factors, pairs, FactorRelations, rows))
           == DropRows(factors, pairs + {(f, g)}, FactorRelations, rows)
    {
      DropOnePairRows(factors, pairs, f, g, rows);
    }
    ExecOnDrop(db, DeletePair(f, g), factors, pairs, factors, pairs + {(f, g)});
  }

  lemma DropOneFactor(db: Db, factors: set<int>, pairs: set<(int, int)>, f: int)
    ensures Exec(Drop(db, factors, pairs), Delete(Factors, Id, {f}, false)) == Drop(db, factors + {f}, pairs)
  {
    var s := Delete(Factors, Id, {f}, false);
    forall rows: map<int, Row>
      ensures ExecRows(s, DropRows(factors, pairs, Factors, rows)) == DropRows(factors + {f}, pairs, Factors, rows)
    {
    }
    ExecOnDrop(db, s, factors, pairs, factors + {f}, pairs);
  }

  /** Deleting a relation row leaves nothing dangling. */
  lemma DeletePairKeepsIntegrity(db: Db, f: int, g: int)
    requires Consistent(db)
    ensures Consistent(Exec(db, DeletePair(f, g)))
  {
    forall child, column
      ensures !References(child, column, FactorRelations)
    {
    }
    DeleteKeepsIntegrity(db, DeletePair(f, g));
  }

  /** The next identifier of a collection. */
  method Pick<T(==)>(ids: set<T>) returns (x: T)
    requires ids != {}
    ensures x in ids
  {
    x :| x in ids;
  }

  /** The loop over the relations created for one parent. */
  method DeleteOwnRelations(tx: Transaction, f: int, owned: set<int>,
                            ghost db: Db, ghost factors: set<int>, ghost pairs: set<(int, int)>)
    returns (r: Outcome<Error>)
    requires tx.work == Drop(db, factors, pairs) && Consistent(tx.work)
    modifies tx
    ensures r.Pass? ==> tx.work == Drop(db, factors, pairs + (set g | g in owned :: (f, g))) && Consistent(tx.work)
    ensures r.Fail? ==> tx.Disturbed(r)
  {
    var todo := owned;
    ghost var done: set<(int, int)> := {};
    assert pairs + done == pairs;
    while todo != {}
      invariant todo <= owned
      invariant done == set g | g in owned - todo :: (f, g)
      invariant tx.work == Drop(db, factors, pairs + done) && Consistent(tx.work)
      decreases |todo|
    {
      var g := Pick(todo);
      DropOnePair(db, factors, pairs + done, f, g);
      DeletePairKeepsIntegrity(tx.work, f, g);
      :- tx.Execute(DeletePair(f, g));
      todo, done := todo - {g}, done + {(f, g)};
      assert pairs + (done - {(f, g)}) + {(f, g)} == pairs + done;
      assert (set h | h in owned - todo :: (f, h)) == done;
    }
    assert owned - todo == owned;
    r := Pass;
  }

  /** Dropping other parents changes neither whether `f` is a test parent nor what references it. */
  lemma OthersDontMatter(db: Db, relations: RelationPairs, factors: set<int>, f: int)
    requires f !in factors
    ensures var now := Drop(db, factors, PairsOf(relations, factors));
            && (IsTestParent(now, f) <==> IsTestParent(db, f))
            && (Removable(now, relations, f) <==> Removable(db, relations, f))
  {
    var now := Drop(db, factors, PairsOf(relations, factors));
    DropContents(db, factors, PairsOf(relations, factors), Factors, f);
    SameReferences(db, relations, factors, f, OwnedSubFactors(relations, f));
  }

  lemma SameReferences(db: Db, relations: RelationPairs, factors: set<int>, f: int, owned: set<int>)
    requires f !in factors
    ensures ParentReferenced(Drop(db, factors, PairsOf(relations, factors)), f, owned)
      <==> ParentReferenced(db, f, owned)
  {
    var now := Drop(db, factors, PairsOf(relations, factors));
    assert Rows(now, Details) == Rows(db, Details);
    assert Rows(now, ThemeRelations) == Rows(db, ThemeRelations);
    assert Rows(now, Components) == Rows(db, Components);
    assert Rows(now, Validities) == Rows(db, Validities);
    forall id
      ensures id in Rows(now, FactorRelations) && CellIn(At(now, FactorRelations, id, FactorId), {f})
              <==> id in Rows(db, FactorRelations) && CellIn(At(db, FactorRelations, id, FactorId), {f})
      ensures id in Rows(now, FactorRelations) ==> Rows(now, FactorRelations)[id] == Rows(db, FactorRelations)[id]
    {
      DropContents(db, factors, PairsOf(relations, factors), FactorRelations, id);
    }
  }

  lemma PairsOfOneMore(relations: RelationPairs, factors: set<int>, f: int)
    ensures PairsOf(relations, factors + {f})
         == PairsOf(relations, factors) + (set g | g in OwnedSubFactors(relations, f) :: (f, g))
  {
    var own := set g | g in OwnedSubFactors(relations, f) :: (f, g);
    forall p | p in AllPairs(relations) && p.0 == f
      ensures p in own
    {
      var g := p.1;
      assert g in OwnedSubFactors(relations, f);
      assert (f, g) in own;
    }
    forall p | p in own
      ensures p in AllPairs(relations) && p.0 == f
    {
      assert p.1 in OwnedSubFactors(relations, f);
      var q :| q in AllPairs(relations) && q.0 == f && q.1 == p.1;
      assert q == p;
    }
  }

  /** `removed` and `forgotten` are the verdicts on the candidates in `db`. */
  ghost predicate Verdicts(db: Db, relations: RelationPairs, candidates: set<int>, removed: set<int>,
      forgotten: set<int>) {
    && removed <= candidates && forgotten <= candidates
    && forall f {:trigger Removable(db, relations, f)} :: f in candidates ==>
         (f in removed <==> Removable(db, relations, f))
         && (f in forgotten <==> !IsTestParent(db, f) || Removable(db, relations, f))
  }

  /** One candidate: forget it when its row is gone, delete it when nothing else uses it, otherwise keep it. */
  method CleanTestParent(tx: Transaction, f: int, relations: RelationPairs, ghost db: Db, ghost candidates: set<int>,
                         ghost removed: set<int>, ghost forgotten: set<int>, ghost done: set<int>)
    returns (r: Outcome<Error>, gone: bool)
    requires Verdicts(db, relations, candidates, removed, forgotten) && f in candidates
    requires f !in done && tx.work == Drop(db, done, PairsOf(relations, done)) && Consistent(tx.work)
    modifies tx
    ensures r.Pass? ==> Consistent(tx.work) && (gone <==> f in forgotten)
    ensures r.Pass? ==> tx.work == if f in removed then Drop(db, done + {f}, PairsOf(relations, done + {f}))
                                   else old(tx.work)
    ensures r.Fail? ==>
              tx.FailsFor(r, f in removed && !Consistent(Drop(db, done + {f}, PairsOf(relations, done + {f}))))
  {
    gone := false;
    OthersDontMatter(db, relations, done, f);
    :- tx.Call();
    if !IsTestParent(tx.work, f) {
      return Pass, true;
    }
    var owned := OwnedSubFactors(relations, f);
    :- tx.Call();
    if ParentReferenced(tx.work, f, owned) {
      return Pass, false;
    }
    PairsOfOneMore(relations, done, f);
    :- DeleteOwnRelations(tx, f, owned, db, done, PairsOf(relations, done));
    DropOneFactor(db, done, PairsOf(relations, done + {f}), f);
    :- tx.Execute(Delete(Factors, Id, {f}, false));
    return Pass, true;
  }

  lemma DropNone(db: Db, relations: RelationPairs)
    ensures Drop(db, {}, PairsOf(relations, {})) == db
  {
    var pairs := PairsOf(relations, {});
    assert pairs == {};
    forall table | table in db
      ensures Drop(db, {}, {})[table] == db[table]
    {
    }
  }

  /** The database refuses a parent only because of a relation without a sub-factor. */
  lemma FactorRefused(db: Db, relations: RelationPairs, candidates: set<int>, removed: set<int>, forgotten: set<int>,
                      some: set<int>)
    requires Consistent(db) && some <= removed && Verdicts(db, relations, candidates, removed, forgotten)
    ensures Consistent(Drop(db, some, PairsOf(relations, some))) || ParentBlindSpot(db, removed)
  {
    forall f | f in some
      ensures Removable(db, relations, f)
    {
    }
    DropKeepsIntegrity(db, relations, some);
  }

  /** One candidate, with the only reason for which the database refuses it. */
  method TryParent(tx: Transaction, f: int, relations: RelationPairs, ghost db: Db, ghost candidates: set<int>,
                   ghost removed: set<int>, ghost forgotten: set<int>, ghost done: set<int>)
    returns (r: Outcome<Error>, gone: bool)
    requires Verdicts(db, relations, candidates, removed, forgotten) && f in candidates && Consistent(db)
    requires f !in done && done <= removed && tx.work == Drop(db, done, PairsOf(relations, done)) && Consistent(tx.work)
    modifies tx
    ensures r.Pass? ==> Consistent(tx.work) && (gone <==> f in forgotten)
    ensures r.Pass? ==> tx.work == if f in removed then Drop(db, done + {f}, PairsOf(relations, done + {f}))
                                   else old(tx.work)
    ensures r.Fail? ==> tx.FailsFor(r, ParentBlindSpot(db, removed))
  {
    r, gone := CleanTestParent(tx, f, relations, db, candidates, removed, forgotten, done);
    if r.Fail? && !tx.Disturbed(r) {
      FactorRefused(db, relations, candidates, removed, forgotten, done + {f});
    }
  }

  /** The loop over the candidates. */
  method CleanEachParent(tx: Transaction, candidates: set<int>, relations: RelationPairs,
                         ghost removed: set<int>, ghost forgotten: set<int>)
    returns (r: Outcome<Error>, cleaned: set<int>)
    requires Consistent(tx.work) && Verdicts(tx.work, relations, candidates, removed, forgotten)
    modifies tx
    ensures r.Pass? ==> Consistent(tx.work) && cleaned == forgotten
    ensures r.Pass? ==> tx.work == Drop(old(tx.work), removed, PairsOf(relations, removed))
    ensures r.Fail? ==> tx.FailsFor(r, ParentBlindSpot(old(tx.work), removed))
  {
    ghost var db := tx.work;
    ghost var done: set<int> := {};
    cleaned := {};
    var todo := candidates;
    DropNone(db, relations);
    while todo != {}
      invariant todo <= candidates
      invariant done == removed - todo
      invariant cleaned == forgotten - todo
      invariant tx.work == Drop(db, done, PairsOf(relations, done)) && Consistent(tx.work)
      decreases |todo|
    {
      var f := Pick(todo);
      var step, gone := TryParent(tx, f, relations, db, candidates, removed, forgotten, done);
      if step.Fail? {
        return step, cleaned;
      }
      if gone {
        cleaned := cleaned + {f};
      }
      if f in removed {
        done := done + {f};
      }
      todo := todo - {f};
    }
    assert done == removed && cleaned == forgotten;
    r := Pass;
  }

  /** `_clean_test_parent_factors`: deletes the temporary parents that nothing else uses. */
  method CleanTestParents(tx: Transaction, candidates: set<int>, relations: RelationPairs)
    returns (r: Outcome<Error>, cleaned: set<int>)
    requires Consistent(tx.work)
    modifies tx
    ensures r.Pass? ==> Consistent(tx.work) && cleaned == CleanedParents(old(tx.work), relations, candidates)
    ensures r.Pass? ==> var removed := RemovedParents(old(tx.work), relations, candidates);
                        tx.work == Drop(old(tx.work), removed, PairsOf(relations, removed))
    ensures r.Fail? ==>
              tx.FailsFor(r, ParentBlindSpot(old(tx.work), RemovedParents(old(tx.work), relations, candidates)))
  {
    r, cleaned := CleanEachParent(tx, candidates, relations, RemovedParents(tx.work, relations, candidates),
                                  CleanedParents(tx.work, relations, candidates));
  }

  // ---- The whole run ----

  /** The database refuses a statement of an admitted run. */
  ghost predicate RefusedByDatabase(st: State, graph: Graph) {
    BlindSpot(st.db, ScopeOf(st.db, graph)) || ParentBlindSpot(AfterMain(st.db, graph), RemovedBy(st, graph))
  }

  /** How a run in the test environment ends when nothing around it fails. */
  ghost function Undisturbed(st: State, graph: Graph): (ending: Ending)
    ensures ending.Cleaned? <==> RunsThrough(st, graph)
  {
    if !SingleOwner(graph) then Raised(FormInTwoSessions)
    else if graph == map[] then Kept
    else if !OwnershipConfirmed(st.db, graph) then Raised(ForeignForm)
    else if !Admissible(st.db, ScopeOf(st.db, graph)) then Kept
    else if RefusedByDatabase(st, graph) then Raised(ReferenceRestricted)
    else Cleaned
  }

  /** The commit has taken effect and the caller sees an exception. */
  predicate FailsAfterCommit(faults: Faults) {
    faults.commit.Unacknowledged? || (faults.commit.Acknowledged? && faults.close)
  }

  /** The same with faults of the commit and the close, for a graph that is not empty. */
  ghost function EndingUnder(st: State, graph: Graph, faults: Faults): Ending {
    var ending := Undisturbed(st, graph);
    if ending.Raised? then ending
    else if !faults.commit.Acknowledged? then Raised(DriverFailure)
    else if faults.close then Raised(CloseFailure)
    else ending
  }

  /** What such a run leaves: the new database from the commit on, the new ownership maps only when it returns. */
  ghost function StateUnder(st: State, graph: Graph, faults: Faults): State {
    if faults.commit.Refused? then st
    else if FailsAfterCommit(faults) then st.(db := AfterRun(st, graph).db)
    else AfterRun(st, graph)
  }

  /** `_sessions_without_remaining_forms` on the forms read at the start, and the deletion of those sessions. */
  method DeleteSessions(tx: Transaction, sessions: set<int>) returns (r: Outcome<Error>)
    requires Consistent(tx.work) && !UsedOutside(tx.work, Forms, SessionId, sessions, {})
    modifies tx
    ensures r.Pass? ==> tx.work == DropSessions(old(tx.work), sessions) && Consistent(tx.work)
    ensures r.Fail? ==> tx.Disturbed(r)
  {
    DropSessionsKeepsIntegrity(tx.work, sessions);
    :- tx.DeleteIn(Messages, SessionId, sessions, false);
    :- tx.DeleteIn(Sessions, Id, sessions, false);
    r := Pass;
  }

  /** The body of the transaction either raises, or keeps everything, or deletes. */
  datatype Body = BodyRaised(error: Error) | BodyKept | BodyDeleted(cleaned: set<int>)

  /** The guards in the order the source evaluates them. */
  method MayClean(tx: Transaction, sc: Scope) returns (r: Outcome<Error>, allowed: bool)
    modifies tx`calls
    ensures r.Pass? ==> (allowed <==> Admissible(tx.work, sc))
    ensures r.Fail? ==> tx.Disturbed(r)
  {
    allowed := false;
    if HasActivePipeline(tx.work, sc.forms) {
      return Pass, false;
    }
    :- tx.Call();
    if !VersionsIdentified(tx.work, sc.versions) {
      return Pass, false;
    }
    :- tx.Call();
    if !ExperimentsOwned(tx.work, sc) {
      return Pass, false;
    }
    :- tx.Call();
    if !MetricsOwned(tx.work, sc) || !MetricPointersAgree(tx.work, sc) {
      return Pass, false;
    }
    :- tx.Call();
    if !RegistrationsOwned(tx.work, sc) {
      return Pass, false;
    }
    :- tx.Call();
    var shared := HasExternalReferences(tx.work, sc);
    if shared {
      return Pass, false;
    }
    :- tx.Call();
    return Pass, !HasActiveRefresh(tx.work, sc.subFactors);
  }

  /** No form that survives the main statements and the parents belongs to a cleanable session. */
  lemma CleanableSessionsAreEmpty(st: State, graph: Graph)
    ensures var removed := RemovedBy(st, graph);
            var before := Drop(AfterMain(st.db, graph), removed, PairsOf(st.relationPairs, removed));
            !UsedOutside(before, Forms, SessionId, SessionsBy(st, graph), {})
  {
    var removed := RemovedBy(st, graph);
    var pairs := PairsOf(st.relationPairs, removed);
    var before := Drop(AfterMain(st.db, graph), removed, pairs);
    forall form | form in Rows(before, Forms)
      ensures !CellIn(At(before, Forms, form, SessionId), SessionsBy(st, graph))
    {
      DropContents(AfterMain(st.db, graph), removed, pairs, Forms, form);
      MainContents(st.db, ScopeOf(st.db, graph), Forms, form);
      FormsScope(st.db, graph, form);
    }
  }

  lemma FormsScope(db: Db, graph: Graph, form: int)
    requires form in Rows(db, Forms)
    ensures DoomedAt(db, ScopeOf(db, graph), Forms, form) <==> form in OwnedForms(db, graph)
  {
    DoomedForm(ScopeOf(db, graph), form, Rows(db, Forms)[form]);
  }

  /** The statements of an admitted run. */
  method DeleteGraph(tx: Transaction, graph: Graph, sc: Scope, ids: ParentIds, pairs: RelationPairs)
    returns (r: Outcome<Error>, cleaned: set<int>)
    requires Consistent(tx.work) && sc == ScopeOf(tx.work, graph) && Admissible(tx.work, sc)
    modifies tx
    ensures var st := State(old(tx.work), ids, pairs);
            && (r.Pass? ==> tx.work == FinalDb(st, graph) && Consistent(tx.work) && cleaned == CleanedBy(st, graph))
            && (r.Pass? ==> !RefusedByDatabase(st, graph))
            && (r.Fail? ==> tx.FailsFor(r, RefusedByDatabase(st, graph)))
  {
    ghost var st := State(tx.work, ids, pairs);
    cleaned := {};
    var sessions := CleanableSessions(tx.work, graph, sc.forms);
    ScopeDeletable(tx.work, graph, sc);
    :- DeleteScope(tx, sc);
    r, cleaned := CleanTestParents(tx, Candidates(ids, Owners(graph)), pairs);
    if r.Fail? {
      return r, cleaned;
    }
    ParentsPassed(st, graph);
    CleanableSessionsAreEmpty(st, graph);
    :- DeleteSessions(tx, sessions);
    r := Pass;
  }

  /** Integrity after the parents rules the blind spot out. */
  lemma ParentsPassed(st: State, graph: Graph)
    requires Consistent(AfterMain(st.db, graph))
    ensures var removed := RemovedBy(st, graph);
            Consistent(Drop(AfterMain(st.db, graph), removed, PairsOf(st.relationPairs, removed)))
            <==> !ParentBlindSpot(AfterMain(st.db, graph), removed)
  {
    DropKeepsIntegrity(AfterMain(st.db, graph), st.relationPairs, RemovedBy(st, graph));
  }

  /** How the body of the transaction ends when no call fails. */
  ghost predicate EndsAs(body: Body, st: State, graph: Graph) {
    match body
    case BodyRaised(error) => Undisturbed(st, graph) == Raised(error)
    case BodyKept => Undisturbed(st, graph) == Kept
    case BodyDeleted(cleaned) => Undisturbed(st, graph) == Cleaned && cleaned == CleanedBy(st, graph)
  }

  /** What happens inside the transaction. */
  method RunBody(tx: Transaction, graph: Graph, ids: ParentIds, pairs: RelationPairs) returns (body: Body)
    requires Consistent(tx.work) && SingleOwner(graph) && graph != map[]
    modifies tx
    ensures var st := State(old(tx.work), ids, pairs);
            && (EndsAs(body, st, graph) || (tx.fault >= 0 && body == BodyRaised(DriverFailure)))
            && (body.BodyDeleted? ==> tx.work == FinalDb(st, graph) && Consistent(tx.work))
            && (body.BodyKept? ==> tx.work == st.db)
  {
    var calls := tx.Call();
    if calls.Fail? {
      return BodyRaised(calls.error);
    }
    if !OwnershipConfirmed(tx.work, graph) {
      return BodyRaised(ForeignForm);
    }
    var sc := ScopeOf(tx.work, graph);
    var guards, allowed := MayClean(tx, sc);
    if guards.Fail? {
      return BodyRaised(guards.error);
    }
    if !allowed {
      return BodyKept;
    }
    var outcome, cleaned := DeleteGraph(tx, graph, sc, ids, pairs);
    body := if outcome.Fail? then BodyRaised(outcome.error) else BodyDeleted(cleaned);
  }

  class ComboRepository {
    const environment: string
    var db: Db                        // what other connections see
    var parentIds: ParentIds          // _test_parent_factor_ids_by_form
    var relationPairs: RelationPairs  // _test_parent_relation_pairs_by_owner

    constructor (environment: string, db: Db)
      ensures this.environment == environment && this.db == db && parentIds == map[] && relationPairs == map[]
    {
      this.environment, this.db, parentIds, relationPairs := environment, db, map[], map[];
    }

    function Snapshot(): State
      reads this
    {
      State(db, parentIds, relationPairs)
    }

    /** `clean_test_graph`.  Without faults the repository moves to AfterRun.  Under any fault it is all or nothing,
        except that an exception after the commit leaves the new database with the old ownership maps. */
    method CleanTestGraph(graph: Graph, faults: Faults) returns (ending: Ending)
      requires Consistent(db)
      modifies this
      ensures Consistent(db)
      ensures environment != "test" ==> ending == Raised(NotTestEnvironment) && Snapshot() == old(Snapshot())
      ensures graph == map[] ==> Snapshot() == old(Snapshot()) && (environment == "test" ==> ending == Kept)
      ensures environment == "test" && graph != map[] ==>
        || (faults.call >= 0 && ending == Raised(DriverFailure) && Snapshot() == old(Snapshot()))
        || (ending == EndingUnder(old(Snapshot()), graph, faults)
            && Snapshot() == StateUnder(old(Snapshot()), graph, faults))
      ensures faults.call < 0 ==>
        (ending.Raised? && Snapshot() != old(Snapshot())
         <==> environment == "test" && FailsAfterCommit(faults) && RunsThrough(old(Snapshot()), graph)
              && AfterRun(old(Snapshot()), graph).db != old(db))
    {
      if environment != "test" {
        return Raised(NotTestEnvironment);
      }
      if !SingleOwner(graph) {
        return Raised(FormInTwoSessions);
      }
      if graph == map[] {
        return Kept;
      }
      var tx := new Transaction(db, faults.call);
      var body := RunBody(tx, graph, parentIds, relationPairs);
      if body.BodyRaised? {
        // Rolled back; a failing rollback or close does not hide the original exception.
        return Raised(body.error);
      }
      if faults.commit.Refused? {
        return Raised(DriverFailure);
      }
      db := tx.work;
      if faults.commit.Unacknowledged? {
        return Raised(DriverFailure);
      }
      if faults.close {
        return Raised(CloseFailure);
      }
      if body.BodyKept? {
        return Kept;
      }
      ForgetCleaned(Owners(graph), body.cleaned);
      return Cleaned;
    }

    /** After the transaction: forget the cleaned parents of the owners in the graph. */
    method ForgetCleaned(owners: set<int>, cleaned: set<int>)
      modifies this`parentIds, this`relationPairs
      ensures parentIds == PruneIds(old(parentIds), owners, cleaned)
      ensures relationPairs == PrunePairs(old(relationPairs), owners, cleaned)
    {
      var todo := owners;
      ghost var done: set<int> := {};
      ghost var ids, pairs := parentIds, relationPairs;
      PruneNobody(ids, pairs, cleaned);
      while todo != {}
        invariant todo <= owners && done == owners - todo
        invariant parentIds == PruneIds(ids, done, cleaned)
        invariant relationPairs == PrunePairs(pairs, done, cleaned)
        decreases |todo|
      {
        var owner := Pick(todo);
        PruneOneMoreId(ids, done, cleaned, owner);
        PruneOneMorePair(pairs, done, cleaned, owner);
        ForgetOwner(owner, cleaned);
        todo, done := todo - {owner}, done + {owner};
      }
      assert done == owners;
    }

    /** The same for one owner. */
    method ForgetOwner(owner: int, cleaned: set<int>)
      modifies this`parentIds, this`relationPairs
      ensures parentIds == WithoutCleanedIds(old(parentIds), owner, cleaned)
      ensures relationPairs == WithoutCleanedPairs(old(relationPairs), owner, cleaned)
    {
      var remaining := (if owner in parentIds then parentIds[owner] else {}) - cleaned;
      if remaining != {} {
        parentIds := parentIds[owner := remaining];
      } else {
        parentIds := parentIds - {owner};
      }
      var pairs := WithoutParents(if owner in relationPairs then relationPairs[owner] else {}, cleaned);
      if pairs != {} {
        relationPairs := relationPairs[owner := pairs];
      } else {
        relationPairs := relationPairs - {owner};
      }
    }
  }

  /** The tracked parents after one owner has been pruned. */
  function WithoutCleanedIds(ids: ParentIds, owner: int, cleaned: set<int>): ParentIds {
    var remaining := (if owner in ids then ids[owner] else {}) - cleaned;
    if remaining != {} then ids[owner := remaining] else ids - {owner}
  }

  function WithoutCleanedPairs(pairs: RelationPairs, owner: int, cleaned: set<int>): RelationPairs {
    var left := WithoutParents(if owner in pairs then pairs[owner] else {}, cleaned);
    if left != {} then pairs[owner := left] else pairs - {owner}
  }

  lemma PruneNobody(ids: ParentIds, pairs: RelationPairs, cleaned: set<int>)
    ensures PruneIds(ids, {}, cleaned) == ids && PrunePairs(pairs, {}, cleaned) == pairs
  {
  }

  /** Pruning one more owner, whether or not it is tracked and whether or not it was pruned before. */
  lemma PruneOneMoreId(ids: ParentIds, done: set<int>, cleaned: set<int>, owner: int)
    ensures PruneIds(ids, done + {owner}, cleaned) == WithoutCleanedIds(PruneIds(ids, done, cleaned), owner, cleaned)
  {
    if owner in ids {
      assert ids[owner] - cleaned - cleaned == ids[owner] - cleaned;
    }
  }

  lemma PruneOneMorePair(pairs: RelationPairs, done: set<int>, cleaned: set<int>, owner: int)
    ensures PrunePairs(pairs, done + {owner}, cleaned)
         == WithoutCleanedPairs(PrunePairs(pairs, done, cleaned), owner, cleaned)
  {
    if owner in pairs {
      assert WithoutParents(WithoutParents(pairs[owner], cleaned), cleaned) == WithoutParents(pairs[owner], cleaned);
    }
  }
}
