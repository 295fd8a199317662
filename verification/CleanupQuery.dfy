/** `_has_external_references`: the sharing checks assembled into one UNION ALL query over a flat parameter tuple,
    proved to find a row exactly when one of the declarative checks of CleanupScope holds. */
module CleanupQuery {
  import opened Schema
  import opened Sql
  import opened CleanupScope

  /** Some statement of the list, run on its own parameters, returns a row. */
  predicate AnyHits(db: Db, bs: seq<Bound>) {
    exists b :: b in bs && BoundHits(db, b)
  }

  predicate AllBound(bs: seq<Bound>) {
    forall b :: b in bs ==> WellBound(b)
  }

  lemma AnyHitsAppend(db: Db, xs: seq<Bound>, ys: seq<Bound>)
    ensures AnyHits(db, xs + ys) <==> AnyHits(db, xs) || AnyHits(db, ys)
  {
    assert forall b :: b in xs + ys <==> b in xs || b in ys;
  }

  lemma AnyHitsOne(db: Db, b: Bound)
    ensures AnyHits(db, [b]) <==> BoundHits(db, b)
  {
    assert b in [b];
    assert forall c :: c in [b] <==> c == b;
  }

  /** The elements of a set, once each. */
  method Listed<T>(ids: set<T>) returns (r: seq<T>)
    ensures Lists(r, ids)
    ensures |r| == |ids|
  {
    r := [];
    var todo := ids;
    while todo != {}
      invariant todo <= ids
      invariant forall x :: x in ids <==> x in r || x in todo
      invariant forall x :: x in r ==> x !in todo
      invariant |r| + |todo| == |ids|
      decreases |todo|
    {
      var x :| x in todo;
      r, todo := r + [x], todo - {x};
    }
  }

  /** `ids` and the sequence written into the query have the same members. */
  predicate Lists<T(==)>(r: seq<T>, ids: set<T>) {
    && (forall x :: x in r ==> x in ids)
    && (forall x :: x in ids ==> x in r)
  }

  lemma InMeaning(c: Column, xs: seq<int>, ids: set<int>, id: int, row: Row)
    requires xs != [] && Lists(xs, ids)
    ensures Eval(In(c, |xs|), id, row, xs) == True <==> CellIn(Cell(id, row, c), ids)
    ensures Eval(NotIn(c, |xs|), id, row, xs) == True <==> !Cell(id, row, c).Null? && !CellIn(Cell(id, row, c), ids)
  {
    EvalNot(In(c, |xs|), NotIn(c, |xs|), id, row, xs);
  }

  lemma NullOrNotInMeaning(c: Column, xs: seq<int>, ids: set<int>, id: int, row: Row)
    requires xs != [] && Lists(xs, ids)
    ensures Eval(NullOrNotIn(c, |xs|), id, row, xs) == True <==> !CellIn(Cell(id, row, c), ids)
  {
    assert xs[..0] == [] && xs[0..] == xs;
    InMeaning(c, xs, ids, id, row);
    JoinMeaning(IsNull(c), NotIn(c, |xs|), [], xs, id, row);
    assert [] + xs == xs;
  }

  lemma JoinMeaning(c: Cond, d: Cond, xs: seq<int>, ys: seq<int>, id: int, row: Row)
    requires |xs| == Holes(c) && |ys| == Holes(d)
    ensures Eval(And(c, d), id, row, xs + ys) == True
            <==> Eval(c, id, row, xs) == True && Eval(d, id, row, ys) == True
    ensures Eval(Or(c, d), id, row, xs + ys) == True
            <==> Eval(c, id, row, xs) == True || Eval(d, id, row, ys) == True
  {
    assert (xs + ys)[..|xs|] == xs && (xs + ys)[|xs|..] == ys;
  }

  /** `WHERE c IN (xs)`. */
  function WhereIn(table: Table, c: Column, xs: seq<int>): (b: Bound)
    ensures WellBound(b)
  {
    Bound(Select(table, In(c, |xs|)), xs)
  }

  /** `WHERE c IN (xs) AND d`. */
  function WhereInAnd(table: Table, c: Column, xs: seq<int>, d: Cond, ys: seq<int>): (b: Bound)
    requires |ys| == Holes(d)
    ensures WellBound(b)
  {
    assert Holes(In(c, |xs|)) == |xs|;
    Bound(Select(table, And(In(c, |xs|), d)), xs + ys)
  }

  lemma WhereInMeaning(db: Db, table: Table, c: Column, xs: seq<int>, ids: set<int>)
    requires xs != [] && Lists(xs, ids)
    ensures BoundHits(db, WhereIn(table, c, xs))
            <==> exists id :: id in Rows(db, table) && CellIn(At(db, table, id, c), ids)
  {
    forall id | id in Rows(db, table)
      ensures Eval(In(c, |xs|), id, Rows(db, table)[id], xs) == True <==> CellIn(At(db, table, id, c), ids)
    {
      InMeaning(c, xs, ids, id, Rows(db, table)[id]);
    }
  }

  lemma WhereInAndMeaning(db: Db, table: Table, c: Column, xs: seq<int>, ids: set<int>, d: Cond, ys: seq<int>)
    requires xs != [] && Lists(xs, ids) && |ys| == Holes(d)
    ensures BoundHits(db, WhereInAnd(table, c, xs, d, ys))
            <==> exists id :: id in Rows(db, table) && CellIn(At(db, table, id, c), ids)
                   && Eval(d, id, Rows(db, table)[id], ys) == True
  {
    forall id | id in Rows(db, table)
      ensures Eval(And(In(c, |xs|), d), id, Rows(db, table)[id], xs + ys) == True
              <==> CellIn(At(db, table, id, c), ids) && Eval(d, id, Rows(db, table)[id], ys) == True
    {
      InMeaning(c, xs, ids, id, Rows(db, table)[id]);
      JoinMeaning(In(c, |xs|), d, xs, ys, id, Rows(db, table)[id]);
    }
  }

  /** `c IN (xs) AND d NOT IN (ys)`, the second part left out when `ys` is empty. */
  function InOutside(table: Table, c: Column, xs: seq<int>, d: Column, ys: seq<int>): (b: Bound)
    ensures WellBound(b)
  {
    if ys == [] then WhereIn(table, c, xs) else WhereInAnd(table, c, xs, NotIn(d, |ys|), ys)
  }

  lemma InOutsideMeaning(db: Db, table: Table, c: Column, xs: seq<int>, ids: set<int>,
                         d: Column, ys: seq<int>, outside: set<int>)
    requires xs != [] && Lists(xs, ids) && Lists(ys, outside)
    ensures BoundHits(db, InOutside(table, c, xs, d, ys)) <==> UsedByNamedOther(db, table, c, ids, d, outside)
  {
    if ys == [] {
      assert outside == {};
      WhereInMeaning(db, table, c, xs, ids);
    } else {
      assert ys[0] in outside;
      WhereInAndMeaning(db, table, c, xs, ids, NotIn(d, |ys|), ys);
      forall id | id in Rows(db, table)
        ensures Eval(NotIn(d, |ys|), id, Rows(db, table)[id], ys) == True
                <==> BareNotIn(At(db, table, id, d), outside)
      {
        InMeaning(d, ys, outside, id, Rows(db, table)[id]);
      }
    }
  }

  /** On the primary key a bare NOT IN loses nothing. */
  lemma InOutsideKeyMeaning(db: Db, table: Table, c: Column, xs: seq<int>, ids: set<int>, ys: seq<int>,
      outside: set<int>)
    requires xs != [] && Lists(xs, ids) && Lists(ys, outside)
    ensures BoundHits(db, InOutside(table, c, xs, Id, ys)) <==> UsedOutside(db, table, c, ids, outside)
  {
    InOutsideMeaning(db, table, c, xs, ids, Id, ys, outside);
    forall id | id in Rows(db, table)
      ensures BareNotIn(At(db, table, id, Id), outside) <==> id !in outside
    {
    }
  }

  /** `c IN (xs) AND (d IS NULL OR d NOT IN (ys))`, the second part left out when `ys` is empty. */
  function InOutsideOrNull(table: Table, c: Column, xs: seq<int>, d: Column, ys: seq<int>): (b: Bound)
    ensures WellBound(b)
  {
    if ys == [] then WhereIn(table, c, xs) else WhereInAnd(table, c, xs, NullOrNotIn(d, |ys|), ys)
  }

  lemma InOutsideOrNullMeaning(db: Db, table: Table, c: Column, xs: seq<int>, ids: set<int>,
                               d: Column, ys: seq<int>, outside: set<int>)
    requires xs != [] && Lists(xs, ids) && Lists(ys, outside)
    ensures BoundHits(db, InOutsideOrNull(table, c, xs, d, ys)) <==> UsedByOther(db, table, c, ids, d, outside)
  {
    if ys == [] {
      WhereInMeaning(db, table, c, xs, ids);
    } else {
      WhereInAndMeaning(db, table, c, xs, ids, NullOrNotIn(d, |ys|), ys);
      forall id | id in Rows(db, table)
        ensures Eval(NullOrNotIn(d, |ys|), id, Rows(db, table)[id], ys) == True
                <==> !CellIn(At(db, table, id, d), outside)
      {
        NullOrNotInMeaning(d, ys, outside, id, Rows(db, table)[id]);
      }
    }
  }

  /** `b IN (xs) AND NOT (pairs)`: a relation row about one of `xs` that matches none of the expected pairs. */
  function ForeignStatement(table: Table, a: Column, b: Column, xs: seq<int>, pairs: seq<(int, int)>): (s: Bound)
    ensures WellBound(s)
  {
    WhereInAnd(table, b, xs, PairNotIn(a, b, |pairs|), FlattenPairs(pairs))
  }

  lemma NotAmongPairs(a: Column, b: Column, pairs: seq<(int, int)>, expected: set<(int, int)>, id: int, row: Row)
    requires Lists(pairs, expected)
    ensures Eval(PairNotIn(a, b, |pairs|), id, row, FlattenPairs(pairs)) == True
            <==> DiffersFromAll(a, b, id, row, expected)
  {
    PairPredicateMeaning(a, b, pairs, id, row);
  }

  lemma ForeignByCondition(db: Db, table: Table, a: Column, b: Column, xs: seq<int>, ids: set<int>,
                           d: Cond, ys: seq<int>, expected: set<(int, int)>)
    requires xs != [] && Lists(xs, ids) && |ys| == Holes(d)
    requires forall r :: r in Rows(db, table) ==>
               (Eval(d, r, Rows(db, table)[r], ys) == True <==> DiffersFromAll(a, b, r, Rows(db, table)[r], expected))
    ensures BoundHits(db, WhereInAnd(table, b, xs, d, ys)) <==> ForeignPair(db, table, a, b, ids, expected)
  {
    WhereInAndMeaning(db, table, b, xs, ids, d, ys);
  }

  lemma ForeignPairMeaning(db: Db, table: Table, a: Column, b: Column, xs: seq<int>, ids: set<int>,
                           pairs: seq<(int, int)>, expected: set<(int, int)>)
    requires xs != [] && Lists(xs, ids) && Lists(pairs, expected)
    ensures BoundHits(db, ForeignStatement(table, a, b, xs, pairs)) <==> ForeignPair(db, table, a, b, ids, expected)
  {
    var d, ys := PairNotIn(a, b, |pairs|), FlattenPairs(pairs);
    forall r | r in Rows(db, table)
      ensures Eval(d, r, Rows(db, table)[r], ys) == True <==> DiffersFromAll(a, b, r, Rows(db, table)[r], expected)
    {
      NotAmongPairs(a, b, pairs, expected, r, Rows(db, table)[r]);
    }
    ForeignByCondition(db, table, a, b, xs, ids, d, ys, expected);
  }

  /** `WHERE c OR d`. */
  function WhereOr(table: Table, c: Cond, xs: seq<int>, d: Cond, ys: seq<int>): (b: Bound)
    requires |xs| == Holes(c) && |ys| == Holes(d)
    ensures WellBound(b)
  {
    Bound(Select(table, Or(c, d)), xs + ys)
  }

  lemma WhereOrMeaning(db: Db, table: Table, c: Cond, xs: seq<int>, d: Cond, ys: seq<int>)
    requires |xs| == Holes(c) && |ys| == Holes(d)
    ensures BoundHits(db, WhereOr(table, c, xs, d, ys))
            <==> BoundHits(db, Bound(Select(table, c), xs)) || BoundHits(db, Bound(Select(table, d), ys))
  {
    forall id | id in Rows(db, table)
      ensures Eval(Or(c, d), id, Rows(db, table)[id], xs + ys) == True
              <==> Eval(c, id, Rows(db, table)[id], xs) == True || Eval(d, id, Rows(db, table)[id], ys) == True
    {
      JoinMeaning(c, d, xs, ys, id, Rows(db, table)[id]);
    }
  }

  /** `parent IN (xs) OR (child IN (xs) AND NOT (pairs))`. */
  function ParentStatement(xs: seq<int>, pairs: seq<(int, int)>): (b: Bound)
    ensures WellBound(b)
  {
    var foreign := ForeignStatement(ParentRelations, ParentSubFactorId, SubFactorId, xs, pairs);
    assert Holes(In(ParentSubFactorId, |xs|)) == |xs|;
    WhereOr(ParentRelations, In(ParentSubFactorId, |xs|), xs, foreign.select.where, foreign.params)
  }

  lemma ParentStatementMeaning(db: Db, xs: seq<int>, ids: set<int>, pairs: seq<(int, int)>, expected: set<(int, int)>)
    requires xs != [] && Lists(xs, ids) && Lists(pairs, expected)
    ensures BoundHits(db, ParentStatement(xs, pairs))
            <==> UsedOutside(db, ParentRelations, ParentSubFactorId, ids, {})
                 || ForeignPair(db, ParentRelations, ParentSubFactorId, SubFactorId, ids, expected)
  {
    ForeignPairMeaning(db, ParentRelations, ParentSubFactorId, SubFactorId, xs, ids, pairs, expected);
    WhereInMeaning(db, ParentRelations, ParentSubFactorId, xs, ids);
    var foreign := ForeignStatement(ParentRelations, ParentSubFactorId, SubFactorId, xs, pairs);
    WhereOrMeaning(db, ParentRelations, In(ParentSubFactorId, |xs|), xs, foreign.select.where, foreign.params);
  }

  /** The feedback scope: `form_id IS NULL OR form_id NOT IN (forms)`, or a constant when there are no forms. */
  function FeedbackScope(forms: seq<int>): (c: Cond)
    ensures Holes(c) == |forms|
  {
    if forms == [] then Always else NullOrNotIn(FormId, |forms|)
  }

  lemma FeedbackScopeMeaning(forms: seq<int>, ids: set<int>, id: int, row: Row)
    requires Lists(forms, ids)
    ensures Eval(FeedbackScope(forms), id, row, forms) == True <==> !CellIn(Cell(id, row, FormId), ids)
  {
    if forms != [] {
      NullOrNotInMeaning(FormId, forms, ids, id, row);
    }
  }

  /** `scope AND d`, a statement about the feedbacks of other forms. */
  function FeedbackStatement(forms: seq<int>, d: Cond, ys: seq<int>): (b: Bound)
    requires |ys| == Holes(d)
    ensures WellBound(b)
  {
    Bound(Select(Feedbacks, And(FeedbackScope(forms), d)), forms + ys)
  }

  lemma FeedbackStatementMeaning(db: Db, forms: seq<int>, formIds: set<int>, d: Cond, ys: seq<int>)
    requires |ys| == Holes(d) && Lists(forms, formIds)
    ensures BoundHits(db, FeedbackStatement(forms, d, ys))
            <==> exists f :: f in Rows(db, Feedbacks) && Eval(d, f, Rows(db, Feedbacks)[f], ys) == True
                   && !CellIn(At(db, Feedbacks, f, FormId), formIds)
  {
    forall f | f in Rows(db, Feedbacks)
      ensures Eval(And(FeedbackScope(forms), d), f, Rows(db, Feedbacks)[f], forms + ys) == True
              <==> Eval(d, f, Rows(db, Feedbacks)[f], ys) == True && !CellIn(At(db, Feedbacks, f, FormId), formIds)
    {
      FeedbackScopeMeaning(forms, formIds, f, Rows(db, Feedbacks)[f]);
      JoinMeaning(FeedbackScope(forms), d, forms, ys, f, Rows(db, Feedbacks)[f]);
    }
  }

  /** `source IN (versions) OR next IN (versions)`. */
  function EitherVersion(versions: seq<int>): (c: Cond)
    ensures Holes(c) == 2 * |versions|
  {
    Or(In(SourceVersionId, |versions|), In(NextVersionId, |versions|))
  }

  lemma FeedbackVersionMeaning(db: Db, forms: seq<int>, formIds: set<int>, versions: seq<int>, ids: set<int>)
    requires versions != [] && Lists(versions, ids) && Lists(forms, formIds)
    ensures BoundHits(db, FeedbackStatement(forms, EitherVersion(versions), versions + versions))
            <==> UsedByOther(db, Feedbacks, SourceVersionId, ids, FormId, formIds)
                 || UsedByOther(db, Feedbacks, NextVersionId, ids, FormId, formIds)
  {
    FeedbackStatementMeaning(db, forms, formIds, EitherVersion(versions), versions + versions);
    forall f | f in Rows(db, Feedbacks)
      ensures Eval(EitherVersion(versions), f, Rows(db, Feedbacks)[f], versions + versions) == True
              <==> CellIn(At(db, Feedbacks, f, SourceVersionId), ids)
                   || CellIn(At(db, Feedbacks, f, NextVersionId), ids)
    {
      var row := Rows(db, Feedbacks)[f];
      InMeaning(SourceVersionId, versions, ids, f, row);
      InMeaning(NextVersionId, versions, ids, f, row);
      JoinMeaning(In(SourceVersionId, |versions|), In(NextVersionId, |versions|), versions, versions, f, row);
    }
  }

  lemma FeedbackExperimentMeaning(db: Db, forms: seq<int>, formIds: set<int>, experiments: seq<int>, ids: set<int>)
    requires experiments != [] && Lists(experiments, ids) && Lists(forms, formIds)
    ensures |experiments| == Holes(In(NextExperimentId, |experiments|))
    ensures BoundHits(db, FeedbackStatement(forms, In(NextExperimentId, |experiments|), experiments))
            <==> UsedByOther(db, Feedbacks, NextExperimentId, ids, FormId, formIds)
  {
    FeedbackStatementMeaning(db, forms, formIds, In(NextExperimentId, |experiments|), experiments);
    forall f | f in Rows(db, Feedbacks)
      ensures Eval(In(NextExperimentId, |experiments|), f, Rows(db, Feedbacks)[f], experiments) == True
              <==> CellIn(At(db, Feedbacks, f, NextExperimentId), ids)
    {
      InMeaning(NextExperimentId, experiments, ids, f, Rows(db, Feedbacks)[f]);
    }
  }

  // ---- The statement list, block by block ----

  lemma AnyHitsThree(db: Db, a: Bound, b: Bound, c: Bound)
    ensures AnyHits(db, [a, b, c]) <==> BoundHits(db, a) || BoundHits(db, b) || BoundHits(db, c)
  {
    var bs := [a, b, c];
    assert bs[0] == a && bs[1] == b && bs[2] == c;
  }

  method PoolStatements(db: Db, sc: Scope, pools: seq<int>, versions: seq<int>, forms: seq<int>)
    returns (bs: seq<Bound>)
    requires Lists(pools, sc.pools) && Lists(versions, sc.versions) && Lists(forms, sc.forms)
    ensures AllBound(bs)
    ensures AnyHits(db, bs) <==> PoolShared(db, sc)
  {
    bs := [];
    if pools != [] {
      var version := InOutside(Versions, PoolId, pools, Id, versions);
      var member := InOutsideOrNull(Members, PoolId, pools, FormId, forms);
      var form := InOutside(Forms, PoolId, pools, Id, forms);
      bs := [version, member, form];
      InOutsideKeyMeaning(db, Versions, PoolId, pools, sc.pools, versions, sc.versions);
      InOutsideOrNullMeaning(db, Members, PoolId, pools, sc.pools, FormId, forms, sc.forms);
      InOutsideKeyMeaning(db, Forms, PoolId, pools, sc.pools, forms, sc.forms);
      AnyHitsThree(db, version, member, form);
    } else {
      assert sc.pools == {};
    }
  }

  method SubFactorStatements(db: Db, sc: Scope, subFactors: seq<int>, registrations: seq<int>, versions: seq<int>,
                             forms: seq<int>, factorPairs: seq<(int, int)>, parentPairs: seq<(int, int)>)
    returns (bs: seq<Bound>)
    requires Lists(subFactors, sc.subFactors) && Lists(registrations, sc.registrations)
    requires Lists(versions, sc.versions) && Lists(forms, sc.forms)
    requires Lists(factorPairs, sc.factorPairs) && Lists(parentPairs, sc.parentPairs)
    ensures AllBound(bs)
    ensures AnyHits(db, bs) <==> SubFactorShared(db, sc)
  {
    bs := [];
    if subFactors != [] {
      ForeignPairMeaning(
        db, FactorRelations, FactorId, SubFactorId, subFactors, sc.subFactors, factorPairs, sc.factorPairs);
      ParentStatementMeaning(db, subFactors, sc.subFactors, parentPairs, sc.parentPairs);
      var registration := InOutside(Registrations, SubFactorId, subFactors, Id, registrations);
      var relation := ForeignStatement(FactorRelations, FactorId, SubFactorId, subFactors, factorPairs);
      var parent := ParentStatement(subFactors, parentPairs);
      var component := InOutside(Components, ComponentSubFactorId, subFactors, ComboId, versions);
      var member := InOutside(Members, SubFactorId, subFactors, FormId, forms);
      bs := [registration, relation, parent] + ([component] + [member]);
      InOutsideKeyMeaning(db, Registrations, SubFactorId, subFactors, sc.subFactors, registrations, sc.registrations);
      InOutsideMeaning(db, Components, ComponentSubFactorId, subFactors, sc.subFactors, ComboId, versions, sc.versions);
      InOutsideMeaning(db, Members, SubFactorId, subFactors, sc.subFactors, FormId, forms, sc.forms);
      AnyHitsAppend(db, [registration, relation, parent], [component] + [member]);
      AnyHitsThree(db, registration, relation, parent);
      AnyHitsAppend(db, [component], [member]);
      AnyHitsOne(db, component);
      AnyHitsOne(db, member);
    } else {
      assert sc.subFactors == {};
    }
  }

  method ExperimentStatements(db: Db, sc: Scope, experiments: seq<int>, versions: seq<int>, forms: seq<int>)
    returns (bs: seq<Bound>)
    requires Lists(experiments, sc.experiments) && Lists(versions, sc.versions) && Lists(forms, sc.forms)
    ensures AllBound(bs)
    ensures AnyHits(db, bs) <==> ExperimentShared(db, sc)
  {
    bs := [];
    if experiments != [] {
      var current := InOutside(Versions, ExperimentId, experiments, Id, versions);
      var best := InOutside(Versions, BestExperimentId, experiments, Id, versions);
      var form := InOutside(Forms, ExperimentId, experiments, Id, forms);
      bs := [current, best, form];
      InOutsideKeyMeaning(db, Versions, ExperimentId, experiments, sc.experiments, versions, sc.versions);
      InOutsideKeyMeaning(db, Versions, BestExperimentId, experiments, sc.experiments, versions, sc.versions);
      InOutsideKeyMeaning(db, Forms, ExperimentId, experiments, sc.experiments, forms, sc.forms);
      AnyHitsThree(db, current, best, form);
    } else {
      assert sc.experiments == {};
    }
  }

  method VersionStatements(db: Db, sc: Scope, versions: seq<int>, forms: seq<int>, experiments: seq<int>)
    returns (bs: seq<Bound>)
    requires Lists(versions, sc.versions) && Lists(forms, sc.forms) && Lists(experiments, sc.experiments)
    ensures AllBound(bs)
    ensures AnyHits(db, bs) <==> VersionShared(db, sc)
  {
    bs := [];
    if versions != [] {
      assert versions[0] in sc.versions;
      var form := InOutside(Forms, VersionId, versions, Id, forms);
      var feedback := FeedbackStatement(forms, EitherVersion(versions), versions + versions);
      bs := [form] + [feedback];
      InOutsideKeyMeaning(db, Forms, VersionId, versions, sc.versions, forms, sc.forms);
      FeedbackVersionMeaning(db, forms, sc.forms, versions, sc.versions);
      AnyHitsAppend(db, [form], [feedback]);
      AnyHitsOne(db, form);
      AnyHitsOne(db, feedback);
      if experiments != [] {
        FeedbackExperimentMeaning(db, forms, sc.forms, experiments, sc.experiments);
        var next := FeedbackStatement(forms, In(NextExperimentId, |experiments|), experiments);
        AnyHitsAppend(db, bs, [next]);
        AnyHitsOne(db, next);
        bs := bs + [next];
      } else {
        assert sc.experiments == {};
      }
    } else {
      assert sc.versions == {};
    }
  }

  method MetricStatements(db: Db, sc: Scope, metrics: seq<int>, experiments: seq<int>) returns (bs: seq<Bound>)
    requires Lists(metrics, sc.metrics) && Lists(experiments, sc.experiments)
    ensures AllBound(bs)
    ensures AnyHits(db, bs) <==> MetricShared(db, sc)
  {
    bs := [];
    if metrics != [] {
      var pointer := InOutside(Experiments, MetricsId, metrics, Id, experiments);
      bs := [pointer];
      InOutsideKeyMeaning(db, Experiments, MetricsId, metrics, sc.metrics, experiments, sc.experiments);
      AnyHitsOne(db, pointer);
    } else {
      assert sc.metrics == {};
    }
  }

  /** The database's answer to the joined query: does it return a row at all? */
  method FetchOne(db: Db, query: seq<Select>, params: seq<int>) returns (found: bool)
    requires |params| == QueryHoles(query)
    ensures found == UnionHits(db, query, params)
  {
    found := UnionHits(db, query, params);
  }

  /** `_has_external_references`. */
  method HasExternalReferences(db: Db, sc: Scope) returns (found: bool)
    ensures found <==> ExternallyReferenced(db, sc)
  {
    var pools := Listed(sc.pools);
    var versions := Listed(sc.versions);
    var forms := Listed(sc.forms);
    var subFactors := Listed(sc.subFactors);
    var registrations := Listed(sc.registrations);
    var experiments := Listed(sc.experiments);
    var metrics := Listed(sc.metrics);
    var factorPairs := Listed(sc.factorPairs);
    var parentPairs := Listed(sc.parentPairs);

    var statements := PoolStatements(db, sc, pools, versions, forms);
    var more := SubFactorStatements(db, sc, subFactors, registrations, versions, forms, factorPairs, parentPairs);
    AnyHitsAppend(db, statements, more);
    statements := statements + more;
    more := ExperimentStatements(db, sc, experiments, versions, forms);
    AnyHitsAppend(db, statements, more);
    statements := statements + more;
    more := VersionStatements(db, sc, versions, forms, experiments);
    AnyHitsAppend(db, statements, more);
    statements := statements + more;
    more := MetricStatements(db, sc, metrics, experiments);
    AnyHitsAppend(db, statements, more);
    statements := statements + more;

    if statements == [] {
      return false;
    }
    UnionAllPreservesMeaning(db, statements);
    found := FetchOne(db, Selects(statements), Flatten(statements));
  }
}
