/** SQL conditions with `%s` holes, bound left to right from a flat parameter tuple, under SQL's three-valued
    logic.  The module proves that joining many parameterized SELECTs with UNION ALL and flattening their
    parameters keeps the meaning of each SELECT on its own parameters. */
module Sql {
  import opened Schema

  datatype Truth = True | False | Unknown

  /** A WHERE condition.  `In(c, k)` is `c IN (%s, ..., %s)` with `k` holes and `Equals(c)` is `c = %s`. */
  datatype Cond =
    | Always
    | In(column: Column, holes: nat)
    | Equals(column: Column)
    | IsNull(column: Column)
    | Not(inner: Cond)
    | And(left: Cond, right: Cond)
    | Or(left: Cond, right: Cond)

  /** How many parameters a condition consumes. */
  function Holes(c: Cond): nat {
    match c
    case Always => 0
    case In(_, k) => k
    case Equals(_) => 1
    case IsNull(_) => 0
    case Not(d) => Holes(d)
    case And(a, b) => Holes(a) + Holes(b)
    case Or(a, b) => Holes(a) + Holes(b)
  }

  function NotIn(column: Column, holes: nat): (c: Cond)
    ensures Holes(c) == holes
  {
    Not(In(column, holes))
  }

  function NullOrNotIn(column: Column, holes: nat): (c: Cond)
    ensures Holes(c) == holes
  {
    Or(IsNull(column), NotIn(column, holes))
  }

  function Negate(t: Truth): Truth {
    match t
    case True => False
    case False => True
    case Unknown => Unknown
  }

  function Both(a: Truth, b: Truth): Truth {
    if a.False? || b.False? then False else if a.True? && b.True? then True else Unknown
  }

  function Either(a: Truth, b: Truth): Truth {
    if a.True? || b.True? then True else if a.False? && b.False? then False else Unknown
  }

  /** Comparing a cell with integers: NULL gives UNKNOWN, text matches no integer. */
  function Membership(v: Value, params: seq<int>): Truth {
    match v
    case Null => if params == [] then False else Unknown
    case Int(n) => if n in params then True else False
    case Text(_) => False
  }

  function Eval(c: Cond, id: int, row: Row, params: seq<int>): Truth
    requires |params| == Holes(c)
  {
    match c
    case Always => True
    case In(col, _) => Membership(Cell(id, row, col), params)
    case Equals(col) => Membership(Cell(id, row, col), params)
    case IsNull(col) => if Cell(id, row, col).Null? then True else False
    case Not(d) => Negate(Eval(d, id, row, params))
    case And(a, b) => Both(Eval(a, id, row, params[..Holes(a)]), Eval(b, id, row, params[Holes(a)..]))
    case Or(a, b) => Either(Eval(a, id, row, params[..Holes(a)]), Eval(b, id, row, params[Holes(a)..]))
  }

  /** `SELECT 1 FROM table WHERE where`, still with holes. */
  datatype Select = Select(table: Table, where: Cond)

  /** One entry of the statement list: a SELECT and the parameters written next to it. */
  datatype Bound = Bound(select: Select, params: seq<int>)

  predicate WellBound(b: Bound) {
    |b.params| == Holes(b.select.where)
  }

  /** The SELECT returns at least one row. */
  predicate Hits(db: Db, s: Select, params: seq<int>)
    requires |params| == Holes(s.where)
  {
    exists id :: id in Rows(db, s.table) && Eval(s.where, id, Rows(db, s.table)[id], params) == True
  }

  predicate BoundHits(db: Db, b: Bound) {
    WellBound(b) && Hits(db, b.select, b.params)
  }

  /** Joining the statement texts with UNION ALL; the joined text no longer knows its parameters. */
  function Selects(bs: seq<Bound>): (r: seq<Select>)
    ensures |r| == |bs|
  {
    if bs == [] then [] else [bs[0].select] + Selects(bs[1..])
  }

  function Flatten(bs: seq<Bound>): seq<int> {
    if bs == [] then [] else bs[0].params + Flatten(bs[1..])
  }

  function QueryHoles(q: seq<Select>): nat {
    if q == [] then 0 else Holes(q[0].where) + QueryHoles(q[1..])
  }

  /** The joined query returns a row; parameters are consumed from left to right. */
  predicate UnionHits(db: Db, q: seq<Select>, params: seq<int>)
    requires |params| == QueryHoles(q)
  {
    if q == [] then false
    else
      var k := Holes(q[0].where);
      Hits(db, q[0], params[..k]) || UnionHits(db, q[1..], params[k..])
  }

  lemma {:induction false} FlattenFillsHoles(bs: seq<Bound>)
    requires forall b :: b in bs ==> WellBound(b)
    ensures |Flatten(bs)| == QueryHoles(Selects(bs))
  {
    if bs == [] {
    } else {
      assert WellBound(bs[0]);
      assert Selects(bs)[1..] == Selects(bs[1..]);
      FlattenFillsHoles(bs[1..]);
    }
  }

  /** The assembled query on the flattened tuple finds a row exactly when some statement does on its own tuple. */
  lemma {:induction false} UnionAllPreservesMeaning(db: Db, bs: seq<Bound>)
    requires forall b :: b in bs ==> WellBound(b)
    ensures |Flatten(bs)| == QueryHoles(Selects(bs))
    ensures UnionHits(db, Selects(bs), Flatten(bs)) <==> exists b :: b in bs && BoundHits(db, b)
  {
    FlattenFillsHoles(bs);
    if bs == [] {
    } else {
      var head, rest := bs[0], bs[1..];
      assert WellBound(head);
      assert Selects(bs)[1..] == Selects(rest);
      assert Flatten(bs)[..|head.params|] == head.params;
      assert Flatten(bs)[|head.params|..] == Flatten(rest);
      UnionAllPreservesMeaning(db, rest);
      assert UnionHits(db, Selects(bs), Flatten(bs))
          == (BoundHits(db, head) || UnionHits(db, Selects(rest), Flatten(rest)));
      assert forall b :: b in bs <==> b == head || b in rest;
    }
  }

  /** `(a = %s AND b = %s) OR ...`, one conjunction for each of `k` pairs. */
  function AnyPair(a: Column, b: Column, k: nat): (c: Cond)
    requires k > 0
    ensures Holes(c) == 2 * k
  {
    if k == 1 then And(Equals(a), Equals(b)) else Or(And(Equals(a), Equals(b)), AnyPair(a, b, k - 1))
  }

  /** `_relation_not_in_predicate`: a constant for no pair, otherwise the negated disjunction. */
  function PairNotIn(a: Column, b: Column, k: nat): (c: Cond)
    ensures Holes(c) == 2 * k
  {
    if k == 0 then Always else Not(AnyPair(a, b, k))
  }

  /** `_relation_wholeparameters` on the pairs in the order they are written. */
  function FlattenPairs(pairs: seq<(int, int)>): (r: seq<int>)
    ensures |r| == 2 * |pairs|
  {
    if pairs == [] then [] else [pairs[0].0, pairs[0].1] + FlattenPairs(pairs[1..])
  }

  /** The pair differs from the two cells, provably so under three-valued logic. */
  predicate Differs(a: Column, b: Column, id: int, row: Row, pair: (int, int)) {
    || (!Cell(id, row, a).Null? && Cell(id, row, a) != Int(pair.0))
    || (!Cell(id, row, b).Null? && Cell(id, row, b) != Int(pair.1))
  }

  lemma OnePairMeaning(a: Column, b: Column, pair: (int, int), id: int, row: Row)
    ensures Eval(And(Equals(a), Equals(b)), id, row, [pair.0, pair.1]) == False <==> Differs(a, b, id, row, pair)
  {
    var params := [pair.0, pair.1];
    assert params[..1] == [pair.0] && params[1..] == [pair.1];
  }

  lemma EvalOr(c: Cond, d: Cond, id: int, row: Row, params: seq<int>, more: seq<int>)
    requires |params| == Holes(c) && |more| == Holes(d)
    ensures Eval(Or(c, d), id, row, params + more) == False
            <==> Eval(c, id, row, params) == False && Eval(d, id, row, more) == False
  {
    assert (params + more)[..Holes(c)] == params && (params + more)[Holes(c)..] == more;
  }

  /** One more disjunct in front. */
  lemma AnyPairStep(a: Column, b: Column, pair: (int, int), others: Cond, params: seq<int>, id: int, row: Row)
    requires |params| == Holes(others)
    ensures Eval(Or(And(Equals(a), Equals(b)), others), id, row, [pair.0, pair.1] + params) == False
            <==> Differs(a, b, id, row, pair) && Eval(others, id, row, params) == False
  {
    OnePairMeaning(a, b, pair, id, row);
    EvalOr(And(Equals(a), Equals(b)), others, id, row, [pair.0, pair.1], params);
  }

  lemma {:induction false} AnyPairMeaning(a: Column, b: Column, pairs: seq<(int, int)>, id: int, row: Row)
    requires pairs != []
    ensures Eval(AnyPair(a, b, |pairs|), id, row, FlattenPairs(pairs)) == False
            <==> (forall p :: p in pairs ==> Differs(a, b, id, row, p))
  {
    var rest := pairs[1..];
    if rest == [] {
      OnePairMeaning(a, b, pairs[0], id, row);
      assert FlattenPairs(pairs) == [pairs[0].0, pairs[0].1];
      assert pairs == [pairs[0]];
    } else {
      AnyPairMeaning(a, b, rest, id, row);
      AnyPairStep(a, b, pairs[0], AnyPair(a, b, |rest|), FlattenPairs(rest), id, row);
      assert forall p :: p in pairs <==> p == pairs[0] || p in rest;
    }
  }

  lemma EvalNot(c: Cond, negated: Cond, id: int, row: Row, params: seq<int>)
    requires negated == Not(c) && |params| == Holes(c)
    ensures Eval(negated, id, row, params) == Negate(Eval(c, id, row, params))
  {
  }

  lemma SomePairs(a: Column, b: Column, any: Cond, pairs: seq<(int, int)>, id: int, row: Row)
    requires pairs != [] && any == AnyPair(a, b, |pairs|)
    ensures Eval(Not(any), id, row, FlattenPairs(pairs)) == True
            <==> (forall p :: p in pairs ==> Differs(a, b, id, row, p))
  {
    AnyPairMeaning(a, b, pairs, id, row);
    EvalNot(any, Not(any), id, row, FlattenPairs(pairs));
  }

  /** The assembled predicate, with the flattened pairs as parameters, is true exactly of the rows that differ from
      every pair. */
  lemma PairPredicateMeaning(a: Column, b: Column, pairs: seq<(int, int)>, id: int, row: Row)
    ensures Eval(PairNotIn(a, b, |pairs|), id, row, FlattenPairs(pairs)) == True
            <==> (forall p :: p in pairs ==> Differs(a, b, id, row, p))
  {
    var whole := PairNotIn(a, b, |pairs|);
    if pairs == [] {
      assert whole == Always;
    } else {
      assert whole == Not(AnyPair(a, b, |pairs|));
      SomePairs(a, b, AnyPair(a, b, |pairs|), pairs, id, row);
    }
  }

  /** On a row whose two columns are integers, differing from every pair is set non-membership. */
  lemma DiffersIsNonMembership(a: Column, b: Column, pairs: seq<(int, int)>, id: int, row: Row)
    requires Cell(id, row, a).Int? && Cell(id, row, b).Int?
    ensures (forall p :: p in pairs ==> Differs(a, b, id, row, p))
            <==> (Cell(id, row, a).n, Cell(id, row, b).n) !in pairs
  {
    var own := (Cell(id, row, a).n, Cell(id, row, b).n);
    assert !Differs(a, b, id, row, own);
    forall p | p in pairs && p != own
      ensures Differs(a, b, id, row, p)
    {
      assert p.0 != own.0 || p.1 != own.1;
    }
  }
}
