/** `cross_sectional_positions` and `turnover_series`: long and short tails of a ranking, and what rebalancing costs. */
module Positions {
  import opened Outcomes
  import opened StableSort
  import opened RealOrder

  /** A factor value of an asset; None when it is not finite. */
  datatype Factor = Factor(asset: string, value: Option<real>)

  type Book = map<string, real>

  datatype Answer = InvalidInput | NoSpread | Positions(book: Book)

  // ---- Sums over sequences ----

  function Repeat(x: real, n: nat): seq<real> {
    seq(n, i => x)
  }

  lemma {:induction false} SumAppend(a: seq<real>, b: seq<real>)
    ensures Sum(a + b) == Sum(a) + Sum(b)
  {
    if b == [] {
      assert a + b == a;
    } else {
      assert (a + b)[..|a + b| - 1] == a + b[..|b| - 1];
      SumAppend(a, b[..|b| - 1]);
    }
  }

  lemma {:induction false} SumRepeat(x: real, n: nat)
    ensures Sum(Repeat(x, n)) == n as real * x
  {
    if n == 0 {
    } else {
      assert Repeat(x, n)[..n - 1] == Repeat(x, n - 1);
      SumRepeat(x, n - 1);
      assert (n - 1) as real * x + x == n as real * x;
    }
  }

  // ---- Positions ----

  /** Size of each tail: the ceiling of a fifth. */
  function TailSize(n: nat): nat {
    (n + 4) / 5
  }

  predicate Before(a: Factor, b: Factor) {
    a.value.Some? && b.value.Some? && a.value.value < b.value.value
  }

  function ByValue(): (Factor, Factor) -> bool {
    (a, b) => Before(a, b)
  }

  function Ranking(factors: seq<Factor>): seq<Factor> {
    SortBy(ByValue(), factors)
  }

  predicate AllFinite(factors: seq<Factor>) {
    forall i :: 0 <= i < |factors| ==> factors[i].value.Some?
  }

  predicate DistinctAssets(factors: seq<Factor>) {
    forall i, j :: 0 <= i < j < |factors| ==> factors[i].asset != factors[j].asset
  }

  predicate AllEqual(factors: seq<Factor>) {
    forall i, j :: 0 <= i < j < |factors| ==> factors[i].value == factors[j].value
  }

  predicate ValidInput(factors: seq<Factor>, direction: int) {
    (direction == -1 || direction == 1) && |factors| >= 5 && AllFinite(factors)
  }

  function UnitWeight(n: nat): real
    requires n >= 5
  {
    1.0 / TailSize(n) as real
  }

  function Lower(n: nat, direction: int): real
    requires n >= 5
  {
    -UnitWeight(n) * direction as real
  }

  function Upper(n: nat, direction: int): real
    requires n >= 5
  {
    UnitWeight(n) * direction as real
  }

  /** The weight of the asset with rank `i`: lower tail, upper tail, or nothing. */
  function Weight(n: nat, direction: int, i: nat): real
    requires n >= 5 && i < n
  {
    if i >= n - TailSize(n) then Upper(n, direction) else if i < TailSize(n) then Lower(n, direction) else 0.0
  }

  function Weights(n: nat, direction: int): seq<real>
    requires n >= 5
  {
    seq(n, i requires 0 <= i < n => Weight(n, direction, i))
  }

  /** A book over exactly the ranked assets with the weights of their ranks. */
  ghost predicate IsBookOf(ranking: seq<Factor>, direction: int, book: Book)
    requires |ranking| >= 5
  {
    (forall a :: a in book <==> exists i :: 0 <= i < |ranking| && ranking[i].asset == a)
    && forall i :: 0 <= i < |ranking| ==>
         ranking[i].asset in book && book[ranking[i].asset] == Weight(|ranking|, direction, i)
  }

  lemma TailsFit(n: nat)
    requires n >= 5
    ensures TailSize(n) >= 1 && 2 * TailSize(n) <= n
  {
  }

  lemma WeightPieces(n: nat, direction: int)
    requires n >= 5
    ensures
      var k := TailSize(n);
      2 * k <= n
      && Weights(n, direction)
         == Repeat(Lower(n, direction), k) + Repeat(0.0, n - 2 * k) + Repeat(Upper(n, direction), k)
  {
    TailsFit(n);
  }

  function Absolute(s: seq<real>): seq<real> {
    seq(|s|, i requires 0 <= i < |s| => if s[i] >= 0.0 then s[i] else -s[i])
  }

  lemma PiecesSum(x: real, y: real, k: nat, m: nat)
    ensures Sum(Repeat(x, k) + Repeat(0.0, m) + Repeat(y, k)) == k as real * x + k as real * y
  {
    SumRepeat(x, k);
    SumRepeat(0.0, m);
    SumRepeat(y, k);
    SumAppend(Repeat(x, k) + Repeat(0.0, m), Repeat(y, k));
    SumAppend(Repeat(x, k), Repeat(0.0, m));
  }

  lemma UnitShare(k: nat)
    requires k > 0
    ensures k as real * (1.0 / k as real) == 1.0 && 1.0 / k as real > 0.0
    ensures k as real * -(1.0 / k as real) == -1.0
  {
  }

  lemma AbsolutePieces(x: real, k: nat, m: nat)
    ensures
      var u := if x >= 0.0 then x else -x;
      Absolute(Repeat(-x, k) + Repeat(0.0, m) + Repeat(x, k)) == Repeat(u, k) + Repeat(0.0, m) + Repeat(u, k)
  {
  }

  lemma DirectedShare(n: nat, direction: int)
    requires n >= 5 && (direction == -1 || direction == 1)
    ensures Upper(n, direction) == if direction == 1 then UnitWeight(n) else -UnitWeight(n)
    ensures Lower(n, direction) == -Upper(n, direction)
  {
  }

  lemma BalancedPieces(u: real, w: real, k: nat, m: nat)
    requires u > 0.0 && k as real * u == 1.0 && k as real * -u == -1.0 && (w == u || w == -u)
    ensures
      var pieces := Repeat(-w, k) + Repeat(0.0, m) + Repeat(w, k);
      Sum(pieces) == 0.0 && Sum(Absolute(pieces)) == 2.0
  {
    PiecesSum(-w, w, k, m);
    AbsolutePieces(w, k, m);
    PiecesSum(u, u, k, m);
  }

  /** The weights sum to zero, and their absolute values to exactly two. */
  lemma WeightsBalance(n: nat, direction: int)
    requires n >= 5 && (direction == -1 || direction == 1)
    ensures Sum(Weights(n, direction)) == 0.0
    ensures Sum(Absolute(Weights(n, direction))) == 2.0
  {
    var k := TailSize(n);
    TailsFit(n);
    WeightPieces(n, direction);
    DirectedShare(n, direction);
    UnitShare(k);
    BalancedPieces(UnitWeight(n), Upper(n, direction), k, n - 2 * k);
  }

  /** Reversing the direction negates every weight. */
  lemma WeightReverses(n: nat, direction: int, i: nat)
    requires n >= 5 && i < n && (direction == -1 || direction == 1)
    ensures Weight(n, -direction, i) == -Weight(n, direction, i)
  {
    TailsFit(n);
    DirectedShare(n, direction);
    DirectedShare(n, -direction);
  }

  lemma RankingFacts(factors: seq<Factor>)
    requires AllFinite(factors)
    ensures |Ranking(factors)| == |factors| && multiset(Ranking(factors)) == multiset(factors)
    ensures AllFinite(Ranking(factors))
    ensures forall i, j :: 0 <= i < j < |factors| ==> Ranking(factors)[i].value.value <= Ranking(factors)[j].value.value
  {
    SortContents(ByValue(), factors);
    SortPermutes(ByValue(), factors);
    assert WeakOrder(ByValue(), factors);
    SortSorted(ByValue(), factors, factors);
    var ranking := Ranking(factors);
    forall i | 0 <= i < |ranking|
      ensures ranking[i].value.Some?
    {
      assert ranking[i] in ranking;
      var k :| 0 <= k < |factors| && factors[k] == ranking[i];
    }
    forall i, j | 0 <= i < j < |factors|
      ensures ranking[i].value.value <= ranking[j].value.value
    {
      assert !ByValue()(ranking[j], ranking[i]);
    }
  }

  /** An asset is in the long tail of a ranking when it is among its last `TailSize` places. */
  predicate InTopTail(ranking: seq<Factor>, i: nat) {
    |ranking| >= 5 && |ranking| - TailSize(|ranking|) <= i < |ranking|
  }

  /** No asset of the upper tail has a lower factor than one outside it. */
  lemma TailIsTop(factors: seq<Factor>, i: nat, j: nat)
    requires AllFinite(factors) && |factors| >= 5 && j < |Ranking(factors)|
    requires InTopTail(Ranking(factors), i) && !InTopTail(Ranking(factors), j)
    ensures Ranking(factors)[j].value.Some? && Ranking(factors)[i].value.Some?
    ensures Ranking(factors)[j].value.value <= Ranking(factors)[i].value.value
  {
    RankingFacts(factors);
  }

  lemma {:induction false} DistinctFromMultiset(a: seq<Factor>, b: seq<Factor>)
    requires DistinctAssets(a) && multiset(a) == multiset(b) && |a| == |b|
    ensures DistinctAssets(b)
  {
    forall i, j | 0 <= i < j < |b|
      ensures b[i].asset != b[j].asset
    {
      assert b[i] in multiset(b) && b[j] in multiset(b);
      var k :| 0 <= k < |a| && a[k] == b[i];
      var l :| 0 <= l < |a| && a[l] == b[j];
      if b[i].asset == b[j].asset {
        assert k == l;
        TwiceMeansTwo(b, i, j);
        TwoMeansTwice(a, b[i]);
        assert false;
      }
    }
  }

  lemma TwiceMeansTwo(s: seq<Factor>, i: nat, j: nat)
    requires i < j < |s| && s[i] == s[j]
    ensures multiset(s)[s[i]] >= 2
  {
    assert s == s[..i] + [s[i]] + s[i + 1..j] + [s[j]] + s[j + 1..];
  }

  lemma {:induction false} TwoMeansTwice(s: seq<Factor>, x: Factor)
    requires multiset(s)[x] >= 2
    ensures exists i, j :: 0 <= i < j < |s| && s[i] == x && s[j] == x
  {
    var rest, last := s[..|s| - 1], s[|s| - 1];
    assert s == rest + [last];
    if last == x {
      assert x in multiset(rest);
      var i :| 0 <= i < |rest| && rest[i] == x;
      assert s[i] == x && s[|s| - 1] == x;
    } else {
      TwoMeansTwice(rest, x);
      var i, j :| 0 <= i < j < |rest| && rest[i] == x && rest[j] == x;
      assert s[i] == x && s[j] == x;
    }
  }

  /** One of the loops over a tail. */
  method Assign(ordered: seq<Factor>, lo: nat, hi: nat, weight: real, before: Book) returns (book: Book)
    requires DistinctAssets(ordered) && lo <= hi <= |ordered|
    requires forall i :: 0 <= i < |ordered| ==> ordered[i].asset in before
    ensures book.Keys == before.Keys
    ensures forall i :: 0 <= i < |ordered| ==>
      book[ordered[i].asset] == if lo <= i < hi then weight else before[ordered[i].asset]
  {
    book := before;
    for k := lo to hi
      invariant book.Keys == before.Keys
      invariant forall i :: 0 <= i < |ordered| ==>
        book[ordered[i].asset] == if lo <= i < k then weight else before[ordered[i].asset]
    {
      book := book[ordered[k].asset := weight];
    }
  }

  /** The loops over both tails. */
  /** Lower tail, middle and upper tail carry the weights of their ranks. */
  lemma TailsFilled(ordered: seq<Factor>, direction: int, book: Book)
    requires |ordered| >= 5 && book.Keys == set i | 0 <= i < |ordered| :: ordered[i].asset
    requires forall i :: 0 <= i < |ordered| ==>
               book[ordered[i].asset] == if |ordered| - TailSize(|ordered|) <= i then Upper(|ordered|, direction)
                                         else if i < TailSize(|ordered|) then Lower(|ordered|, direction) else 0.0
    ensures IsBookOf(ordered, direction, book)
  {
    TailsFit(|ordered|);
    assert forall a :: a in book <==> a in book.Keys;
  }

  /** Every asset at weight zero. */
  function FlatBook(ordered: seq<Factor>): (book: Book)
    ensures book.Keys == set i | 0 <= i < |ordered| :: ordered[i].asset
    ensures forall i :: 0 <= i < |ordered| ==> book[ordered[i].asset] == 0.0
  {
    map i | 0 <= i < |ordered| :: ordered[i].asset := 0.0
  }

  method FillTails(ordered: seq<Factor>, direction: int) returns (book: Book)
    requires DistinctAssets(ordered) && |ordered| >= 5
    ensures IsBookOf(ordered, direction, book)
  {
    var n, count := |ordered|, TailSize(|ordered|);
    TailsFit(n);
    book := FlatBook(ordered);
    book := Assign(ordered, 0, count, Lower(n, direction), book);
    book := Assign(ordered, n - count, n, Upper(n, direction), book);
    TailsFilled(ordered, direction, book);
  }

  /** `cross_sectional_positions` */
  method CrossSectionalPositions(factors: seq<Factor>, direction: int) returns (r: Answer)
    requires DistinctAssets(factors)
    ensures r.InvalidInput? <==> !ValidInput(factors, direction)
    ensures r.NoSpread? <==> ValidInput(factors, direction) && AllEqual(factors)
    ensures r.Positions? ==> |Ranking(factors)| == |factors| >= 5 && IsBookOf(Ranking(factors), direction, r.book)
  {
    if !ValidInput(factors, direction) {
      return InvalidInput;
    }
    if AllEqual(factors) {
      return NoSpread;
    }
    RankingFacts(factors);
    DistinctFromMultiset(factors, Ranking(factors));
    var book := FillTails(Ranking(factors), direction);
    return Positions(book);
  }
}
