/** `turnover_series`: the sum of absolute weight changes from one book to the next, the first one from nothing. */
module Turnover {
  import opened Positions
  import opened RealOrder

  // ---- Sums over sets of assets ----

  ghost function SumOver(s: set<string>, f: string -> real): real {
    if s == {} then 0.0
    else
      var a :| a in s;
      f(a) + SumOver(s - {a}, f)
  }

  /** Any element can be taken out first. */
  lemma {:induction false} SumRemove(s: set<string>, f: string -> real, x: string)
    requires x in s
    ensures SumOver(s, f) == f(x) + SumOver(s - {x}, f)
  {
    var a :| a in s && SumOver(s, f) == f(a) + SumOver(s - {a}, f);
    if a == x {
    } else {
      SumRemove(s - {a}, f, x);
      SumRemove(s - {x}, f, a);
      assert s - {a} - {x} == s - {x} - {a};
    }
  }

  /** Assets where `f` is zero do not matter. */
  lemma {:induction false} SumExtend(s: set<string>, all: set<string>, f: string -> real)
    requires s <= all && forall a :: a in all && a !in s ==> f(a) == 0.0
    ensures SumOver(all, f) == SumOver(s, f)
    decreases |all|
  {
    if all == s {
    } else {
      var x :| x in all && x !in s;
      SumRemove(all, f, x);
      SumExtend(s, all - {x}, f);
    }
  }

  lemma {:induction false} SumBelow(s: set<string>, f: string -> real, g: string -> real, h: string -> real)
    requires forall a :: a in s ==> f(a) <= g(a) + h(a)
    ensures SumOver(s, f) <= SumOver(s, g) + SumOver(s, h)
  {
    if s == {} {
    } else {
      var x :| x in s;
      SumRemove(s, f, x);
      SumRemove(s, g, x);
      SumRemove(s, h, x);
      SumBelow(s - {x}, f, g, h);
    }
  }

  lemma {:induction false} SumNonNegative(s: set<string>, f: string -> real)
    requires forall a :: a in s ==> f(a) >= 0.0
    ensures SumOver(s, f) >= 0.0
  {
    if s == {} {
    } else {
      var x :| x in s;
      SumRemove(s, f, x);
      SumNonNegative(s - {x}, f);
    }
  }

  function AssetsOf(ranking: seq<Factor>): set<string> {
    set i | 0 <= i < |ranking| :: ranking[i].asset
  }

  /** Along distinct assets the sum over the set is the sum along the sequence. */
  lemma LastAsset(ranking: seq<Factor>)
    requires DistinctAssets(ranking) && ranking != []
    ensures DistinctAssets(ranking[..|ranking| - 1])
    ensures ranking[|ranking| - 1].asset in AssetsOf(ranking)
    ensures AssetsOf(ranking) - {ranking[|ranking| - 1].asset} == AssetsOf(ranking[..|ranking| - 1])
  {
  }

  lemma {:induction false} SumAlong(ranking: seq<Factor>, f: string -> real, values: seq<real>)
    requires DistinctAssets(ranking) && |values| == |ranking|
    requires forall i :: 0 <= i < |ranking| ==> values[i] == f(ranking[i].asset)
    ensures SumOver(AssetsOf(ranking), f) == Sum(values)
  {
    if ranking == [] {
      assert AssetsOf(ranking) == {};
    } else {
      var rest, last := ranking[..|ranking| - 1], ranking[|ranking| - 1].asset;
      LastAsset(ranking);
      SumAlong(rest, f, values[..|values| - 1]);
      SumRemove(AssetsOf(ranking), f, last);
    }
  }

  // ---- Books ----

  /** `book.get(asset, 0)` */
  function WeightOf(book: Book, asset: string): real {
    if asset in book then book[asset] else 0.0
  }

  function Size(book: Book): string -> real {
    a => Abs(WeightOf(book, a))
  }

  function Change(from: Book, to: Book): string -> real {
    a => Abs(WeightOf(to, a) - WeightOf(from, a))
  }

  ghost function Gross(book: Book): real {
    SumOver(book.Keys, Size(book))
  }

  ghost function Exposure(book: Book): real {
    SumOver(book.Keys, (a: string) => WeightOf(book, a))
  }

  ghost function Distance(from: Book, to: Book): real {
    SumOver(from.Keys + to.Keys, Change(from, to))
  }

  /** A book of positions has no net exposure and a gross exposure of exactly two. */
  lemma BookWeights(ranking: seq<Factor>, direction: int, book: Book)
    requires DistinctAssets(ranking) && |ranking| >= 5 && IsBookOf(ranking, direction, book)
    ensures book.Keys == AssetsOf(ranking)
    ensures |Weights(|ranking|, direction)| == |ranking|
    ensures forall i :: 0 <= i < |ranking| ==> Weights(|ranking|, direction)[i] == WeightOf(book, ranking[i].asset)
  {
    assert forall a :: a in book.Keys <==> a in AssetsOf(ranking);
  }

  lemma PositionsBalance(ranking: seq<Factor>, direction: int, book: Book)
    requires DistinctAssets(ranking) && |ranking| >= 5 && (direction == -1 || direction == 1)
    requires IsBookOf(ranking, direction, book)
    ensures Exposure(book) == 0.0 && Gross(book) == 2.0
  {
    WeightsBalance(|ranking|, direction);
    BookWeights(ranking, direction, book);
    var weights := Weights(|ranking|, direction);
    SumAlong(ranking, (a: string) => WeightOf(book, a), weights);
    SumAlong(ranking, Size(book), Absolute(weights));
  }

  lemma TriangleUp(from: Book, to: Book)
    ensures Distance(from, to) <= Gross(from) + Gross(to)
  {
    var all := from.Keys + to.Keys;
    SumBelow(all, Change(from, to), Size(from), Size(to));
    SumExtend(from.Keys, all, Size(from));
    SumExtend(to.Keys, all, Size(to));
  }

  lemma TriangleDown(from: Book, to: Book)
    ensures Gross(to) <= Gross(from) + Distance(from, to)
  {
    var all := from.Keys + to.Keys;
    SumBelow(all, Size(to), Size(from), Change(from, to));
    SumExtend(from.Keys, all, Size(from));
    SumExtend(to.Keys, all, Size(to));
  }

  lemma OpeningDistance(book: Book)
    ensures Distance(map[], book) == Gross(book)
  {
    TriangleUp(map[], book);
    TriangleDown(map[], book);
    assert Gross(map[]) == 0.0;
  }

  // ---- The series ----

  function Previous(books: seq<Book>, k: nat): Book
    requires k <= |books|
  {
    if k == 0 then map[] else books[k - 1]
  }

  ghost function Turnovers(books: seq<Book>): seq<real> {
    seq(|books|, k requires 0 <= k < |books| => Distance(Previous(books, k), books[k]))
  }

  method SumSet(assets: set<string>, f: string -> real) returns (r: real)
    ensures r == SumOver(assets, f)
  {
    r := 0.0;
    var rest := assets;
    while rest != {}
      invariant rest <= assets && SumOver(assets, f) == r + SumOver(rest, f)
      decreases |rest|
    {
      var a :| a in rest;
      SumRemove(rest, f, a);
      r := r + f(a);
      rest := rest - {a};
    }
  }

  /** `turnover_series` */
  method TurnoverSeries(books: seq<Book>) returns (r: seq<real>)
    ensures r == Turnovers(books)
  {
    r := [];
    var previous: Book := map[];
    ghost var expected := Turnovers(books);
    for k := 0 to |books|
      invariant previous == Previous(books, k) && r == expected[..k]
    {
      var current := books[k];
      var changed := SumSet(previous.Keys + current.Keys, Change(previous, current));
      assert expected[k] == Distance(previous, current);
      r := r + [changed];
      previous := current;
    }
  }

  /** Over any books, the total turnover pays at least for the last one. */
  lemma TurnoversSnoc(books: seq<Book>)
    requires books != []
    ensures Sum(Turnovers(books))
         == Sum(Turnovers(books[..|books| - 1])) + Distance(Previous(books, |books| - 1), books[|books| - 1])
  {
    assert Turnovers(books)[..|books| - 1] == Turnovers(books[..|books| - 1]);
  }

  lemma {:induction false} TotalCoversLastBook(books: seq<Book>)
    ensures Gross(Previous(books, |books|)) <= Sum(Turnovers(books))
  {
    if books == [] {
      assert Gross(map[]) == 0.0;
    } else {
      var before := books[..|books| - 1];
      TotalCoversLastBook(before);
      TurnoversSnoc(books);
      TriangleDown(Previous(books, |books| - 1), books[|books| - 1]);
    }
  }

  /** Over books with gross exposure two, turnover starts at two and stays between zero and four. */
  lemma TurnoverBounds(books: seq<Book>, k: nat)
    requires k < |books| && forall i :: 0 <= i < |books| ==> Gross(books[i]) == 2.0
    ensures 0.0 <= Turnovers(books)[k] <= 4.0
    ensures Turnovers(books)[0] == 2.0
  {
    OpeningDistance(books[0]);
    var from, to := Previous(books, k), books[k];
    SumNonNegative(from.Keys + to.Keys, Change(from, to));
    TriangleUp(from, to);
    assert Gross(map[]) == 0.0;
  }
}
