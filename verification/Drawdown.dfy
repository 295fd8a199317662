/** Net returns, equity and maximum drawdown.  Decimals are exact reals; a Decimal that is not finite is None, and so is
    the result of a call that raises ValueError. */
module Drawdown {
  import opened Outcomes
  import opened RealOrder

  type Number = Option<real>

  predicate AllFinite(s: seq<Number>) {
    forall i :: 0 <= i < |s| ==> s[i].Some?
  }

  predicate AllFiniteNonNegative(s: seq<Number>) {
    forall i :: 0 <= i < |s| ==> s[i].Some? && s[i].value >= 0.0
  }

  function Values(s: seq<Number>): seq<real>
    requires AllFinite(s)
  {
    seq(|s|, i requires 0 <= i < |s| => s[i].value)
  }

  // ---- Definitions ----

  function Net(gross: seq<real>, turnover: seq<real>, cost: real): seq<real>
    requires |gross| == |turnover|
  {
    seq(|gross|, i requires 0 <= i < |gross| => gross[i] - turnover[i] * cost)
  }

  function Factor(r: real): real {
    Max(0.0, 1.0 + r)
  }

  /** What one unit becomes from period `i` up to but not including period `j`. */
  function Growth(net: seq<real>, i: nat, j: nat): (r: real)
    requires i <= j <= |net|
    ensures r >= 0.0
    decreases j - i
  {
    if i == j then 1.0
    else
      var before := Growth(net, i, j - 1);
      NonNegativeProduct(before, Factor(net[j - 1]));
      before * Factor(net[j - 1])
  }

  lemma NonNegativeProduct(a: real, b: real)
    requires a >= 0.0 && b >= 0.0
    ensures a * b >= 0.0
  {
  }

  /** Capital after each period, starting from one. */
  function Equity(net: seq<real>): seq<real> {
    seq(|net|, i requires 0 <= i < |net| => Growth(net, 0, i + 1))
  }

  /** Initial capital followed by the equity points. */
  function Path(equity: seq<real>): seq<real> {
    [1.0] + equity
  }

  predicate NonNegative(path: seq<real>) {
    forall i :: 0 <= i < |path| ==> path[i] >= 0.0
  }

  function Fall(from: real, to: real): real
    requires from > 0.0
  {
    (from - to) / from
  }

  /** An earlier point with positive capital, and a later or equal one. */
  predicate Pair(path: seq<real>, i: int, j: int) {
    0 <= i <= j < |path| && path[i] > 0.0
  }

  /** `d` is the largest relative fall from an earlier point to a later one. */
  ghost predicate LargestFall(path: seq<real>, d: real) {
    (exists i, j :: Pair(path, i, j) && d == Fall(path[i], path[j]))
    && forall i, j :: Pair(path, i, j) ==> Fall(path[i], path[j]) <= d
  }

  // ---- Programs ----

  /** Conservation: what the gross returns lose together is the cost of the whole turnover, wherever it was traded. */
  lemma {:induction false} CostsAreConserved(gross: seq<real>, turnover: seq<real>, cost: real)
    requires |gross| == |turnover|
    ensures Sum(gross) - Sum(Net(gross, turnover, cost)) == cost * Sum(turnover)
  {
    if gross == [] {
    } else {
      var n := |gross| - 1;
      var before, shorter := Net(gross, turnover, cost)[..n], Net(gross[..n], turnover[..n], cost);
      forall i | 0 <= i < n
        ensures before[i] == shorter[i]
      {
        assert gross[..n][i] == gross[i] && turnover[..n][i] == turnover[i];
      }
      assert before == shorter;
      CostsAreConserved(gross[..n], turnover[..n], cost);
      assert cost * (Sum(turnover[..n]) + turnover[n]) == cost * Sum(turnover[..n]) + turnover[n] * cost;
    }
  }

  predicate Aligned(gross: seq<Number>, turnover: seq<Number>, fee: Number, slippage: Number) {
    |gross| == |turnover| && AllFinite(gross) && AllFiniteNonNegative(turnover)
    && fee.Some? && fee.value >= 0.0 && slippage.Some? && slippage.value >= 0.0
  }

  /** What net returns mean: they lose together the cost of the whole turnover, are nowhere above the gross returns, and
      no higher cost would give more in any period. */
  ghost predicate PaysFor(gross: seq<real>, turnover: seq<real>, cost: real, net: seq<real>) {
    |gross| == |turnover| && Sum(gross) - Sum(net) == cost * Sum(turnover) && NowhereBetter(net, gross)
    && forall more {:trigger Net(gross, turnover, more)} ::
         more >= cost ==> NowhereBetter(Net(gross, turnover, more), net)
  }

  lemma NetPaysForTurnover(gross: seq<real>, turnover: seq<real>, cost: real)
    requires |gross| == |turnover| && NonNegative(turnover) && cost >= 0.0
    ensures PaysFor(gross, turnover, cost, Net(gross, turnover, cost))
  {
    CostsAreConserved(gross, turnover, cost);
    assert Net(gross, turnover, 0.0) == gross;
    NetFallsWithCost(gross, turnover, 0.0, cost);
    forall more | more >= cost
      ensures NowhereBetter(Net(gross, turnover, more), Net(gross, turnover, cost))
    {
      NetFallsWithCost(gross, turnover, cost, more);
    }
  }

  /** `net_returns` */
  method NetReturns(gross: seq<Number>, turnover: seq<Number>, fee: Number, slippage: Number)
      returns (r: Option<seq<real>>)
    ensures r.Some? <==> Aligned(gross, turnover, fee, slippage)
    ensures r.Some? ==> r.value == Net(Values(gross), Values(turnover), fee.value + slippage.value)
    ensures r.Some? ==> PaysFor(Values(gross), Values(turnover), fee.value + slippage.value, r.value)
  {
    if |gross| != |turnover| || !AllFinite(gross) || !AllFiniteNonNegative(turnover) {
      return None;
    }
    if fee.None? || fee.value < 0.0 || slippage.None? || slippage.value < 0.0 {
      return None;
    }
    NetPaysForTurnover(Values(gross), Values(turnover), fee.value + slippage.value);
    return Some(Net(Values(gross), Values(turnover), fee.value + slippage.value));
  }

  /** `equity_curve` */
  method EquityCurve(net: seq<Number>) returns (r: Option<seq<real>>)
    ensures r.Some? <==> AllFinite(net)
    ensures r.Some? ==> r.value == Equity(Values(net))
  {
    var value, points := 1.0, [];
    for k := 0 to |net|
      invariant AllFinite(net[..k]) && |points| == k
      invariant value == Growth(Values(net[..k]), 0, k)
      invariant forall i :: 0 <= i < k ==> points[i] == Growth(Values(net[..k]), 0, i + 1)
    {
      if net[k].None? {
        return None;
      }
      ghost var seen, next := Values(net[..k]), Values(net[..k + 1]);
      assert next == seen + [net[k].value];
      forall i | 0 <= i < k + 1
        ensures Growth(next, 0, i) == Growth(seen, 0, i)
      {
        GrowthPrefix(seen, [net[k].value], 0, i);
      }
      value := value * Max(0.0, 1.0 + net[k].value);
      points := points + [value];
    }
    assert net[..|net|] == net;
    return Some(points);
  }

  lemma {:induction false} GrowthPrefix(a: seq<real>, b: seq<real>, i: nat, j: nat)
    requires i <= j <= |a|
    ensures Growth(a + b, i, j) == Growth(a, i, j)
    decreases j - i
  {
    if i == j {
    } else {
      GrowthPrefix(a, b, i, j - 1);
      assert (a + b)[j - 1] == a[j - 1];
    }
  }

  lemma FallIsShare(from: real, to: real, share: real)
    requires from > 0.0 && share * from == to
    ensures Fall(from, to) == 1.0 - share
  {
    var f := Fall(from, to);
    assert f * from == from - to;
    assert (1.0 - share) * from == from - to;
    Ordered(f, 1.0 - share, from);
    Ordered(1.0 - share, f, from);
  }

  lemma ShareNonNegative(b: real, v: real, y: real)
    requires b > 0.0 && v >= 0.0 && y * b == v
    ensures y >= 0.0
  {
    Ordered(0.0, y, b);
  }

  lemma PartOfLess(a: real, b: real, v: real, y: real)
    requires 0.0 < a <= b && v >= 0.0 && y * b == v
    ensures y * a <= v
  {
    ShareNonNegative(b, v, y);
    ProductGrows(y, a, y, b);
  }

  lemma SmallerShare(a: real, b: real, v: real, x: real, y: real)
    requires 0.0 < a <= b && v >= 0.0 && x * a == v && y * b == v
    ensures y <= x
  {
    PartOfLess(a, b, v, y);
    Ordered(y, x, a);
  }

  /** A higher starting point falls at least as far to the same value. */
  lemma FallGrows(a: real, b: real, v: real)
    requires 0.0 < a <= b && v >= 0.0
    ensures Fall(a, v) <= Fall(b, v)
  {
    FallIsShare(a, v, v / a);
    FallIsShare(b, v, v / b);
    SmallerShare(a, b, v, v / a, v / b);
  }

  /** The running peak of the source is the value at `top`. */
  ghost predicate Summary(path: seq<real>, top: nat, peak: real, worst: real) {
    LargestFall(path, worst) && top < |path| && peak == path[top] >= 1.0
    && forall i :: 0 <= i < |path| ==> path[i] <= peak
  }

  /** `max_drawdown`: one pass with a running peak finds the largest fall over all pairs. */
  method MaxDrawdown(equity: seq<Number>) returns (r: Option<real>)
    ensures r.Some? <==> AllFiniteNonNegative(equity)
    ensures r.Some? ==> LargestFall(Path(Values(equity)), r.value)
  {
    var peak, worst := 1.0, 0.0;
    ghost var top, path := 0, [1.0];
    StartOfPath();
    for k := 0 to |equity|
      invariant AllFiniteNonNegative(equity[..k]) && path == Path(Values(equity[..k]))
      invariant Summary(path, top, peak, worst)
    {
      if equity[k].None? || equity[k].value < 0.0 {
        assert !AllFiniteNonNegative(equity);
        return None;
      }
      var value := equity[k].value;
      PathGrows(equity, k);
      top := NextPoint(path, value, top, peak, worst);
      path := path + [value];
      peak := Max(peak, value);
      if peak != 0.0 {
        worst := Max(worst, Fall(peak, value));
      }
    }
    assert equity[..|equity|] == equity;
    return Some(worst);
  }

  lemma PathGrows(equity: seq<Number>, k: nat)
    requires k < |equity| && AllFiniteNonNegative(equity[..k]) && equity[k].Some? && equity[k].value >= 0.0
    ensures AllFiniteNonNegative(equity[..k + 1])
    ensures Path(Values(equity[..k + 1])) == Path(Values(equity[..k])) + [equity[k].value]
  {
    assert Values(equity[..k + 1]) == Values(equity[..k]) + [equity[k].value];
  }

  lemma StartOfPath()
    ensures Summary([1.0], 0, 1.0, 0.0)
  {
    FallIsShare(1.0, 1.0, 1.0);
    assert Pair([1.0], 0, 0);
  }

  /** Adding a point: only falls from the peak can set a new record. */
  lemma NextPoint(path: seq<real>, value: real, top: nat, peak: real, worst: real) returns (top': nat)
    requires Summary(path, top, peak, worst) && value >= 0.0
    ensures Max(peak, value) > 0.0
    ensures Summary(path + [value], top', Max(peak, value), Max(worst, Fall(Max(peak, value), value)))
  {
    var next, last := path + [value], |path|;
    top' := if value > peak then last else top;
    assert next[last] == value && forall i :: 0 <= i < last ==> next[i] == path[i];
    assert next[top'] == Max(peak, value);
    NewRecord(path, value, top', worst);
  }

  lemma NewRecord(path: seq<real>, value: real, top: nat, worst: real)
    requires LargestFall(path, worst) && value >= 0.0 && top <= |path| && (path + [value])[top] > 0.0
    requires forall i :: 0 <= i <= |path| ==> (path + [value])[i] <= (path + [value])[top]
    ensures LargestFall(path + [value], Max(worst, Fall((path + [value])[top], value)))
  {
    var next, last := path + [value], |path|;
    var record := Fall(next[top], value);
    var i0, j0 :| Pair(path, i0, j0) && worst == Fall(path[i0], path[j0]);
    assert Pair(next, i0, j0) && Pair(next, top, last) && next[last] == value;
    forall i, j | Pair(next, i, j)
      ensures Fall(next[i], next[j]) <= Max(worst, record)
    {
      if j < last {
        assert Pair(path, i, j);
      } else {
        FallGrows(next[i], next[top], value);
      }
    }
  }

  // ---- Ruin ----

  lemma {:induction false} RuinMeans(net: seq<real>, i: nat, j: nat)
    requires i <= j <= |net|
    ensures Growth(net, i, j) == 0.0 <==> exists k :: i <= k < j && net[k] <= -1.0
    decreases j - i
  {
    if i == j {
    } else {
      RuinMeans(net, i, j - 1);
      if Growth(net, i, j - 1) != 0.0 && Factor(net[j - 1]) != 0.0 {
        assert Growth(net, i, j) > 0.0;
      }
    }
  }

  lemma PathPoints(net: seq<real>, i: nat)
    requires i <= |net|
    ensures Path(Equity(net))[i] == Growth(net, 0, i)
  {
  }

  lemma FullFall(from: real, to: real)
    requires from > 0.0 && to >= 0.0
    ensures Fall(from, to) <= 1.0 && (Fall(from, to) == 1.0 <==> to == 0.0)
  {
    var x := to / from;
    assert x * from == to;
    FallIsShare(from, to, x);
    assert x >= 0.0;
  }

  lemma PathNonNegative(net: seq<real>, i: nat)
    requires i <= |net|
    ensures Path(Equity(net))[i] >= 0.0 && Path(Equity(net))[0] == 1.0
  {
  }

  lemma FullFallMeansRuin(net: seq<real>, i: nat, j: nat)
    requires Pair(Path(Equity(net)), i, j)
    ensures Fall(Path(Equity(net))[i], Path(Equity(net))[j]) <= 1.0
    ensures Fall(Path(Equity(net))[i], Path(Equity(net))[j]) == 1.0 ==> exists k :: 0 <= k < |net| && net[k] <= -1.0
  {
    PathNonNegative(net, j);
    FullFall(Path(Equity(net))[i], Path(Equity(net))[j]);
    PathPoints(net, j);
    RuinMeans(net, 0, j);
  }

  lemma RuinMeansFullFall(net: seq<real>, k: nat)
    requires k < |net| && net[k] <= -1.0
    ensures Pair(Path(Equity(net)), 0, |net|) && Fall(Path(Equity(net))[0], Path(Equity(net))[|net|]) == 1.0
  {
    RuinMeans(net, 0, |net|);
    PathPoints(net, |net|);
    PathNonNegative(net, |net|);
    FullFall(Path(Equity(net))[0], Path(Equity(net))[|net|]);
  }

  /** The drawdown of an equity curve is at most 1, and 1 exactly when some net return wipes out the capital. */
  lemma RuinIsFullDrawdown(net: seq<real>, d: real)
    requires LargestFall(Path(Equity(net)), d)
    ensures 0.0 <= d <= 1.0
    ensures d == 1.0 <==> exists k :: 0 <= k < |net| && net[k] <= -1.0
  {
    var path := Path(Equity(net));
    var i, j :| Pair(path, i, j) && d == Fall(path[i], path[j]);
    FullFallMeansRuin(net, i, j);
    PathNonNegative(net, 0);
    FallIsShare(path[0], path[0], 1.0);
    assert Pair(path, 0, 0);
    if k :| 0 <= k < |net| && net[k] <= -1.0 {
      RuinMeansFullFall(net, k);
    }
  }

  // ---- Monotonicity in costs ----

  ghost predicate NowhereBetter(worse: seq<real>, better: seq<real>) {
    |worse| == |better| && forall i :: 0 <= i < |worse| ==> worse[i] <= better[i]
  }

  lemma {:induction false} GrowthMonotone(worse: seq<real>, better: seq<real>, i: nat, j: nat)
    requires NowhereBetter(worse, better) && i <= j <= |worse|
    ensures Growth(worse, i, j) <= Growth(better, i, j)
    decreases j - i
  {
    if i == j {
    } else {
      GrowthMonotone(worse, better, i, j - 1);
      ProductGrows(Growth(worse, i, j - 1), Factor(worse[j - 1]), Growth(better, i, j - 1), Factor(better[j - 1]));
    }
  }

  lemma {:induction false} GrowthSplits(net: seq<real>, i: nat, j: nat)
    requires i <= j <= |net|
    ensures Growth(net, 0, j) == Growth(net, 0, i) * Growth(net, i, j)
    decreases j - i
  {
    if i == j {
    } else {
      GrowthSplits(net, i, j - 1);
      var a, b, c := Growth(net, 0, i), Growth(net, i, j - 1), Factor(net[j - 1]);
      assert (a * b) * c == a * (b * c);
    }
  }

  lemma FallIsLostGrowth(net: seq<real>, i: nat, j: nat)
    requires i <= j <= |net| && Growth(net, 0, i) > 0.0
    ensures Fall(Growth(net, 0, i), Growth(net, 0, j)) == 1.0 - Growth(net, i, j)
  {
    GrowthSplits(net, i, j);
    FallIsShare(Growth(net, 0, i), Growth(net, 0, j), Growth(net, i, j));
  }

  lemma DeeperPair(worse: seq<real>, better: seq<real>, d: real, i: nat, j: nat)
    requires NowhereBetter(worse, better) && LargestFall(Path(Equity(worse)), d)
    requires i <= j <= |better| && Growth(better, 0, i) > 0.0
    ensures Fall(Growth(better, 0, i), Growth(better, 0, j)) <= d
  {
    var path := Path(Equity(worse));
    PathPoints(worse, i);
    PathPoints(worse, j);
    if Growth(worse, 0, i) > 0.0 {
      FallIsLostGrowth(worse, i, j);
      FallIsLostGrowth(better, i, j);
      GrowthMonotone(worse, better, i, j);
      assert Pair(path, i, j);
    } else {
      RuinMeans(worse, 0, i);
      RuinIsFullDrawdown(worse, d);
      FullFall(Growth(better, 0, i), Growth(better, 0, j));
    }
  }

  /** Returns that are nowhere better give equity that is nowhere higher and a drawdown that is not smaller. */
  lemma WorseReturnsNeverHelp(worse: seq<real>, better: seq<real>, dWorse: real, dBetter: real)
    requires NowhereBetter(worse, better)
    requires LargestFall(Path(Equity(worse)), dWorse) && LargestFall(Path(Equity(better)), dBetter)
    ensures NowhereBetter(Equity(worse), Equity(better)) && dBetter <= dWorse
  {
    forall i | 0 <= i < |worse|
      ensures Equity(worse)[i] <= Equity(better)[i]
    {
      GrowthMonotone(worse, better, 0, i + 1);
    }
    var path := Path(Equity(better));
    var i, j :| Pair(path, i, j) && dBetter == Fall(path[i], path[j]);
    PathPoints(better, i);
    PathPoints(better, j);
    DeeperPair(worse, better, dWorse, i, j);
  }

  lemma NetFallsWithCost(gross: seq<real>, turnover: seq<real>, lower: real, higher: real)
    requires |gross| == |turnover| && lower <= higher && NonNegative(turnover)
    ensures NowhereBetter(Net(gross, turnover, higher), Net(gross, turnover, lower))
  {
    forall i | 0 <= i < |gross|
      ensures turnover[i] * lower <= turnover[i] * higher
    {
    }
  }

  /** Raising fee or slippage never raises an equity point and never lowers the drawdown. */
  lemma CostsNeverHelp(
      gross: seq<real>, turnover: seq<real>, fee: real, slippage: real, fee': real, slippage': real,
      d: real, d': real)
    requires |gross| == |turnover| && NonNegative(turnover) && fee <= fee' && slippage <= slippage'
    requires LargestFall(Path(Equity(Net(gross, turnover, fee + slippage))), d)
    requires LargestFall(Path(Equity(Net(gross, turnover, fee' + slippage'))), d')
    ensures NowhereBetter(
              Equity(Net(gross, turnover, fee' + slippage')), Equity(Net(gross, turnover, fee + slippage)))
    ensures d <= d'
  {
    NetFallsWithCost(gross, turnover, fee + slippage, fee' + slippage');
    WorseReturnsNeverHelp(
      Net(gross, turnover, fee' + slippage'), Net(gross, turnover, fee + slippage), d', d);
  }
}
