/** `find_parent_choices`, `find_sub_factor_choices` and `ensure_parent_choices_for_test`. */
module ParentChoices {
  import opened Outcomes
  import opened Queries

  const MAX_EXPANDED: int := 12

  type Pair = (int, int)

  /** A parent factor with all its usable sub-factors. */
  datatype Parent = Parent(id: int, subs: seq<int>)

  datatype Error = InvalidArguments | NotEnoughSubFactors | WritesNotAllowed | NoSourceRow | CannotBeReadBack

  datatype Result<T> = Ok(value: T) | Err(error: Error)

  // ---- Ordered query results ----

  predicate PairBefore(a: Pair, b: Pair) {
    a.0 < b.0 || (a.0 == b.0 && a.1 < b.1)
  }

  ghost predicate SortedPairs(rows: seq<Pair>) {
    forall i, j :: 0 <= i < j < |rows| ==> PairBefore(rows[i], rows[j])
  }

  predicate IsLeast(pairs: set<Pair>, p: Pair) {
    p in pairs && forall q :: q in pairs && q != p ==> PairBefore(p, q)
  }

  lemma {:induction false} LeastExists(pairs: set<Pair>)
    requires pairs != {}
    ensures exists p :: IsLeast(pairs, p)
  {
    var p :| p in pairs;
    if pairs == {p} {
      assert IsLeast(pairs, p);
    } else {
      LeastExists(pairs - {p});
      var q :| IsLeast(pairs - {p}, q);
      var least := if PairBefore(p, q) then p else q;
      forall r | r in pairs && r != least
        ensures PairBefore(least, r)
      {
        assert r == p || r in pairs - {p};
      }
      assert IsLeast(pairs, least);
    }
  }

  /** ORDER BY both columns, ascending. */
  method InOrder(pairs: set<Pair>) returns (rows: seq<Pair>)
    ensures SortedPairs(rows) && forall p :: p in rows <==> p in pairs
  {
    rows := [];
    var rest := pairs;
    while rest != {}
      invariant rest <= pairs && SortedPairs(rows)
      invariant forall p :: p in rows <==> p in pairs && p !in rest
      invariant forall p, q :: p in rows && q in rest ==> PairBefore(p, q)
      decreases |rest|
    {
      LeastExists(rest);
      var least :| least in rest && IsLeast(rest, least);
      rows := rows + [least];
      rest := rest - {least};
    }
  }

  lemma {:induction false} SortedPairsUnique(a: seq<Pair>, b: seq<Pair>)
    requires SortedPairs(a) && SortedPairs(b) && forall p :: p in a <==> p in b
    ensures a == b
  {
    if a == [] {
      NothingIn(b);
    } else {
      var x := a[|a| - 1];
      assert x in b;
      var y := b[|b| - 1];
      var a', b' := a[..|a| - 1], b[..|b| - 1];
      assert y in a;
      assert !PairBefore(x, y) && !PairBefore(y, x);
      assert x == y;
      forall p
        ensures p in a' <==> p in b'
      {
        assert p in a <==> p in a' || p == x;
        assert p in b <==> p in b' || p == x;
        assert p in a' || p in b' ==> PairBefore(p, x);
      }
      SortedPairsUnique(a', b');
    }
  }

  // ---- Grouping ----

  function Children(rows: seq<Pair>, id: int): seq<int> {
    if rows == [] then []
    else Children(rows[..|rows| - 1], id) + if rows[|rows| - 1].0 == id then [rows[|rows| - 1].1] else []
  }

  lemma {:induction false} ChildrenContents(rows: seq<Pair>, id: int)
    ensures forall x :: x in Children(rows, id) <==> (id, x) in rows
  {
    if rows == [] {
    } else {
      ChildrenContents(rows[..|rows| - 1], id);
      assert forall p :: p in rows <==> p in rows[..|rows| - 1] || p == rows[|rows| - 1];
    }
  }

  lemma {:induction false} ChildrenSorted(rows: seq<Pair>, id: int)
    requires SortedPairs(rows)
    ensures forall i, j :: 0 <= i < j < |Children(rows, id)| ==> Children(rows, id)[i] < Children(rows, id)[j]
  {
    if rows == [] {
    } else {
      var rest := rows[..|rows| - 1];
      ChildrenSorted(rest, id);
      ChildrenContents(rest, id);
      forall i | 0 <= i < |Children(rest, id)| && rows[|rows| - 1].0 == id
        ensures Children(rest, id)[i] < rows[|rows| - 1].1
      {
        assert Children(rest, id)[i] in Children(rest, id);
        var k :| 0 <= k < |rest| && rest[k] == (id, Children(rest, id)[i]);
        assert PairBefore(rows[k], rows[|rows| - 1]);
      }
    }
  }

  /** The keys of a dictionary in the order in which they were first met, which is ascending. */
  ghost predicate Listed(rows: seq<Pair>, ids: seq<int>, keys: set<int>) {
    (forall id :: id in ids <==> id in keys)
    && (forall i, j :: 0 <= i < j < |ids| ==> ids[i] < ids[j])
    && forall i :: 0 <= i < |ids| ==> rows != [] && ids[i] <= rows[|rows| - 1].0
  }

  /** The dictionary of groups. */
  ghost predicate Grouped(rows: seq<Pair>, ids: seq<int>, grouped: map<int, seq<int>>) {
    Listed(rows, ids, grouped.Keys)
    && forall id ::
         if id in grouped then grouped[id] == Children(rows, id) && grouped[id] != [] else Children(rows, id) == []
  }

  lemma ListedStep(rows: seq<Pair>, row: Pair, ids: seq<int>, keys: set<int>)
    requires Listed(rows, ids, keys) && (rows != [] ==> rows[|rows| - 1].0 <= row.0)
    ensures Listed(rows + [row], if row.0 in keys then ids else ids + [row.0], keys + {row.0})
  {
    forall i | 0 <= i < |ids| && row.0 !in keys
      ensures ids[i] < row.0
    {
      assert ids[i] in ids;
    }
  }

  lemma GroupedStep(
      rows: seq<Pair>, row: Pair, ids: seq<int>, grouped: map<int, seq<int>>,
      ids': seq<int>, grouped': map<int, seq<int>>)
    requires Grouped(rows, ids, grouped) && (rows != [] ==> rows[|rows| - 1].0 <= row.0)
    requires ids' == if row.0 in grouped then ids else ids + [row.0]
    requires grouped' == grouped[row.0 := (if row.0 in grouped then grouped[row.0] else []) + [row.1]]
    ensures Grouped(rows + [row], ids', grouped')
  {
    ListedStep(rows, row, ids, grouped.Keys);
    assert grouped'.Keys == grouped.Keys + {row.0};
    forall id
      ensures if id in grouped' then grouped'[id] == Children(rows + [row], id) && grouped'[id] != []
              else Children(rows + [row], id) == []
    {
      ChildrenStep(rows, row, id);
    }
  }

  lemma ChildrenStep(rows: seq<Pair>, row: Pair, id: int)
    ensures Children(rows + [row], id) == Children(rows, id) + if row.0 == id then [row.1] else []
  {
    assert (rows + [row])[..|rows|] == rows;
  }

  lemma ListedKeys(rows: seq<Pair>, ids: seq<int>, grouped: map<int, seq<int>>)
    requires Grouped(rows, ids, grouped)
    ensures forall i :: 0 <= i < |ids| ==> ids[i] in grouped
  {
    forall i | 0 <= i < |ids|
      ensures ids[i] in grouped
    {
      assert ids[i] in ids;
    }
  }

  method GroupByParent(rows: seq<Pair>) returns (groups: seq<Parent>)
    requires SortedPairs(rows)
    ensures Ascending(groups)
    ensures forall g :: g in groups <==> g.subs != [] && g.subs == Children(rows, g.id)
  {
    var ids: seq<int>, grouped: map<int, seq<int>> := [], map[];
    for n := 0 to |rows|
      invariant Grouped(rows[..n], ids, grouped)
    {
      var id := rows[n].0;
      assert rows[..n + 1] == rows[..n] + [rows[n]];
      ghost var before, ids0 := grouped, ids;
      if id !in grouped {
        ids := ids + [id];
      }
      grouped := grouped[id := (if id in grouped then grouped[id] else []) + [rows[n].1]];
      GroupedStep(rows[..n], rows[n], ids0, before, ids, grouped);
    }
    assert rows[..|rows|] == rows;
    ListedKeys(rows, ids, grouped);
    groups := seq(|ids|, i requires 0 <= i < |ids| && ids[i] in grouped => Parent(ids[i], grouped[ids[i]]));
    GroupsOfDictionary(rows, ids, grouped, groups);
  }

  lemma GroupsOfDictionary(rows: seq<Pair>, ids: seq<int>, grouped: map<int, seq<int>>, groups: seq<Parent>)
    requires Grouped(rows, ids, grouped) && |groups| == |ids|
    requires forall i :: 0 <= i < |ids| ==> ids[i] in grouped && groups[i] == Parent(ids[i], grouped[ids[i]])
    ensures Ascending(groups)
    ensures forall g :: g in groups <==> g.subs != [] && g.subs == Children(rows, g.id)
  {
    forall g: Parent
      ensures g in groups <==> g.subs != [] && g.subs == Children(rows, g.id)
    {
      if g.subs != [] && g.subs == Children(rows, g.id) {
        var i :| 0 <= i < |ids| && ids[i] == g.id;
        assert groups[i] == g;
      }
      if g in groups {
        var i :| 0 <= i < |groups| && groups[i] == g;
      }
    }
  }

  /** In ascending order of ids, so each parent once. */
  ghost predicate Ascending(parents: seq<Parent>) {
    forall i, j :: 0 <= i < j < |parents| ==> parents[i].id < parents[j].id
  }

  // ---- Combinations ----

  function Prepend(p: Parent, tails: seq<seq<Parent>>): seq<seq<Parent>> {
    seq(|tails|, i requires 0 <= i < |tails| => [p] + tails[i])
  }

  /** `itertools.combinations(parents, k)` */
  function Combinations(parents: seq<Parent>, k: nat): seq<seq<Parent>> {
    if k == 0 then [[]]
    else if parents == [] then []
    else Prepend(parents[0], Combinations(parents[1..], k - 1)) + Combinations(parents[1..], k)
  }

  /** Sub-factors of several parents, each once. */
  function Expanded(parents: seq<Parent>): set<int> {
    if parents == [] then {} else (set x | x in parents[0].subs) + Expanded(parents[1..])
  }

  lemma {:induction false} ExpandedContents(parents: seq<Parent>)
    ensures forall x :: x in Expanded(parents) <==> exists p :: p in parents && x in p.subs
  {
    if parents == [] {
    } else {
      ExpandedContents(parents[1..]);
      assert forall p :: p in parents <==> p == parents[0] || p in parents[1..];
    }
  }

  /** Members of `chosen`, in the order of `parents`. */
  function Pick(parents: seq<Parent>, chosen: set<Parent>): seq<Parent> {
    if parents == [] then []
    else (if parents[0] in chosen then [parents[0]] else []) + Pick(parents[1..], chosen)
  }

  lemma {:induction false} PickContents(parents: seq<Parent>, chosen: set<Parent>)
    requires chosen <= set p | p in parents
    ensures forall p :: p in Pick(parents, chosen) <==> p in chosen
  {
    if parents == [] {
    } else {
      var rest := chosen - {parents[0]};
      PickContents(parents[1..], chosen * set p | p in parents[1..]);
      PickRestricted(parents[1..], chosen);
      assert forall p :: p in chosen ==> p == parents[0] || p in parents[1..];
    }
  }

  lemma {:induction false} PickRestricted(parents: seq<Parent>, chosen: set<Parent>)
    ensures Pick(parents, chosen * set p | p in parents) == Pick(parents, chosen)
  {
    PickAgrees(parents, chosen, chosen * set p | p in parents);
  }

  lemma {:induction false} PickAgrees(parents: seq<Parent>, a: set<Parent>, b: set<Parent>)
    requires forall p :: p in parents ==> (p in a <==> p in b)
    ensures Pick(parents, a) == Pick(parents, b)
  {
    if parents == [] {
    } else {
      PickAgrees(parents[1..], a, b);
    }
  }

  lemma PickFirst(parents: seq<Parent>, chosen: set<Parent>)
    requires parents != [] && parents[0] !in parents[1..]
    ensures |Pick(parents, chosen)|
         == |Pick(parents[1..], chosen - {parents[0]})| + if parents[0] in chosen then 1 else 0
  {
    PickAgrees(parents[1..], chosen, chosen - {parents[0]});
  }

  lemma AscendingRest(parents: seq<Parent>)
    requires Ascending(parents) && parents != []
    ensures Ascending(parents[1..]) && forall p :: p in parents[1..] ==> p in parents
  {
    assert forall i :: 0 <= i < |parents| - 1 ==> parents[1..][i] == parents[i + 1];
  }

  ghost predicate Among(chosen: set<Parent>, parents: seq<Parent>) {
    forall p :: p in chosen ==> p in parents
  }

  lemma {:induction false} PickSize(parents: seq<Parent>, chosen: set<Parent>)
    requires Ascending(parents) && Among(chosen, parents)
    ensures |Pick(parents, chosen)| == |chosen|
  {
    if parents == [] {
      assert chosen == {};
    } else {
      WithoutFirst(parents, chosen);
      PickSize(parents[1..], chosen - {parents[0]});
      PickFirst(parents, chosen);
      OneLess(chosen, parents[0]);
    }
  }

  lemma OneLess<T>(s: set<T>, x: T)
    ensures |s| == |s - {x}| + if x in s then 1 else 0
  {
    if x in s {
      assert s == s - {x} + {x};
    } else {
      assert s == s - {x};
    }
  }

  lemma WithoutFirst(parents: seq<Parent>, chosen: set<Parent>)
    requires Ascending(parents) && parents != [] && Among(chosen, parents)
    ensures Ascending(parents[1..]) && parents[0] !in parents[1..]
    ensures Among(chosen - {parents[0]}, parents[1..])
  {
    AscendingRest(parents);
    FirstIsLeast(parents);
  }

  lemma FirstIsLeast(parents: seq<Parent>)
    requires Ascending(parents) && parents != []
    ensures parents[0] !in parents[1..]
    ensures forall p :: p in parents ==> p == parents[0] || p in parents[1..]
  {
    forall i | 0 <= i < |parents| - 1
      ensures parents[1..][i] != parents[0]
    {
      assert parents[0].id < parents[i + 1].id;
    }
    forall p | p in parents && p != parents[0]
      ensures p in parents[1..]
    {
      var i :| 0 <= i < |parents| && parents[i] == p;
      assert parents[1..][i - 1] == p;
    }
  }

  lemma {:induction false} PickIsCombination(parents: seq<Parent>, chosen: set<Parent>)
    ensures Pick(parents, chosen) in Combinations(parents, |Pick(parents, chosen)|)
  {
    if parents == [] {
    } else {
      var rest := Pick(parents[1..], chosen);
      PickIsCombination(parents[1..], chosen);
      var tails := Combinations(parents[1..], |rest|);
      if parents[0] in chosen {
        var k :| 0 <= k < |tails| && tails[k] == rest;
        assert Prepend(parents[0], tails)[k] == [parents[0]] + rest;
      } else if rest != [] {
        assert Pick(parents, chosen) == rest;
        assert Combinations(parents, |rest|) == Prepend(parents[0], Combinations(parents[1..], |rest| - 1)) + tails;
      }
    }
  }

  lemma CombinationCases(parents: seq<Parent>, k: nat, c: seq<Parent>) returns (skipped: bool)
    requires k > 0 && c in Combinations(parents, k)
    ensures parents != []
    ensures skipped ==> c in Combinations(parents[1..], k)
    ensures !skipped ==> c != [] && c[0] == parents[0] && c[1..] in Combinations(parents[1..], k - 1)
  {
    var shorter, n := Combinations(parents[1..], k - 1), |Combinations(parents[1..], k - 1)|;
    var i :| 0 <= i < |Combinations(parents, k)| && Combinations(parents, k)[i] == c;
    skipped := i >= n;
    if skipped {
      assert Combinations(parents[1..], k)[i - n] == c;
    } else {
      assert Prepend(parents[0], shorter)[i] == c;
      assert c[1..] == shorter[i];
    }
  }

  /** A combination has `k` members, all from `parents`, each once and in order. */
  lemma PrependedContents(parents: seq<Parent>, k: nat, c: seq<Parent>)
    requires Ascending(parents) && parents != [] && k > 0 && c != [] && c[0] == parents[0]
    requires |c[1..]| == k - 1 && Ascending(c[1..]) && forall p :: p in c[1..] ==> p in parents[1..]
    ensures |c| == k && Ascending(c) && forall p :: p in c ==> p in parents
  {
    FirstIsNew(parents, c[1..]);
    assert c == [parents[0]] + c[1..];
    AscendingRest(parents);
  }

  /** Membership in the enumeration, one parent at a time. */
  ghost predicate IsCombination(parents: seq<Parent>, k: nat, c: seq<Parent>) {
    if k == 0 then c == []
    else
      parents != []
      && (IsCombination(parents[1..], k, c)
          || (c != [] && c[0] == parents[0] && IsCombination(parents[1..], k - 1, c[1..])))
  }

  lemma {:induction false} EnumeratedIsCombination(parents: seq<Parent>, k: nat, c: seq<Parent>)
    requires c in Combinations(parents, k)
    ensures IsCombination(parents, k, c)
  {
    if k == 0 {
    } else {
      var skipped := CombinationCases(parents, k, c);
      if skipped {
        EnumeratedIsCombination(parents[1..], k, c);
      } else {
        EnumeratedIsCombination(parents[1..], k - 1, c[1..]);
      }
    }
  }

  lemma {:induction false} CombinationContents(parents: seq<Parent>, k: nat, c: seq<Parent>)
    requires Ascending(parents) && IsCombination(parents, k, c)
    ensures |c| == k && Ascending(c) && forall p :: p in c ==> p in parents
  {
    if k == 0 {
    } else {
      AscendingRest(parents);
      if IsCombination(parents[1..], k, c) {
        CombinationContents(parents[1..], k, c);
      } else {
        CombinationContents(parents[1..], k - 1, c[1..]);
        PrependedContents(parents, k, c);
      }
    }
  }
  lemma FirstIsNew(parents: seq<Parent>, tail: seq<Parent>)
    requires Ascending(parents) && parents != [] && Ascending(tail) && forall p :: p in tail ==> p in parents[1..]
    ensures Ascending([parents[0]] + tail)
  {
    forall j | 0 <= j < |tail|
      ensures parents[0].id < tail[j].id
    {
      assert tail[j] in parents[1..];
      var n :| 0 <= n < |parents[1..]| && parents[1..][n] == tail[j];
      assert parents[n + 1].id == tail[j].id;
    }
  }

  // ---- Choosing ----

  /** Parents with a suitable number of sub-factors. */
  predicate Suitable(p: Parent, minimum: int, maximum: int) {
    minimum <= |p.subs| <= maximum
  }

  /** A parent with all its usable sub-factors, in the rows of the query. */
  ghost predicate Complete(rows: seq<Pair>, p: Parent) {
    p.subs != [] && p.subs == Children(rows, p.id)
  }

  ghost predicate Eligible(rows: seq<Pair>, p: Parent, minimum: int, maximum: int) {
    Complete(rows, p) && Suitable(p, minimum, maximum)
  }

  /** `count` eligible parents whose sub-factors together are few enough. */
  ghost predicate GoodChoice(
      rows: seq<Pair>, c: set<Parent>, minimum: int, count: nat, maximum: int, maximumExpanded: int)
  {
    |c| == count && (forall p :: p in c ==> Eligible(rows, p, minimum, maximum))
    && |set p, x | p in c && x in p.subs :: x| <= maximumExpanded
  }

  lemma {:induction false} SelectAscending(keep: Parent -> bool, parents: seq<Parent>)
    requires Ascending(parents)
    ensures Ascending(Select(keep, parents))
  {
    if parents == [] {
    } else {
      var rest := parents[1..];
      assert forall i :: 0 <= i < |rest| ==> rest[i] == parents[i + 1];
      SelectAscending(keep, rest);
      SelectContents(keep, rest);
      var kept := Select(keep, rest);
      forall j | 0 <= j < |kept|
        ensures parents[0].id < kept[j].id
      {
        assert kept[j] in rest;
        var n :| 0 <= n < |rest| && rest[n] == kept[j];
        assert parents[n + 1].id == kept[j].id;
      }
    }
  }

  lemma {:induction false} AscendingSize(parents: seq<Parent>)
    requires Ascending(parents)
    ensures |set p | p in parents| == |parents|
  {
    PickSize(parents, set p | p in parents);
    PickAll(parents, set p | p in parents);
  }

  lemma {:induction false} PickAll(parents: seq<Parent>, chosen: set<Parent>)
    requires forall p :: p in parents ==> p in chosen
    ensures Pick(parents, chosen) == parents
  {
    if parents == [] {
    } else {
      PickAll(parents[1..], chosen);
    }
  }

  lemma ExpandedIsUnion(c: seq<Parent>, chosen: set<Parent>)
    requires forall p :: p in c <==> p in chosen
    ensures Expanded(c) == set p, x | p in chosen && x in p.subs :: x
  {
    ExpandedContents(c);
    var union := set p, x | p in chosen && x in p.subs :: x;
    forall x
      ensures x in Expanded(c) <==> x in union
    {
      if x in union {
        var p :| p in chosen && x in p.subs;
        assert p in c;
      }
    }
  }

  /** A combination whose union is small enough is a good choice, taken as a set. */
  lemma CombinationIsChoice(
      rows: seq<Pair>, eligible: seq<Parent>, c: seq<Parent>, minimum: int, count: nat,
      maximum: int, maximumExpanded: int)
    requires Ascending(eligible) && forall p :: p in eligible <==> Eligible(rows, p, minimum, maximum)
    requires c in Combinations(eligible, count) && |Expanded(c)| <= maximumExpanded
    ensures Ascending(c) && GoodChoice(rows, (set p | p in c), minimum, count, maximum, maximumExpanded)
  {
    EnumeratedIsCombination(eligible, count, c);
    CombinationContents(eligible, count, c);
    AscendingSize(c);
    ExpandedIsUnion(c, set p | p in c);
  }

  /** Every good choice is met as a combination. */
  lemma ChoiceIsCombination(
      rows: seq<Pair>, eligible: seq<Parent>, chosen: set<Parent>, minimum: int, count: nat, maximum: int,
      maximumExpanded: int)
      returns (c: seq<Parent>)
    requires Ascending(eligible) && forall p :: p in eligible <==> Eligible(rows, p, minimum, maximum)
    requires GoodChoice(rows, chosen, minimum, count, maximum, maximumExpanded)
    ensures c in Combinations(eligible, count) && |Expanded(c)| <= maximumExpanded
  {
    c := Pick(eligible, chosen);
    PickContents(eligible, chosen);
    PickSize(eligible, chosen);
    PickIsCombination(eligible, chosen);
    ExpandedIsUnion(c, chosen);
  }

  ghost predicate NoGoodChoice(rows: seq<Pair>, minimum: int, count: nat, maximum: int, maximumExpanded: int) {
    forall chosen :: !GoodChoice(rows, chosen, minimum, count, maximum, maximumExpanded)
  }

  lemma NoCombinationNoChoice(
      rows: seq<Pair>, eligible: seq<Parent>, minimum: int, count: nat, maximum: int, maximumExpanded: int)
    requires Ascending(eligible) && forall p :: p in eligible <==> Eligible(rows, p, minimum, maximum)
    requires forall c :: c in Combinations(eligible, count) ==> |Expanded(c)| > maximumExpanded
    ensures NoGoodChoice(rows, minimum, count, maximum, maximumExpanded)
  {
    forall chosen
      ensures !GoodChoice(rows, chosen, minimum, count, maximum, maximumExpanded)
    {
      if GoodChoice(rows, chosen, minimum, count, maximum, maximumExpanded) {
        var c := ChoiceIsCombination(rows, eligible, chosen, minimum, count, maximum, maximumExpanded);
        assert false;
      }
    }
  }

  method EligibleParents(rows: seq<Pair>, minimum: int, maximum: int) returns (eligible: seq<Parent>)
    requires SortedPairs(rows)
    ensures Ascending(eligible) && forall p :: p in eligible <==> Eligible(rows, p, minimum, maximum)
  {
    var groups := GroupByParent(rows);
    var keep := (p: Parent) => Suitable(p, minimum, maximum);
    eligible := Select(keep, groups);
    SelectContents(keep, groups);
    SelectAscending(keep, groups);
  }

  predicate LegalArguments(minimum: int, count: int, maximum: int, maximumExpanded: int) {
    minimum >= 1 && count >= 1 && maximum >= minimum && maximumExpanded >= minimum
  }

  /** The loop over the combinations. */
  method FirstNarrow(candidates: seq<seq<Parent>>, maximumExpanded: int) returns (r: Option<seq<Parent>>)
    ensures r.Some? ==> r.value in candidates && |Expanded(r.value)| <= maximumExpanded
    ensures r.None? ==> forall c :: c in candidates ==> |Expanded(c)| > maximumExpanded
  {
    for i := 0 to |candidates|
      invariant forall k :: 0 <= k < i ==> |Expanded(candidates[k])| > maximumExpanded
    {
      if |Expanded(candidates[i])| <= maximumExpanded {
        return Some(candidates[i]);
      }
    }
    return None;
  }

  /** `find_parent_choices` on the rows of its query: a good choice by ascending ids, or None exactly when there is no
      good choice at all.  The parents returned carry all their usable sub-factors. */
  method FindParentChoices(rows: seq<Pair>, minimum: int, count: int, maximum: int, maximumExpanded: int)
      returns (r: Result<Option<seq<Parent>>>)
    requires SortedPairs(rows)
    ensures r.Ok? <==> LegalArguments(minimum, count, maximum, maximumExpanded)
    ensures r.Err? ==> r.error == InvalidArguments
    ensures r.Ok? && r.value.Some? ==>
      Ascending(r.value.value)
      && GoodChoice(rows, (set p | p in r.value.value), minimum, count, maximum, maximumExpanded)
    ensures r.Ok? && r.value.None? ==> NoGoodChoice(rows, minimum, count, maximum, maximumExpanded)
  {
    if !LegalArguments(minimum, count, maximum, maximumExpanded) {
      return Err(InvalidArguments);
    }
    var eligible := EligibleParents(rows, minimum, maximum);
    var first := FirstNarrow(Combinations(eligible, count), maximumExpanded);
    if first.Some? {
      CombinationIsChoice(rows, eligible, first.value, minimum, count, maximum, maximumExpanded);
    } else {
      NoCombinationNoChoice(rows, eligible, minimum, count, maximum, maximumExpanded);
    }
    return Ok(first);
  }

  // ---- Temporary parents always give a choice ----

  /** Relations of `count` new parents, numbered from `first`, to each of the chosen sub-factors. */
  ghost predicate IsNewPair(first: int, count: nat, chosen: seq<int>, p: Pair) {
    first <= p.0 < first + count && p.1 in chosen
  }

  ghost predicate Increasing(s: seq<int>) {
    forall i, j :: 0 <= i < j < |s| ==> s[i] < s[j]
  }

  lemma {:induction false} IncreasingUnique(a: seq<int>, b: seq<int>)
    requires Increasing(a) && Increasing(b) && forall x :: x in a <==> x in b
    ensures a == b
  {
    if a == [] {
      NothingIn(b);
    } else {
      assert a[|a| - 1] in b && b[|b| - 1] in a;
      var a', b' := a[..|a| - 1], b[..|b| - 1];
      assert a[|a| - 1] == b[|b| - 1];
      forall x
        ensures x in a' <==> x in b'
      {
        assert x in a <==> x in a' || x == a[|a| - 1];
        assert x in b <==> x in b' || x == b[|b| - 1];
        assert x in a' ==> x < a[|a| - 1];
        assert x in b' ==> x < b[|b| - 1];
      }
      IncreasingUnique(a', b');
    }
  }

  lemma {:induction false} IncreasingSize(s: seq<int>)
    requires Increasing(s)
    ensures |set x | x in s| == |s|
  {
    if s == [] {
    } else {
      var rest := s[..|s| - 1];
      IncreasingSize(rest);
      assert (set x | x in s) == (set x | x in rest) + {s[|s| - 1]};
      assert s[|s| - 1] !in rest;
    }
  }

  ghost function NewParents(first: int, count: nat, chosen: seq<int>): set<Parent> {
    if count == 0 then {} else NewParents(first, count - 1, chosen) + {Parent(first + count - 1, chosen)}
  }

  lemma OneMoreParent(first: int, count: nat, chosen: seq<int>, before: set<Parent>)
    requires forall p :: p in before <==> first <= p.id < first + count && p.subs == chosen
    requires |before| == count
    ensures var after := before + {Parent(first + count, chosen)};
            && |after| == count + 1
            && forall p :: p in after <==> first <= p.id < first + count + 1 && p.subs == chosen
  {
    assert Parent(first + count, chosen) !in before;
  }

  lemma {:induction false} NewParentsContents(first: int, count: nat, chosen: seq<int>)
    ensures forall p :: p in NewParents(first, count, chosen) <==> first <= p.id < first + count && p.subs == chosen
    ensures |NewParents(first, count, chosen)| == count
  {
    if count == 0 {
    } else {
      NewParentsContents(first, count - 1, chosen);
      OneMoreParent(first, count - 1, chosen, NewParents(first, count - 1, chosen));
    }
  }

  lemma NewParentIsComplete(rows: seq<Pair>, first: int, count: nat, chosen: seq<int>, id: int)
    requires SortedPairs(rows) && Increasing(chosen) && chosen != [] && first <= id < first + count
    requires forall p :: p in rows && p.0 >= first ==> IsNewPair(first, count, chosen, p)
    requires forall p :: IsNewPair(first, count, chosen, p) ==> p in rows
    ensures Complete(rows, Parent(id, chosen))
  {
    ChildrenContents(rows, id);
    ChildrenSorted(rows, id);
    forall x
      ensures x in Children(rows, id) <==> x in chosen
    {
      assert x in chosen ==> IsNewPair(first, count, chosen, (id, x));
    }
    IncreasingUnique(Children(rows, id), chosen);
  }

  /** Once the new parents can be read, they are a good choice themselves. */
  lemma NewParentsAreChoice(rows: seq<Pair>, first: int, count: nat, chosen: seq<int>)
    requires SortedPairs(rows) && Increasing(chosen) && 1 <= |chosen| <= MAX_EXPANDED
    requires forall p :: p in rows && p.0 >= first ==> IsNewPair(first, count, chosen, p)
    requires forall p :: IsNewPair(first, count, chosen, p) ==> p in rows
    ensures GoodChoice(rows, NewParents(first, count, chosen), |chosen|, count, MAX_EXPANDED, MAX_EXPANDED)
  {
    var parents := NewParents(first, count, chosen);
    NewParentsContents(first, count, chosen);
    forall p | p in parents
      ensures Eligible(rows, p, |chosen|, MAX_EXPANDED)
    {
      NewParentIsComplete(rows, first, count, chosen, p.id);
    }
    IncreasingSize(chosen);
    var union := set p, x | p in parents && x in p.subs :: x;
    Fewer(union, set x | x in chosen);
  }

  // ---- Preparing choices for a test ----

  class Repository {
    const environment: string
    /** Sub-factors and factors with a usable name. */
    var subFactors: set<int>
    var parents: set<int>
    /** Factors that a temporary one can be cloned from. */
    var sources: set<int>
    var relations: set<Pair>
    var nextFactorId: int
    var ownedParents: map<int, set<int>>
    var ownedPairs: map<int, set<Pair>>

    /** Auto-increment keys are above all keys in use. */
    ghost predicate Valid()
      reads this
    {
      (forall id :: id in parents ==> id < nextFactorId) && forall p :: p in relations ==> p.0 < nextFactorId
    }

    /** The rows of the parent query. */
    ghost predicate IsParentQuery(rows: seq<Pair>)
      reads this
    {
      SortedPairs(rows) && forall p :: p in rows <==> p in relations && p.0 in parents && p.1 in subFactors
    }

    method FetchParentRows() returns (rows: seq<Pair>)
      ensures IsParentQuery(rows)
    {
      rows := InOrder(set p | p in relations && p.0 in parents && p.1 in subFactors);
    }

    /** The usable sub-factors of usable parents. */
    ghost function UsableSubFactors(): set<int>
      reads this
    {
      set p | p in relations && p.0 in parents && p.1 in subFactors :: p.1
    }

    lemma SubFactorsOfRows(rows: seq<Pair>)
      requires forall q :: q in rows <==>
                 q in set p | p in relations && p.0 in parents && p.1 in subFactors :: (p.1, p.0)
      ensures forall x :: x in UsableSubFactors() <==> exists k :: 0 <= k < |rows| && rows[k].0 == x
    {
      forall x | x in UsableSubFactors()
        ensures exists k :: 0 <= k < |rows| && rows[k].0 == x
      {
        var p :| p in relations && p.0 in parents && p.1 in subFactors && p.1 == x;
        assert (x, p.0) in rows;
      }
      forall k | 0 <= k < |rows|
        ensures rows[k].0 in UsableSubFactors()
      {
        assert rows[k] in rows;
      }
    }

    /** `find_sub_factor_choices`: the usable sub-factors of usable parents, each id once, in ascending order, if there
        are enough of them. */
    method FindSubFactorChoices(minimum: int) returns (r: Result<seq<int>>)
      ensures r.Ok? <==> minimum >= 1 && |UsableSubFactors()| >= minimum
      ensures r.Ok? ==> |r.value| >= minimum && Increasing(r.value)
      ensures r.Ok? ==> forall x :: x in r.value <==> x in UsableSubFactors()
      ensures r.Err? ==> r.error == if minimum < 1 then InvalidArguments else NotEnoughSubFactors
    {
      if minimum < 1 {
        return Err(InvalidArguments);
      }
      var rows := InOrder(set p | p in relations && p.0 in parents && p.1 in subFactors :: (p.1, p.0));
      var choices: seq<int>, seen: set<int> := [], {};
      for i := 0 to |rows|
        invariant forall x :: x in choices <==> x in seen
        invariant forall x :: x in seen <==> exists k :: 0 <= k < i && rows[k].0 == x
        invariant forall k :: 0 <= k < |choices| ==> i > 0 && choices[k] <= rows[i - 1].0
        invariant Increasing(choices)
      {
        var id := rows[i].0;
        if id in seen {
          continue;
        }
        assert forall k :: 0 <= k < |choices| ==> choices[k] in choices;
        seen := seen + {id};
        choices := choices + [id];
      }
      SubFactorsOfRows(rows);
      assert forall x :: x in UsableSubFactors() <==> x in choices;
      IncreasingSize(choices);
      assert UsableSubFactors() == set x | x in choices;
      if |choices| < minimum {
        return Err(NotEnoughSubFactors);
      }
      return Ok(choices);
    }

    /** The relations of one new parent. */
    method Relate(id: int, chosen: seq<int>) returns (pairs: set<Pair>)
      modifies this`relations
      ensures relations == old(relations) + pairs
      ensures forall p :: p in pairs <==> p.0 == id && p.1 in chosen
    {
      pairs := {};
      for k := 0 to |chosen|
        invariant relations == old(relations) + pairs
        invariant forall p :: p in pairs <==> p.0 == id && p.1 in chosen[..k]
      {
        relations := relations + {(id, chosen[k])};
        pairs := pairs + {(id, chosen[k])};
        assert chosen[..k + 1] == chosen[..k] + [chosen[k]];
      }
      assert chosen[..|chosen|] == chosen;
    }

    /** The inserts of one transaction: `count` cloned parents, each related to the chosen sub-factors. */
    method CreateParents(count: nat, chosen: seq<int>) returns (pairs: set<Pair>)
      requires Valid()
      modifies this`parents, this`relations, this`nextFactorId
      ensures Valid() && nextFactorId == old(nextFactorId) + count
      ensures relations == old(relations) + pairs
      ensures forall p :: p in pairs <==> IsNewPair(old(nextFactorId), count, chosen, p)
      ensures forall id :: id in parents <==> id in old(parents) || old(nextFactorId) <= id < old(nextFactorId) + count
    {
      ghost var first := nextFactorId;
      pairs := {};
      for index := 0 to count
        invariant nextFactorId == first + index && Valid()
        invariant forall id :: id in parents <==> id in old(parents) || first <= id < first + index
        invariant relations == old(relations) + pairs
        invariant forall p :: p in pairs <==> IsNewPair(first, index, chosen, p)
      {
        var id := nextFactorId;
        nextFactorId := nextFactorId + 1;
        parents := parents + {id};
        var more := Relate(id, chosen);
        pairs := pairs + more;
      }
    }

    /** Read back after the inserts, the new parents are a good choice. */
    lemma CanBeRead(rows: seq<Pair>, first: int, count: nat, choices: seq<int>, chosen: seq<int>)
      requires IsParentQuery(rows) && Increasing(choices)
      requires 1 <= |chosen| <= MAX_EXPANDED && |chosen| <= |choices| && chosen == choices[..|chosen|]
      requires forall x :: x in choices ==> x in subFactors
      requires forall id :: first <= id < first + count ==> id in parents
      requires forall p :: IsNewPair(first, count, chosen, p) ==> p in relations
      requires forall p :: p in relations && p.0 >= first ==> IsNewPair(first, count, chosen, p)
      ensures !NoGoodChoice(rows, |chosen|, count, MAX_EXPANDED, MAX_EXPANDED)
    {
      assert forall x :: x in chosen ==> x in choices;
      NewParentsAreChoice(rows, first, count, chosen);
    }

    /** The database already has a good choice. */
    ghost predicate HasChoice(minimum: int, count: nat)
      reads this
    {
      exists rows, chosen ::
        IsParentQuery(rows) && GoodChoice(rows, chosen, minimum, count, MAX_EXPANDED, MAX_EXPANDED)
    }

    lemma SearchDecides(rows: seq<Pair>, minimum: int, count: nat)
      requires IsParentQuery(rows)
      ensures HasChoice(minimum, count) <==> !NoGoodChoice(rows, minimum, count, MAX_EXPANDED, MAX_EXPANDED)
    {
      if HasChoice(minimum, count) {
        var other, chosen :| IsParentQuery(other)
          && GoodChoice(other, chosen, minimum, count, MAX_EXPANDED, MAX_EXPANDED);
        SortedPairsUnique(rows, other);
      }
    }

    /** Why the preparation is refused, if it is. */
    ghost function Refusal(minimum: int, count: int): Option<Error>
      reads this
    {
      if minimum < 1 || count < 1 || minimum > MAX_EXPANDED then Some(InvalidArguments)
      else if HasChoice(minimum, count) then None
      else if |UsableSubFactors()| < minimum then Some(NotEnoughSubFactors)
      else if environment != "test" then Some(WritesNotAllowed)
      else if sources == {} then Some(NoSourceRow)
      else None
    }

    /** The writes of the preparation, when there is no choice yet: `minimum` usable sub-factors for each new parent. */
    method Prepare(owner: int, minimum: nat, count: nat, choices: seq<int>) returns (ghost chosen: seq<int>)
      requires Valid() && 1 <= minimum <= MAX_EXPANDED && count >= 1 && minimum <= |choices| && Increasing(choices)
      requires forall x :: x in choices ==> x in subFactors
      modifies this`parents, this`relations, this`nextFactorId, this`ownedParents, this`ownedPairs
      ensures Valid() && nextFactorId == old(nextFactorId) + count && chosen == choices[..minimum]
      ensures HasChoice(minimum, count)
      ensures forall id :: id in parents <==> id in old(parents) || old(nextFactorId) <= id < old(nextFactorId) + count
      ensures forall p :: p in relations <==> p in old(relations) || IsNewPair(old(nextFactorId), count, chosen, p)
      ensures ownedParents == old(ownedParents)[owner :=
                OwnedOf(old(ownedParents), owner) + set p | p in relations - old(relations) :: p.0]
      ensures ownedPairs == old(ownedPairs)[owner := OwnedOf(old(ownedPairs), owner) + (relations - old(relations))]
    {
      ghost var first := nextFactorId;
      chosen := choices[..minimum];
      var pairs := CreateParents(count, choices[..minimum]);
      assert relations - old(relations) == pairs;
      ownedParents := ownedParents[owner := OwnedOf(ownedParents, owner) + set p | p in pairs :: p.0];
      ownedPairs := ownedPairs[owner := OwnedOf(ownedPairs, owner) + pairs];
      var rows := FetchParentRows();
      CanBeRead(rows, first, count, choices, chosen);
      SearchDecides(rows, minimum, count);
    }

    /** `ensure_parent_choices_for_test` gives a good choice exactly when nothing refuses it, and fails without an
        effect otherwise; what it wrote can always be read back.  It writes only when the database had no good choice,
        and records what it wrote for the owner, from where the cleanup starts. */
    method EnsureParentChoices(owner: int, minimum: int, count: int)
        returns (r: Result<seq<Parent>>, ghost rows: seq<Pair>, ghost chosen: seq<int>)
      requires Valid()
      modifies this`parents, this`relations, this`nextFactorId, this`ownedParents, this`ownedPairs
      ensures Valid()
      ensures r.Ok? <==> old(Refusal(minimum, count)).None?
      ensures r.Err? ==> old(Refusal(minimum, count)) == Some(r.error)
      ensures r.Ok? ==> count >= 1 && IsParentQuery(rows) && Ascending(r.value)
                        && GoodChoice(rows, (set p | p in r.value), minimum, count, MAX_EXPANDED, MAX_EXPANDED)
      ensures r.Err? || old(HasChoice(minimum, count)) ==>
                parents == old(parents) && relations == old(relations) && nextFactorId == old(nextFactorId)
                && ownedParents == old(ownedParents) && ownedPairs == old(ownedPairs)
      ensures r.Ok? && !old(HasChoice(minimum, count)) ==>
                nextFactorId == old(nextFactorId) + count && |chosen| == minimum && Increasing(chosen)
                && (forall x :: x in chosen ==> x in old(UsableSubFactors()))
                && (forall id :: id in parents <==>
                      id in old(parents) || old(nextFactorId) <= id < old(nextFactorId) + count)
                && (forall p :: p in relations <==>
                      p in old(relations) || IsNewPair(old(nextFactorId), count, chosen, p))
                && ownedParents == old(ownedParents)[owner :=
                     OwnedOf(old(ownedParents), owner) + set p | p in relations - old(relations) :: p.0]
                && ownedPairs == old(ownedPairs)[owner :=
                     OwnedOf(old(ownedPairs), owner) + (relations - old(relations))]
    {
      r, rows, chosen := Err(InvalidArguments), [], [];
      if minimum < 1 || count < 1 {
        return;
      }
      var before := FetchParentRows();
      rows := before;
      SearchDecides(before, minimum, count);
      var existing := FindParentChoices(before, minimum, count, MAX_EXPANDED, MAX_EXPANDED);
      if existing.Err? {
        return;
      }
      if existing.value.Some? {
        r := Ok(existing.value.value);
        return;
      }
      var choices := FindSubFactorChoices(minimum);
      if choices.Err? {
        r := Err(choices.error);
        return;
      }
      if environment != "test" {
        r := Err(WritesNotAllowed);
        return;
      }
      if sources == {} {
        r := Err(NoSourceRow);
        return;
      }
      chosen := Prepare(owner, minimum, count, choices.value);
      var after := FetchParentRows();
      rows := after;
      SearchDecides(after, minimum, count);
      var prepared := FindParentChoices(after, minimum, count, MAX_EXPANDED, MAX_EXPANDED);
      if prepared.value.None? {
        assert false;
        r := Err(CannotBeReadBack);
      } else {
        r := Ok(prepared.value.value);
      }
    }
  }

  /** `setdefault(owner, set())` */
  function OwnedOf<T>(owned: map<int, set<T>>, owner: int): set<T> {
    if owner in owned then owned[owner] else {}
  }
}
