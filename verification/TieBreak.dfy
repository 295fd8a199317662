/** `check_declared_tie_breaker`: routes with equal scores must be ranked by declared fields and directions. */
module TieBreak {
  import opened Outcomes
  import opened StableSort

  /** A tie value: text fields compare as strings, numeric fields as Decimals. */
  datatype Value = Text(s: string) | Number(n: real)

  datatype Direction = Asc | Desc

  /** `key` is None when a field is missing or not finite, `rank` when `rank_no` is not an integer. */
  datatype Route = Route(id: int, key: Option<seq<Value>>, rank: Option<int>)

  // ---- The declared order ----

  /** Strings compare by code points; a prefix comes first. */
  predicate StringLess(a: string, b: string) {
    if b == "" then false
    else if a == "" then true
    else if a[0] != b[0] then a[0] < b[0]
    else StringLess(a[1..], b[1..])
  }

  /** Values under one rule are of one kind. */
  predicate ValueLess(a: Value, b: Value) {
    match (a, b)
    case (Text(x), Text(y)) => StringLess(x, y)
    case (Number(x), Number(y)) => x < y
    case (Text(_), Number(_)) => true
    case (Number(_), Text(_)) => false
  }

  /** `compare`: the first differing field decides, in the direction of its rule; -1, 0 or 1. */
  function Compare(a: seq<Value>, b: seq<Value>, rules: seq<Direction>): int
    requires |a| == |b| == |rules|
  {
    if a == [] then 0
    else if a[0] != b[0] then
      (if ValueLess(b[0], a[0]) then 1 else -1) * (if rules[0] == Asc then 1 else -1)
    else Compare(a[1..], b[1..], rules[1..])
  }

  /** Keys of the length of the rules, and ranks, are all present. */
  ghost predicate Parsed(rows: seq<Route>, rules: seq<Direction>) {
    forall r :: r in rows ==> r.key.Some? && |r.key.value| == |rules| && r.rank.Some?
  }

  predicate KeyLess(rules: seq<Direction>, a: Route, b: Route) {
    a.key.Some? && b.key.Some? && |a.key.value| == |b.key.value| == |rules|
    && Compare(a.key.value, b.key.value, rules) < 0
  }

  predicate RankLess(a: Route, b: Route) {
    a.rank.Some? && b.rank.Some? && a.rank.value < b.rank.value
  }

  lemma {:induction false} StringTrichotomy(a: string, b: string)
    ensures a != b ==> (StringLess(a, b) <==> !StringLess(b, a))
    ensures !StringLess(a, a)
  {
    if a != "" && b != "" {
      StringTrichotomy(a[1..], b[1..]);
      StringTrichotomy(a[1..], a[1..]);
      if a[0] == b[0] && a[1..] == b[1..] {
        assert a == [a[0]] + a[1..] && b == [b[0]] + b[1..];
      }
    } else if a != "" {
      StringTrichotomy(a[1..], a[1..]);
    }
  }

  lemma {:induction false} StringTransitive(a: string, b: string, c: string)
    requires StringLess(a, b) && StringLess(b, c)
    ensures StringLess(a, c)
  {
    if a != "" && a[0] == b[0] && b[0] == c[0] {
      StringTransitive(a[1..], b[1..], c[1..]);
    }
  }

  lemma ValueTrichotomy(a: Value, b: Value)
    ensures a != b ==> (ValueLess(a, b) <==> !ValueLess(b, a))
    ensures !ValueLess(a, a)
  {
    if a.Text? && b.Text? {
      StringTrichotomy(a.s, b.s);
    }
    if a.Text? {
      StringTrichotomy(a.s, a.s);
    }
  }

  lemma ValueTransitive(a: Value, b: Value, c: Value)
    requires ValueLess(a, b) && ValueLess(b, c)
    ensures ValueLess(a, c)
  {
    if a.Text? && b.Text? && c.Text? {
      StringTransitive(a.s, b.s, c.s);
    }
  }

  /** The comparison is antisymmetric, and zero only on equal keys. */
  lemma {:induction false} CompareTrichotomy(a: seq<Value>, b: seq<Value>, rules: seq<Direction>)
    requires |a| == |b| == |rules|
    ensures Compare(a, b, rules) == -Compare(b, a, rules)
    ensures Compare(a, b, rules) == 0 <==> a == b
  {
    if a == [] {
    } else {
      ValueTrichotomy(a[0], b[0]);
      CompareTrichotomy(a[1..], b[1..], rules[1..]);
      assert a == [a[0]] + a[1..] && b == [b[0]] + b[1..];
    }
  }

  lemma {:induction false} CompareTransitive(a: seq<Value>, b: seq<Value>, c: seq<Value>, rules: seq<Direction>)
    requires |a| == |b| == |c| == |rules|
    requires Compare(a, b, rules) < 0 && Compare(b, c, rules) < 0
    ensures Compare(a, c, rules) < 0
  {
    if a[0] == b[0] && b[0] == c[0] {
      CompareTransitive(a[1..], b[1..], c[1..], rules[1..]);
    } else if a[0] != b[0] && b[0] != c[0] {
      ValueTrichotomy(a[0], b[0]);
      ValueTrichotomy(b[0], c[0]);
      ValueTrichotomy(a[0], c[0]);
      if rules[0] == Asc {
        ValueTransitive(a[0], b[0], c[0]);
      } else {
        ValueTransitive(c[0], b[0], a[0]);
      }
    }
  }

  // ---- The audit of one partition ----

  function KeyOrder(rules: seq<Direction>): (Route, Route) -> bool {
    (a, b) => KeyLess(rules, a, b)
  }

  function RankOrder(): (Route, Route) -> bool {
    (a, b) => RankLess(a, b)
  }

  function Ids(rows: seq<Route>): seq<int> {
    seq(|rows|, i requires 0 <= i < |rows| => rows[i].id)
  }

  /** Expected order by the declaration against actual order by rank. */
  predicate OrderIssue(rules: seq<Direction>, tied: seq<Route>) {
    Ids(SortBy(KeyOrder(rules), tied)) != Ids(SortBy(RankOrder(), tied))
  }

  ghost predicate DistinctIds(rows: seq<Route>) {
    forall i, j :: 0 <= i < j < |rows| ==> rows[i].id != rows[j].id
  }

  ghost predicate DistinctKeys(rows: seq<Route>) {
    forall i, j :: 0 <= i < j < |rows| ==> rows[i].key != rows[j].key
  }

  ghost predicate DistinctRanks(rows: seq<Route>) {
    forall i, j :: 0 <= i < j < |rows| ==> rows[i].rank != rows[j].rank
  }

  /** Ranked before `b` although the declaration puts it after. */
  predicate Disagree(rules: seq<Direction>, a: Route, b: Route) {
    RankLess(a, b) && KeyLess(rules, b, a)
  }

  ghost predicate SomePairDisagrees(rules: seq<Direction>, rows: seq<Route>) {
    exists a, b :: a in rows && b in rows && Disagree(rules, a, b)
  }

  /** On present keys the declared order is a strict total order, so a weak order. */
  lemma KeyOrderIsWeak(rules: seq<Direction>, rows: seq<Route>)
    requires Parsed(rows, rules)
    ensures WeakOrder(KeyOrder(rules), rows)
  {
    forall a, b | a in rows && b in rows
      ensures KeyLess(rules, a, b) ==> !KeyLess(rules, b, a)
    {
      CompareTrichotomy(a.key.value, b.key.value, rules);
    }
    forall a, b, c | a in rows && b in rows && c in rows && !KeyLess(rules, a, b) && !KeyLess(rules, b, c)
      ensures !KeyLess(rules, a, c)
    {
      var x, y, z := a.key.value, b.key.value, c.key.value;
      CompareTrichotomy(x, y, rules);
      CompareTrichotomy(y, z, rules);
      CompareTrichotomy(x, z, rules);
      if Compare(z, y, rules) < 0 && Compare(y, x, rules) < 0 {
        CompareTransitive(z, y, x, rules);
      }
    }
  }

  lemma RankOrderIsWeak(rules: seq<Direction>, rows: seq<Route>)
    requires Parsed(rows, rules)
    ensures WeakOrder(RankOrder(), rows)
  {
  }

  /** Where both orders are total and no pair disagrees, they are the same comparison. */
  lemma SameComparison(rules: seq<Direction>, rows: seq<Route>, a: Route, b: Route)
    requires Parsed(rows, rules) && DistinctKeys(rows) && DistinctRanks(rows) && !SomePairDisagrees(rules, rows)
    requires a in rows && b in rows
    ensures KeyLess(rules, a, b) == RankLess(a, b)
  {
    CompareTrichotomy(a.key.value, b.key.value, rules);
    assert !Disagree(rules, a, b) && !Disagree(rules, b, a);
    var i :| 0 <= i < |rows| && rows[i] == a;
    var j :| 0 <= j < |rows| && rows[j] == b;
    assert i != j ==> a.key != b.key && a.rank != b.rank;
  }

  lemma SameIds(a: seq<Route>, b: seq<Route>, rows: seq<Route>)
    requires DistinctIds(rows) && Ids(a) == Ids(b)
    requires (forall y :: y in a ==> y in rows) && forall y :: y in b ==> y in rows
    ensures a == b
  {
    assert |a| == |Ids(a)| && |b| == |Ids(b)|;
    forall i | 0 <= i < |a|
      ensures a[i] == b[i]
    {
      assert a[i] in a && b[i] in b && Ids(a)[i] == a[i].id && Ids(b)[i] == b[i].id;
      var k :| 0 <= k < |rows| && rows[k] == a[i];
      var l :| 0 <= l < |rows| && rows[l] == b[i];
      assert k == l;
    }
  }

  /** In a common sorted sequence a pair cannot disagree. */
  lemma CommonOrder(rules: seq<Direction>, rows: seq<Route>, sorted: seq<Route>)
    requires Sorted(KeyOrder(rules), sorted) && Sorted(RankOrder(), sorted)
    requires forall y :: y in rows ==> y in sorted
    ensures !SomePairDisagrees(rules, rows)
  {
    forall a, b | a in rows && b in rows
      ensures !Disagree(rules, a, b)
    {
      var i :| 0 <= i < |sorted| && sorted[i] == a;
      var j :| 0 <= j < |sorted| && sorted[j] == b;
      if i < j {
        assert !KeyOrder(rules)(sorted[j], sorted[i]);
      } else if j < i {
        assert !RankOrder()(sorted[i], sorted[j]);
      }
    }
  }

  /** The audit reports an order issue exactly when some pair of routes is ranked against the declaration. */
  lemma OrderIssueExactlyWhen(rules: seq<Direction>, tied: seq<Route>)
    requires Parsed(tied, rules) && DistinctIds(tied) && DistinctKeys(tied) && DistinctRanks(tied)
    ensures OrderIssue(rules, tied) <==> SomePairDisagrees(rules, tied)
  {
    var expected, actual := SortBy(KeyOrder(rules), tied), SortBy(RankOrder(), tied);
    if SomePairDisagrees(rules, tied) {
      KeyOrderIsWeak(rules, tied);
      RankOrderIsWeak(rules, tied);
      SortSorted(KeyOrder(rules), tied, tied);
      SortSorted(RankOrder(), tied, tied);
      SortContents(KeyOrder(rules), tied);
      SortContents(RankOrder(), tied);
      if Ids(expected) == Ids(actual) {
        SameIds(expected, actual, tied);
        CommonOrder(rules, tied, expected);
        assert false;
      }
    } else {
      forall a, b | a in tied && b in tied
        ensures KeyOrder(rules)(a, b) == RankOrder()(a, b)
      {
        SameComparison(rules, tied, a, b);
      }
      SortAgrees(KeyOrder(rules), RankOrder(), tied);
    }
  }

  /** The verdict does not depend on the order in which the rows were read. */
  lemma RowOrderDoesNotMatter(rules: seq<Direction>, tied: seq<Route>, other: seq<Route>)
    requires Parsed(tied, rules) && DistinctIds(tied) && DistinctKeys(tied) && DistinctRanks(tied)
    requires DistinctIds(other) && DistinctKeys(other) && DistinctRanks(other)
    requires forall r :: r in tied <==> r in other
    ensures OrderIssue(rules, tied) <==> OrderIssue(rules, other)
  {
    OrderIssueExactlyWhen(rules, tied);
    OrderIssueExactlyWhen(rules, other);
  }

  // ---- The whole audit ----

  /** The partitions of equal scores with more than one route, and the declared rules when they are valid. */
  datatype Batch = Batch(id: int, rules: Option<seq<Direction>>, tied: seq<seq<Route>>)

  datatype Issue = TIED_RANK_INVALID(batch: int) | DECLARED_TIE_BREAKER_ORDER(batch: int)

  datatype Verdict = Contradicted(checked: nat, issues: seq<Issue>) | BlockedDoc | BlockedData | Confirmed(checked: nat)

  /** Route ids are primary keys, and a parsed key has a value for each rule. */
  ghost predicate WellFormed(batch: Batch) {
    forall rows :: rows in batch.tied
      ==> DistinctIds(rows)
          && forall r :: r in rows ==> batch.rules.Some? && r.key.Some? ==> |r.key.value| == |batch.rules.value|
  }

  predicate RanksValid(rows: seq<Route>) {
    (forall i, j :: 0 <= i < j < |rows| ==> rows[i].rank != rows[j].rank)
    && forall i :: 0 <= i < |rows| ==> rows[i].rank.Some? && rows[i].rank.value >= 1
  }

  predicate KeysPresent(rows: seq<Route>) {
    forall i :: 0 <= i < |rows| ==> rows[i].key.Some?
  }

  predicate KeysDiffer(rows: seq<Route>) {
    forall i, j :: 0 <= i < j < |rows| ==> rows[i].key != rows[j].key
  }

  predicate RanksPresent(rows: seq<Route>) {
    forall i :: 0 <= i < |rows| ==> rows[i].rank.Some?
  }

  predicate Checkable(rows: seq<Route>) {
    KeysPresent(rows) && KeysDiffer(rows) && RanksPresent(rows)
  }

  /** A partition that is ranked as declared. */
  ghost predicate RankedAsDeclared(rules: seq<Direction>, rows: seq<Route>) {
    Checkable(rows) && RanksValid(rows) && !SomePairDisagrees(rules, rows)
  }

  function PartitionIssues(batch: int, rules: seq<Direction>, rows: seq<Route>): seq<Issue> {
    (if RanksValid(rows) then [] else [TIED_RANK_INVALID(batch)])
    + (if OrderIssue(rules, rows) then [DECLARED_TIE_BREAKER_ORDER(batch)] else [])
  }

  lemma PartitionSilent(batch: Batch, rows: seq<Route>)
    requires WellFormed(batch) && batch.rules.Some? && rows in batch.tied && Checkable(rows)
    ensures PartitionIssues(batch.id, batch.rules.value, rows) == [] <==> RankedAsDeclared(batch.rules.value, rows)
  {
    if RanksValid(rows) {
      OrderIssueExactlyWhen(batch.rules.value, rows);
    }
  }

  ghost predicate BatchRanked(batch: Batch) {
    batch.tied == []
    || (batch.rules.Some? && forall rows :: rows in batch.tied ==> RankedAsDeclared(batch.rules.value, rows))
  }

  /** A partition whose order the declared rules do not determine. */
  predicate Undetermined(rows: seq<Route>) {
    KeysPresent(rows) && !KeysDiffer(rows)
  }

  /** A partition with a missing tie value, or else with a missing rank. */
  predicate Lacking(rows: seq<Route>) {
    !KeysPresent(rows) || (KeysDiffer(rows) && !RanksPresent(rows))
  }

  ghost predicate LacksEvidence(batch: Batch) {
    batch.rules.Some? && exists rows :: rows in batch.tied && Lacking(rows)
  }

  /** The batch needs rules that it does not declare, or declares rules that leave a tie. */
  ghost predicate Undocumented(batch: Batch) {
    batch.tied != [] && (batch.rules.None? || exists rows :: rows in batch.tied && Undetermined(rows))
  }

  /** A partition of the batch contradicts its declared rules. */
  ghost predicate Contradicts(batch: Batch) {
    batch.rules.Some?
    && exists rows :: rows in batch.tied && Checkable(rows) && !RankedAsDeclared(batch.rules.value, rows)
  }

  /** The partitions of one batch with declared rules. */
  method CheckBatch(batch: Batch, rules: seq<Direction>)
      returns (issues: seq<Issue>, checked: nat, missing: bool, undocumented: bool)
    requires WellFormed(batch) && batch.rules == Some(rules)
    ensures issues == [] && !missing && !undocumented
      <==> forall rows :: rows in batch.tied ==> RankedAsDeclared(rules, rows)
    ensures checked <= |batch.tied| && (!missing && !undocumented ==> checked == |batch.tied|)
    ensures issues != [] <==> Contradicts(batch)
    ensures undocumented <==> exists rows :: rows in batch.tied && Undetermined(rows)
    ensures missing <==> LacksEvidence(batch)
  {
    issues, checked, missing, undocumented := [], 0, false, false;
    for i := 0 to |batch.tied|
      invariant checked <= i && (!missing && !undocumented ==> checked == i)
      invariant undocumented <==> exists k :: 0 <= k < i && Undetermined(batch.tied[k])
      invariant missing <==> exists k :: 0 <= k < i && Lacking(batch.tied[k])
      invariant missing || undocumented <==> exists k :: 0 <= k < i && !Checkable(batch.tied[k])
      invariant issues != [] <==>
        exists k :: 0 <= k < i && Checkable(batch.tied[k]) && !RankedAsDeclared(rules, batch.tied[k])
    {
      var rows := batch.tied[i];
      assert rows in batch.tied;
      if !KeysPresent(rows) {
        missing := true;
        continue;
      }
      if !KeysDiffer(rows) {
        undocumented := true;
        continue;
      }
      if !RanksPresent(rows) {
        missing := true;
        continue;
      }
      PartitionSilent(batch, rows);
      issues := issues + PartitionIssues(batch.id, rules, rows);
      checked := checked + 1;
    }
    assert forall k :: 0 <= k < |batch.tied| ==> batch.tied[k] in batch.tied;
    if issues == [] && !missing && !undocumented {
      forall rows | rows in batch.tied
        ensures RankedAsDeclared(rules, rows)
      {
        var k :| 0 <= k < |batch.tied| && batch.tied[k] == rows;
      }
    }
  }

  /** One batch: nothing to check without ties, and nothing to check against without rules. */
  method CheckTies(batch: Batch) returns (issues: seq<Issue>, checked: nat, missing: bool, undocumented: bool)
    requires WellFormed(batch)
    ensures issues == [] && !missing && !undocumented <==> BatchRanked(batch)
    ensures !missing && !undocumented ==> (checked > 0 <==> batch.tied != [])
    ensures issues != [] <==> Contradicts(batch)
    ensures undocumented <==> Undocumented(batch)
    ensures missing <==> LacksEvidence(batch)
  {
    issues, checked, missing, undocumented := [], 0, false, false;
    if batch.tied == [] {
      return;
    }
    if batch.rules.None? {
      return [], 0, false, true;
    }
    issues, checked, missing, undocumented := CheckBatch(batch, batch.rules.value);
  }

  /** `check_declared_tie_breaker` confirms exactly when there are tied partitions and all of them are ranked as
      declared; a contradiction outranks whatever could not be checked. */
  method CheckDeclaredTieBreaker(batches: seq<Batch>) returns (r: Verdict)
    requires forall batch :: batch in batches ==> WellFormed(batch)
    ensures r.Confirmed? <==>
      (exists batch :: batch in batches && batch.tied != []) && forall batch :: batch in batches ==> BatchRanked(batch)
    ensures r.Contradicted? <==> exists batch :: batch in batches && Contradicts(batch)
    ensures r.BlockedDoc? <==>
      (forall batch :: batch in batches ==> !Contradicts(batch))
      && exists batch :: batch in batches && Undocumented(batch)
    ensures r.BlockedData? <==>
      (forall batch :: batch in batches ==> !Contradicts(batch) && !Undocumented(batch))
      && ((forall batch :: batch in batches ==> batch.tied == [])
          || exists batch :: batch in batches && LacksEvidence(batch))
  {
    var issues: seq<Issue>, checked, missing, undocumented := [], 0, false, false;
    for i := 0 to |batches|
      invariant missing || undocumented || issues != [] <==> exists k :: 0 <= k < i && !BatchRanked(batches[k])
      invariant !missing && !undocumented && issues == [] ==>
        (checked > 0 <==> exists k :: 0 <= k < i && batches[k].tied != [])
      invariant issues != [] <==> exists k :: 0 <= k < i && Contradicts(batches[k])
      invariant undocumented <==> exists k :: 0 <= k < i && Undocumented(batches[k])
      invariant missing <==> exists k :: 0 <= k < i && LacksEvidence(batches[k])
    {
      assert batches[i] in batches;
      var found, count, lacking, unclear := CheckTies(batches[i]);
      issues, checked := issues + found, checked + count;
      missing, undocumented := missing || lacking, undocumented || unclear;
    }
    if issues != [] {
      return Contradicted(if checked > 1 then checked else 1, issues);
    }
    if undocumented {
      return BlockedDoc;
    }
    if checked == 0 || missing {
      return BlockedData;
    }
    return Confirmed(checked);
  }
}
