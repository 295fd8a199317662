/** `_dependencies`: a depth-first search over the derived fields that the required fields of a formula lead to. */
module Dependencies {
  import opened Outcomes

  // ---- The schema ----

  /** A decoded `dependency_fields_json`; an item is None when it is not a string. */
  datatype Decoded = NotAList | List(items: seq<Option<string>>)

  datatype Evidence = Absent | BadJson | Decoded(value: Decoded)

  /** A row of the mappings (raw fields) or of the resolutions (derived fields).  `sourced` says that dataset and field
      of the source are both given; `version` is None when the row does not carry one. */
  datatype Row = Row(fieldName: Option<string>, version: Option<string>, sourced: bool, evidence: Evidence)

  /** A row is None when it is not a mapping. */
  datatype Schema = Schema(version: string, mappings: seq<Option<Row>>, resolutions: seq<Option<Row>>)

  datatype Finding =
    | DUPLICATE_OR_MISSING_FIELD_IDENTITY | ROW_VERSION_MISMATCH | REQUIRED_FIELD_INVALID | REQUIRED_FIELDS_MISSING
    | DEPENDENCY_CYCLE | PRECEDENCE_UNDEFINED | RAW_SOURCE_MISSING | INPUT_NOT_IN_BOUND_SCHEMA
    | DEPENDENCY_EVIDENCE_MISSING | DEPENDENCY_INVALID_JSON | DEPENDENCY_INVALID_FIELDS

  const ABOUT_INPUTS := {
    DUPLICATE_OR_MISSING_FIELD_IDENTITY, ROW_VERSION_MISMATCH, REQUIRED_FIELD_INVALID, REQUIRED_FIELDS_MISSING}

  /** Findings that go to the list of blocked evidence instead of the list of issues. */
  const BLOCKING := {REQUIRED_FIELDS_MISSING, PRECEDENCE_UNDEFINED, DEPENDENCY_EVIDENCE_MISSING}

  predicate Named(row: Option<Row>) {
    row.Some? && row.value.fieldName.Some? && row.value.fieldName.value != ""
  }

  /** Both indexes by field name. */
  datatype Fields = Fields(raw: map<string, Row>, derived: map<string, Row>)

  predicate Usable(e: Evidence) {
    e.Decoded? && e.value.List? && e.value.items != []
    && forall i :: 0 <= i < |e.value.items| ==> e.value.items[i].Some? && e.value.items[i].value != ""
  }

  /** A derived field whose dependencies the search follows. */
  predicate Expandable(g: Fields, name: string) {
    name in g.derived && name !in g.raw && Usable(g.derived[name].evidence)
  }

  function Deps(g: Fields, name: string): seq<string> {
    if Expandable(g, name) then
      var items := g.derived[name].evidence.value.items;
      seq(|items|, i requires 0 <= i < |items| => items[i].value)
    else []
  }

  /** What is wrong with a field by itself. */
  function Defect(g: Fields, name: string): Option<Finding> {
    if name in g.raw && name in g.derived then Some(PRECEDENCE_UNDEFINED)
    else if name in g.raw then if !g.raw[name].sourced then Some(RAW_SOURCE_MISSING) else None
    else if name !in g.derived then Some(INPUT_NOT_IN_BOUND_SCHEMA)
    else if g.derived[name].evidence.Absent? then Some(DEPENDENCY_EVIDENCE_MISSING)
    else if g.derived[name].evidence.BadJson? then Some(DEPENDENCY_INVALID_JSON)
    else if !Usable(g.derived[name].evidence) then Some(DEPENDENCY_INVALID_FIELDS)
    else None
  }

  // ---- Walks along dependencies ----

  ghost predicate Walk(g: Fields, roots: set<string>, w: seq<string>) {
    w != [] && w[0] in roots && forall i :: 0 < i < |w| ==> w[i] in Deps(g, w[i - 1])
  }

  ghost predicate Reachable(g: Fields, roots: set<string>, name: string) {
    exists w :: Walk(g, roots, w) && w[|w| - 1] == name
  }

  /** A walk that comes back to a name it has passed. */
  ghost predicate Loops(g: Fields, roots: set<string>, w: seq<string>, i: nat) {
    Walk(g, roots, w) && i < |w| - 1 && w[i] == w[|w| - 1]
  }

  ghost predicate CycleReachable(g: Fields, roots: set<string>) {
    exists w, i :: Loops(g, roots, w, i)
  }

  ghost predicate DefectReachable(g: Fields, roots: set<string>, k: Finding) {
    exists name :: Reachable(g, roots, name) && Defect(g, name) == Some(k)
  }

  ghost predicate NoRepeats(s: seq<string>) {
    forall i, j :: 0 <= i < j < |s| ==> s[i] != s[j]
  }

  /** Every reachable field once, each after all fields it depends on: the order in which values can be computed. */
  ghost predicate EvaluationOrder(g: Fields, roots: set<string>, order: seq<string>) {
    NoRepeats(order)
    && (forall name :: Reachable(g, roots, name) ==> name in order)
    && forall i, v :: 0 <= i < |order| && v in Deps(g, order[i]) ==> v in order[..i]
  }

  lemma WalkOn(g: Fields, roots: set<string>, w: seq<string>, v: string)
    requires Walk(g, roots, w) && v in Deps(g, w[|w| - 1])
    ensures Walk(g, roots, w + [v]) && Reachable(g, roots, v)
  {
    var on := w + [v];
    assert forall i :: 0 <= i < |w| ==> on[i] == w[i];
    assert on[|on| - 1] == v;
  }

  lemma RootReachable(g: Fields, roots: set<string>, name: string)
    requires name in roots
    ensures Reachable(g, roots, name)
  {
    assert Walk(g, roots, [name]) && [name][|[name]| - 1] == name;
  }

  // ---- What the search keeps ----

  /** The names being expanded, from a required field down. */
  ghost predicate Stack(g: Fields, roots: set<string>, stack: seq<string>) {
    NoRepeats(stack) && (stack != [] ==> Walk(g, roots, stack))
    && forall i :: 0 <= i < |stack| ==> Expandable(g, stack[i])
  }

  /** A name that the search is invited to: a required field or a dependency of the innermost expansion. */
  ghost predicate Invited(g: Fields, roots: set<string>, stack: seq<string>, name: string) {
    if stack == [] then name in roots else name in Deps(g, stack[|stack| - 1])
  }

  ghost predicate Faulty(g: Fields, found: set<Finding>, name: string) {
    Defect(g, name).Some? && Defect(g, name).value in found
  }

  /** Finished, or reported as faulty. */
  ghost predicate Settled(g: Fields, order: seq<string>, found: set<Finding>, name: string) {
    name in order || Faulty(g, found, name)
  }

  ghost predicate Touched(g: Fields, stack: seq<string>, order: seq<string>, found: set<Finding>, name: string) {
    name in stack || Settled(g, order, found, name)
  }

  ghost predicate EachTouched(
      g: Fields, stack: seq<string>, order: seq<string>, found: set<Finding>, names: seq<string>) {
    forall name :: name in names ==> Touched(g, stack, order, found, name)
  }

  ghost predicate EachSettled(g: Fields, order: seq<string>, found: set<Finding>, names: seq<string>) {
    forall name :: name in names ==> Settled(g, order, found, name)
  }

  /** Further findings and finished names change nothing for the names that were visited. */
  lemma EachStays(g: Fields, stack: seq<string>, order: seq<string>, found: set<Finding>,
                  order': seq<string>, found': set<Finding>, names: seq<string>)
    requires order <= order' && found <= found'
    ensures EachTouched(g, stack, order, found, names) ==> EachTouched(g, stack, order', found', names)
    ensures EachSettled(g, order, found, names) ==> EachSettled(g, order', found', names)
  {
    assert forall x :: x in order ==> x in order';
  }

  lemma OneMore(g: Fields, stack: seq<string>, order: seq<string>, found: set<Finding>,
                names: seq<string>, name: string)
    ensures EachTouched(g, stack, order, found, names) && Touched(g, stack, order, found, name)
            ==> EachTouched(g, stack, order, found, names + [name])
    ensures EachSettled(g, order, found, names) && Settled(g, order, found, name)
            ==> EachSettled(g, order, found, names + [name])
  {
  }

  ghost predicate Closed(g: Fields, stack: seq<string>, order: seq<string>, found: set<Finding>) {
    forall x, v {:trigger x in order, v in Deps(g, x)} ::
      x in order && v in Deps(g, x) ==> Touched(g, stack, order, found, v)
  }

  /** As long as no cycle was reported, dependencies finish first. */
  ghost predicate Sorted(g: Fields, order: seq<string>, found: set<Finding>) {
    DEPENDENCY_CYCLE in found
    || forall i, v :: 0 <= i < |order| && v in Deps(g, order[i]) ==> Settled(g, order[..i], found, v)
  }

  ghost predicate Justified(g: Fields, roots: set<string>, k: Finding) {
    if k in ABOUT_INPUTS then true
    else if k == DEPENDENCY_CYCLE then CycleReachable(g, roots)
    else DefectReachable(g, roots, k)
  }

  ghost predicate Finished(g: Fields, roots: set<string>, stack: seq<string>, order: seq<string>, found: set<Finding>) {
    NoRepeats(order)
    && forall x :: x in order
         ==> x !in stack && Reachable(g, roots, x) && (Defect(g, x).Some? ==> Defect(g, x).value in found)
  }

  ghost predicate Inv(g: Fields, roots: set<string>, stack: seq<string>, order: seq<string>, found: set<Finding>) {
    Stack(g, roots, stack) && Finished(g, roots, stack, order, found)
    && Closed(g, stack, order, found) && Sorted(g, order, found)
    && forall k :: k in found ==> Justified(g, roots, k)
  }

  lemma InvitedReachable(g: Fields, roots: set<string>, stack: seq<string>, name: string)
    requires Stack(g, roots, stack) && Invited(g, roots, stack, name)
    ensures Reachable(g, roots, name)
  {
    if stack == [] {
      RootReachable(g, roots, name);
    } else {
      WalkOn(g, roots, stack, name);
    }
  }

  /** More findings do not disturb what was settled. */
  lemma Report(
      g: Fields, roots: set<string>, stack: seq<string>, order: seq<string>, found: set<Finding>, k: Finding)
    requires Inv(g, roots, stack, order, found) && Justified(g, roots, k)
    ensures Inv(g, roots, stack, order, found + {k})
  {
  }

  lemma ReportCycle(
      g: Fields, roots: set<string>, stack: seq<string>, order: seq<string>, found: set<Finding>, name: string)
    requires Inv(g, roots, stack, order, found) && Invited(g, roots, stack, name) && name in stack
    ensures Inv(g, roots, stack, order, found + {DEPENDENCY_CYCLE})
  {
    WalkOn(g, roots, stack, name);
    var i :| 0 <= i < |stack| && stack[i] == name;
    assert Loops(g, roots, stack + [name], i);
    Report(g, roots, stack, order, found, DEPENDENCY_CYCLE);
  }

  lemma ReportDefect(
      g: Fields, roots: set<string>, stack: seq<string>, order: seq<string>, found: set<Finding>, name: string)
    requires Inv(g, roots, stack, order, found) && Invited(g, roots, stack, name) && Defect(g, name).Some?
    ensures Inv(g, roots, stack, order, found + {Defect(g, name).value})
  {
    InvitedReachable(g, roots, stack, name);
    Report(g, roots, stack, order, found, Defect(g, name).value);
  }

  lemma Push(g: Fields, roots: set<string>, stack: seq<string>, order: seq<string>, found: set<Finding>, name: string)
    requires Inv(g, roots, stack, order, found) && Invited(g, roots, stack, name)
    requires Expandable(g, name) && name !in stack && name !in order
    ensures Inv(g, roots, stack + [name], order, found)
  {
    if stack == [] {
      assert Walk(g, roots, [name]);
      assert stack + [name] == [name];
    } else {
      WalkOn(g, roots, stack, name);
    }
  }

  /** A name is finished: a raw field at once, a derived field when its dependencies were visited. */
  lemma Finish(g: Fields, roots: set<string>, stack: seq<string>, order: seq<string>, found: set<Finding>, name: string)
    requires Finished(g, roots, stack, order, found) && Sorted(g, order, found)
    requires name !in stack && name !in order && Reachable(g, roots, name)
    requires Defect(g, name).Some? ==> Defect(g, name).value in found
    requires DEPENDENCY_CYCLE !in found ==> forall v :: v in Deps(g, name) ==> Settled(g, order, found, v)
    ensures Finished(g, roots, stack, order + [name], found) && Sorted(g, order + [name], found)
  {
    var next := order + [name];
    assert next[..|order|] == order;
    assert forall i :: 0 <= i < |order| ==> next[..i] == order[..i] && next[i] == order[i];
  }

  lemma Pop(g: Fields, roots: set<string>, stack: seq<string>, order: seq<string>, found: set<Finding>, name: string)
    requires Inv(g, roots, stack + [name], order, found)
    requires forall v :: v in Deps(g, name) ==> Touched(g, stack + [name], order, found, v)
    requires DEPENDENCY_CYCLE !in found ==> forall v :: v in Deps(g, name) ==> Settled(g, order, found, v)
    ensures Inv(g, roots, stack, order + [name], found)
  {
    var inner := stack + [name];
    assert inner[..|stack|] == stack && inner[|stack|] == name && name in inner;
    assert forall i :: 0 <= i < |stack| ==> inner[i] == stack[i];
    assert Reachable(g, roots, name);
    assert name !in stack;
    Finish(g, roots, stack, order, found, name);
  }

  lemma FinishRaw(g: Fields, roots: set<string>, stack: seq<string>, order: seq<string>, found: set<Finding>,
      name: string)
    requires Inv(g, roots, stack, order, found) && Invited(g, roots, stack, name)
    requires Deps(g, name) == [] && name !in stack && name !in order
    requires Defect(g, name).Some? ==> Defect(g, name).value in found
    ensures Inv(g, roots, stack, order + [name], found)
  {
    InvitedReachable(g, roots, stack, name);
    Finish(g, roots, stack, order, found, name);
  }

  // ---- What a finished search says ----

  /** With nothing left on the stack, every reachable name was settled. */
  lemma {:induction false} AllSettled(
      g: Fields, roots: set<string>, order: seq<string>, found: set<Finding>, w: seq<string>)
    requires Inv(g, roots, [], order, found) && Walk(g, roots, w)
    requires forall name :: name in roots ==> Settled(g, order, found, name)
    ensures Settled(g, order, found, w[|w| - 1])
  {
    if |w| <= 1 {
    } else {
      var before := w[..|w| - 1];
      AllSettled(g, roots, order, found, before);
      var x := before[|before| - 1];
      assert w[|w| - 1] in Deps(g, x);
      assert Defect(g, x).None?;
      assert Touched(g, [], order, found, w[|w| - 1]);
    }
  }

  /** Along a walk the positions in a sorted order go down. */
  lemma {:induction false} Descends(
      g: Fields, roots: set<string>, order: seq<string>, found: set<Finding>, w: seq<string>, i: nat, j: nat, p: nat)
      returns (q: nat)
    requires Sorted(g, order, found) && DEPENDENCY_CYCLE !in found && Walk(g, roots, w)
    requires i <= j < |w| && p < |order| && order[p] == w[i] && Defect(g, w[j]).None?
    ensures q <= p && (i < j ==> q < p) && order[q] == w[j]
  {
    if i == j {
      q := p;
    } else {
      assert w[j] in Deps(g, w[j - 1]);
      var r := Descends(g, roots, order, found, w, i, j - 1, p);
      assert Settled(g, order[..r], found, w[j]);
      q :| 0 <= q < r && order[q] == w[j];
    }
  }

  lemma PassedNameIsFinished(
      g: Fields, roots: set<string>, order: seq<string>, found: set<Finding>, w: seq<string>, i: nat)
    requires Inv(g, roots, [], order, found) && Walk(g, roots, w) && i < |w| - 1
    requires forall name :: name in roots ==> Settled(g, order, found, name)
    ensures w[i] in order && Defect(g, w[i]).None?
  {
    WalkPart(g, roots, w, i);
    AllSettled(g, roots, order, found, w[..i + 1]);
    PassedIsExpandable(g, roots, w, i);
  }

  lemma WalkPart(g: Fields, roots: set<string>, w: seq<string>, i: nat)
    requires Walk(g, roots, w) && i < |w|
    ensures Walk(g, roots, w[..i + 1]) && w[..i + 1][i] == w[i]
  {
  }

  lemma PassedIsExpandable(g: Fields, roots: set<string>, w: seq<string>, i: nat)
    requires Walk(g, roots, w) && i < |w| - 1
    ensures Defect(g, w[i]).None?
  {
    assert w[i + 1] in Deps(g, w[i]);
  }

  lemma SortedWithoutLoops(
      g: Fields, roots: set<string>, order: seq<string>, found: set<Finding>, w: seq<string>, i: nat)
    requires Sorted(g, order, found) && NoRepeats(order) && Loops(g, roots, w, i)
    requires w[i] in order && Defect(g, w[i]).None?
    ensures DEPENDENCY_CYCLE in found
  {
    var p :| 0 <= p < |order| && order[p] == w[i];
    if DEPENDENCY_CYCLE !in found {
      var q := Descends(g, roots, order, found, w, i, |w| - 1, p);
      assert false;
    }
  }

  lemma CycleWasReported(g: Fields, roots: set<string>, order: seq<string>, found: set<Finding>)
    requires Inv(g, roots, [], order, found) && CycleReachable(g, roots)
    requires forall name :: name in roots ==> Settled(g, order, found, name)
    ensures DEPENDENCY_CYCLE in found
  {
    var w, i :| Loops(g, roots, w, i);
    PassedNameIsFinished(g, roots, order, found, w, i);
    SortedWithoutLoops(g, roots, order, found, w, i);
  }

  /** The findings of a finished search are exactly the defects of the reachable fields, and a cycle if there is one. */
  ghost predicate Exact(g: Fields, roots: set<string>, found: set<Finding>) {
    (DEPENDENCY_CYCLE in found <==> CycleReachable(g, roots))
    && forall k :: k !in ABOUT_INPUTS && k != DEPENDENCY_CYCLE ==> (k in found <==> DefectReachable(g, roots, k))
  }

  lemma SearchIsExact(g: Fields, roots: set<string>, order: seq<string>, found: set<Finding>)
    requires Inv(g, roots, [], order, found)
    requires forall name :: name in roots ==> Settled(g, order, found, name)
    ensures Exact(g, roots, found)
  {
    if CycleReachable(g, roots) {
      CycleWasReported(g, roots, order, found);
    }
    forall k | k !in ABOUT_INPUTS && k != DEPENDENCY_CYCLE && DefectReachable(g, roots, k)
      ensures k in found
    {
      var name :| Reachable(g, roots, name) && Defect(g, name) == Some(k);
      var w :| Walk(g, roots, w) && w[|w| - 1] == name;
      AllSettled(g, roots, order, found, w);
    }
  }

  lemma OrderEvaluates(g: Fields, roots: set<string>, order: seq<string>)
    requires Inv(g, roots, [], order, {})
    requires forall name :: name in roots ==> Settled(g, order, {}, name)
    ensures EvaluationOrder(g, roots, order)
  {
    forall name | Reachable(g, roots, name)
      ensures name in order
    {
      var w :| Walk(g, roots, w) && w[|w| - 1] == name;
      AllSettled(g, roots, order, {}, w);
    }
    forall i, v | 0 <= i < |order| && v in Deps(g, order[i])
      ensures v in order[..i]
    {
      assert Settled(g, order[..i], {}, v);
    }
  }

  // ---- The search ----

  ghost function FoundIn(issues: seq<Finding>, blocked: seq<Finding>): set<Finding> {
    (set k | k in issues) + (set k | k in blocked)
  }

  class DependencySearch {
    const g: Fields
    ghost const roots: set<string>
    var issues: seq<Finding>
    var blocked: seq<Finding>
    var visited: set<string>
    ghost var order: seq<string>
    ghost var expanded: seq<string>

    constructor (g: Fields, ghost roots: set<string>, issues: seq<Finding>, blocked: seq<Finding>)
      requires forall k :: k in issues ==> k in ABOUT_INPUTS - BLOCKING
      requires forall k :: k in blocked ==> k in ABOUT_INPUTS * BLOCKING
      ensures this.g == g && this.roots == roots && this.issues == issues && this.blocked == blocked
      ensures Searching([]) && order == [] && visited == {} && expanded == []
    {
      this.g, this.roots, this.issues, this.blocked, this.visited := g, roots, issues, blocked, {};
      this.order, this.expanded := [], [];
    }

    ghost function Found(): set<Finding>
      reads this
    {
      FoundIn(issues, blocked)
    }

    /** The invariant between two steps, while the names on `stack` are being expanded. */
    ghost predicate Searching(stack: seq<string>)
      reads this
    {
      Inv(g, roots, stack, order, Found())
      && visited == (set x | x in order)
      && (forall k :: k in issues ==> k !in BLOCKING) && (forall k :: k in blocked ==> k in BLOCKING)
      && NoRepeats(expanded) && forall x :: x in expanded ==> x in stack || x in order
    }

    /** What a step may do to the state. */
    twostate predicate Extends()
      reads this
    {
      old(issues) <= issues && old(blocked) <= blocked && old(order) <= order
      && Found() * ABOUT_INPUTS == old(Found()) * ABOUT_INPUTS
    }

    method Note(k: Finding)
      modifies this`issues, this`blocked
      ensures Found() == old(Found()) + {k}
      ensures issues == old(issues) + (if k in BLOCKING then [] else [k])
      ensures blocked == old(blocked) + (if k in BLOCKING then [k] else [])
    {
      if k in BLOCKING {
        blocked := blocked + [k];
      } else {
        issues := issues + [k];
      }
    }

    method Close(name: string)
      modifies this`order, this`visited
      ensures order == old(order) + [name] && visited == old(visited) + {name}
    {
      order := order + [name];
      visited := visited + {name};
    }

    /** A field that is not expanded: raw, unknown, or without usable evidence. */
    method VisitLeaf(name: string, ghost stack: seq<string>)
      requires Searching(stack) && Invited(g, roots, stack, name)
      requires name !in stack && name !in visited && !Expandable(g, name)
      modifies this
      ensures Searching(stack) && Extends()
      ensures Settled(g, order, Found(), name)
    {
      var defect := Defect(g, name);
      if defect.Some? {
        ReportDefect(g, roots, stack, order, Found(), name);
        Note(defect.value);
      }
      if name in g.raw && name !in g.derived {
        FinishRaw(g, roots, stack, order, Found(), name);
        Close(name);
      }
    }

    /** The dependencies of a derived field, with the field itself on the path. */
    method Expand(name: string, path: set<string>, ghost stack: seq<string>)
      requires Searching(stack) && path == (set x | x in stack) && Invited(g, roots, stack, name)
      requires name !in path && name !in visited && Expandable(g, name)
      modifies this
      ensures Searching(stack) && Extends()
      ensures Touched(g, stack, order, Found(), name)
      ensures DEPENDENCY_CYCLE !in Found() ==> Settled(g, order, Found(), name)
      decreases g.derived.Keys - path, 0
    {
      Push(g, roots, stack, order, Found(), name);
      expanded := expanded + [name];
      VisitAll(Deps(g, name), path + {name}, stack + [name]);
      Pop(g, roots, stack, order, Found(), name);
      Close(name);
    }

    /** `visit`: the names in `path` are those on the stack. */
    method Visit(name: string, path: set<string>, ghost stack: seq<string>)
      requires Searching(stack) && path == (set x | x in stack) && Invited(g, roots, stack, name)
      modifies this
      ensures Searching(stack) && Extends()
      ensures Touched(g, stack, order, Found(), name)
      ensures DEPENDENCY_CYCLE !in Found() ==> Settled(g, order, Found(), name)
      decreases g.derived.Keys - path, 1
    {
      if name in path {
        ReportCycle(g, roots, stack, order, Found(), name);
        Note(DEPENDENCY_CYCLE);
      } else if name in visited {
        return;
      } else if !Expandable(g, name) {
        VisitLeaf(name, stack);
      } else {
        Expand(name, path, stack);
      }
    }

    /** The loop over the dependencies of the innermost expansion. */
    method VisitAll(names: seq<string>, path: set<string>, ghost stack: seq<string>)
      requires Searching(stack) && path == (set x | x in stack)
      requires forall name :: name in names ==> Invited(g, roots, stack, name)
      modifies this
      ensures Searching(stack) && Extends()
      ensures forall name :: name in names ==> Touched(g, stack, order, Found(), name)
      ensures DEPENDENCY_CYCLE !in Found() ==> forall name :: name in names ==> Settled(g, order, Found(), name)
      decreases g.derived.Keys - path, 2
    {
      for i := 0 to |names|
        invariant Searching(stack) && Extends()
        invariant EachTouched(g, stack, order, Found(), names[..i])
        invariant DEPENDENCY_CYCLE !in Found() ==> EachSettled(g, order, Found(), names[..i])
      {
        ghost var finished, found := order, Found();
        Visit(names[i], path, stack);
        EachStays(g, stack, finished, found, order, Found(), names[..i]);
        assert names[..i + 1] == names[..i] + [names[i]];
        OneMore(g, stack, order, Found(), names[..i], names[i]);
      }
      assert names[..|names|] == names;
    }

    /** One required field. */
    method Require(name: Option<string>)
      requires Searching([]) && (Legal(name) ==> name.value in roots)
      modifies this
      ensures Searching([])
      ensures Legal(name) ==> Settled(g, order, Found(), name.value)
      ensures forall x :: old(Settled(g, order, Found(), x)) ==> Settled(g, order, Found(), x)
      ensures Found() * ABOUT_INPUTS
           == old(Found()) * ABOUT_INPUTS + if Legal(name) then {} else {REQUIRED_FIELD_INVALID}
    {
      if !Legal(name) {
        Report(g, roots, [], order, Found(), REQUIRED_FIELD_INVALID);
        Note(REQUIRED_FIELD_INVALID);
      } else {
        Visit(name.value, {}, []);
      }
    }
  }

  predicate Legal(name: Option<string>) {
    name.Some? && name.value != ""
  }

  // ---- The whole audit ----

  /** Rows without a usable name, or with a name that another row has. */
  predicate IdentityProblem(rows: seq<Option<Row>>) {
    (exists i :: 0 <= i < |rows| && !Named(rows[i]))
    || exists i, j {:trigger SameName(rows, i, j)} :: 0 <= i < j < |rows| && SameName(rows, i, j)
  }

  predicate SameName(rows: seq<Option<Row>>, i: nat, j: nat) {
    i < |rows| && j < |rows| && Named(rows[i]) && Named(rows[j]) && rows[i].value.fieldName == rows[j].value.fieldName
  }

  predicate VersionProblem(rows: seq<Option<Row>>, version: string) {
    exists i :: 0 <= i < |rows| && Named(rows[i]) && rows[i].value.version.Some?
           && rows[i].value.version.value != version
  }

  function RowFindings(rows: seq<Option<Row>>, version: string): seq<Finding> {
    (if IdentityProblem(rows) then [DUPLICATE_OR_MISSING_FIELD_IDENTITY] else [])
    + (if VersionProblem(rows, version) then [ROW_VERSION_MISMATCH] else [])
  }

  /** Rows by name; a later row replaces an earlier one. */
  function Index(rows: seq<Option<Row>>): map<string, Row> {
    if rows == [] then map[]
    else
      var last, rest := rows[|rows| - 1], Index(rows[..|rows| - 1]);
      if Named(last) then rest[last.value.fieldName.value := last.value] else rest
  }

  function FieldsOf(schema: Schema): Fields {
    Fields(Index(schema.mappings), Index(schema.resolutions))
  }

  function Roots(required: seq<Option<string>>): set<string> {
    set i | 0 <= i < |required| && Legal(required[i]) :: required[i].value
  }

  /** What a finding means. */
  ghost predicate Present(schema: Schema, required: seq<Option<string>>, k: Finding) {
    match k
    case DUPLICATE_OR_MISSING_FIELD_IDENTITY => IdentityProblem(schema.mappings) || IdentityProblem(schema.resolutions)
    case ROW_VERSION_MISMATCH =>
      VersionProblem(schema.mappings, schema.version) || VersionProblem(schema.resolutions, schema.version)
    case REQUIRED_FIELD_INVALID => exists i :: 0 <= i < |required| && !Legal(required[i])
    case REQUIRED_FIELDS_MISSING => required == []
    case DEPENDENCY_CYCLE => CycleReachable(FieldsOf(schema), Roots(required))
    case _ => DefectReachable(FieldsOf(schema), Roots(required), k)
  }

  /** The findings about the inputs, after the first `n` required fields. */
  ghost predicate HeaderReported(schema: Schema, required: seq<Option<string>>, n: nat, found: set<Finding>)
    requires n <= |required|
  {
    (DUPLICATE_OR_MISSING_FIELD_IDENTITY in found <==> Present(schema, required, DUPLICATE_OR_MISSING_FIELD_IDENTITY))
    && (ROW_VERSION_MISMATCH in found <==> Present(schema, required, ROW_VERSION_MISMATCH))
    && (REQUIRED_FIELDS_MISSING in found <==> required == [])
    && (REQUIRED_FIELD_INVALID in found <==> exists i :: 0 <= i < n && !Legal(required[i]))
  }

  lemma HeaderStep(schema: Schema, required: seq<Option<string>>, n: nat, before: set<Finding>, after: set<Finding>)
    requires n < |required| && HeaderReported(schema, required, n, before)
    requires after * ABOUT_INPUTS == before * ABOUT_INPUTS + if Legal(required[n]) then {} else {REQUIRED_FIELD_INVALID}
    ensures HeaderReported(schema, required, n + 1, after)
  {
    assert forall k :: k in ABOUT_INPUTS ==> (k in after <==> k in after * ABOUT_INPUTS);
    assert forall k :: k in ABOUT_INPUTS ==> (k in before <==> k in before * ABOUT_INPUTS);
  }

  lemma RowFindingsMean(rows: seq<Option<Row>>, version: string)
    ensures forall k :: k in RowFindings(rows, version)
              <==> (k == DUPLICATE_OR_MISSING_FIELD_IDENTITY && IdentityProblem(rows))
                   || (k == ROW_VERSION_MISMATCH && VersionProblem(rows, version))
  {
  }

  lemma HeaderStart(schema: Schema, required: seq<Option<string>>, header: seq<Finding>, missing: seq<Finding>)
    requires header == RowFindings(schema.mappings, schema.version) + RowFindings(schema.resolutions, schema.version)
    requires missing == if required == [] then [REQUIRED_FIELDS_MISSING] else []
    ensures HeaderReported(schema, required, 0, FoundIn(header, missing))
    ensures forall k :: k in header ==> k in ABOUT_INPUTS - BLOCKING
  {
    RowFindingsMean(schema.mappings, schema.version);
    RowFindingsMean(schema.resolutions, schema.version);
    HeaderFound(schema, header, missing);
  }

  lemma HeaderFound(schema: Schema, header: seq<Finding>, missing: seq<Finding>)
    requires header == RowFindings(schema.mappings, schema.version) + RowFindings(schema.resolutions, schema.version)
    ensures forall k :: k in header <==> k in RowFindings(schema.mappings, schema.version)
                                         || k in RowFindings(schema.resolutions, schema.version)
    ensures forall k :: k in FoundIn(header, missing) <==> k in header || k in missing
  {
  }

  /** The checks before the search. */
  method Start(schema: Schema, required: seq<Option<string>>) returns (search: DependencySearch)
    ensures fresh(search) && search.g == FieldsOf(schema) && search.roots == Roots(required)
    ensures search.Searching([]) && HeaderReported(schema, required, 0, search.Found())
  {
    var header := RowFindings(schema.mappings, schema.version) + RowFindings(schema.resolutions, schema.version);
    var missing := if required == [] then [REQUIRED_FIELDS_MISSING] else [];
    HeaderStart(schema, required, header, missing);
    search := new DependencySearch(FieldsOf(schema), Roots(required), header, missing);
  }

  /** `_dependencies` reports each problem that is present, in its list, and no other; without a report the closure of
      the required fields can be evaluated.  No derived field is expanded twice. */
  method Dependencies(schema: Schema, required: seq<Option<string>>)
      returns (issues: seq<Finding>, blocked: seq<Finding>, ghost order: seq<string>, ghost expanded: seq<string>)
    ensures forall k :: k in issues <==> k !in BLOCKING && Present(schema, required, k)
    ensures forall k :: k in blocked <==> k in BLOCKING && Present(schema, required, k)
    ensures issues == [] && blocked == [] ==> EvaluationOrder(FieldsOf(schema), Roots(required), order)
    ensures NoRepeats(expanded)
  {
    var search := Start(schema, required);
    for i := 0 to |required|
      invariant search.g == FieldsOf(schema) && search.roots == Roots(required) && search.Searching([])
      invariant HeaderReported(schema, required, i, search.Found())
      invariant forall j :: 0 <= j < i && Legal(required[j])
                  ==> Settled(search.g, search.order, search.Found(), required[j].value)
    {
      ghost var before := search.Found();
      search.Require(required[i]);
      HeaderStep(schema, required, i, before, search.Found());
    }
    issues, blocked, order, expanded := search.issues, search.blocked, search.order, search.expanded;
    ReportsAreExact(schema, required, order, issues, blocked);
  }

  lemma ReportsAreExact(
      schema: Schema, required: seq<Option<string>>, order: seq<string>, issues: seq<Finding>, blocked: seq<Finding>)
    requires Inv(FieldsOf(schema), Roots(required), [], order, FoundIn(issues, blocked))
    requires forall k :: k in issues ==> k !in BLOCKING
    requires forall k :: k in blocked ==> k in BLOCKING
    requires HeaderReported(schema, required, |required|, FoundIn(issues, blocked))
    requires forall j :: 0 <= j < |required| && Legal(required[j])
               ==> Settled(FieldsOf(schema), order, FoundIn(issues, blocked), required[j].value)
    ensures forall k :: k in issues <==> k !in BLOCKING && Present(schema, required, k)
    ensures forall k :: k in blocked <==> k in BLOCKING && Present(schema, required, k)
    ensures issues == [] && blocked == [] ==> EvaluationOrder(FieldsOf(schema), Roots(required), order)
  {
    var found := FoundIn(issues, blocked);
    SearchIsExact(FieldsOf(schema), Roots(required), order, found);
    forall k
      ensures k in found <==> Present(schema, required, k)
    {
    }
    if issues == [] && blocked == [] {
      assert found == {};
      OrderEvaluates(FieldsOf(schema), Roots(required), order);
    }
  }
}
