/** `check_status_category`: following a server's cursors through one catalog selection, whatever the server answers. */
module Catalog {
  import opened Outcomes

  const PAGE_LIMIT: nat := 50

  /** The `next_cursor` of a page: null, a string, or a value of another type.  `inMeta`: the key is present. */
  datatype Cursor = NoCursor(inMeta: bool) | Text(value: string) | Other(truthy: bool)

  /** An identifier as returned: None unless it is a positive integer. */
  type Id = Option<int>

  /** `returnedCount` is None when the page does not give it, `truncated` when it is not a boolean. */
  datatype Page = Page(
    ids: seq<Id>, returnedCount: Option<int>, next: Cursor, truncated: Option<bool>, budgetWarning: bool)

  /** What a request gets: a page, or a data precondition that is not met. */
  datatype Reply = Reply(page: Page) | Precondition

  /** The answer to the request number `step`: it may depend on everything asked before. */
  type Server = (nat, Option<string>) -> Reply

  datatype Issue =
    | PAGE_LIMIT_EXCEEDED | RETURNED_COUNT | BUDGET_TERMINAL_CONTRACT | CURSOR_TRUNCATION | INVALID_ID
    | DUPLICATE_IDENTITY | COMPLETE_MEMBERSHIP

  datatype Termination = Invalid | Complete | Bounded | Blocked

  datatype Traversal =
    | Finished(ids: seq<Id>, termination: Termination, issues: seq<Issue>, pages: nat, fullMembership: bool)
    | CursorRepeatedOrMalformed
    | TooManyPages

  function MaximumPages(database: set<int>): nat {
    if |database| + 1 >= 2 then |database| + 1 else 2
  }

  // ---- One page ----

  function PageIssues(page: Page): seq<Issue> {
    (if |page.ids| > PAGE_LIMIT then [PAGE_LIMIT_EXCEEDED] else [])
    + (if page.returnedCount.Some? && page.returnedCount.value != |page.ids| then [RETURNED_COUNT] else [])
  }

  predicate Truthy(c: Cursor) {
    match c
    case NoCursor(_) => false
    case Text(value) => value != ""
    case Other(truthy) => truthy
  }

  function TruncationIssues(page: Page): seq<Issue> {
    if page.truncated == Some(Truthy(page.next)) then [] else [CURSOR_TRUNCATION]
  }

  /** The declared boundary of a chain of cursors. */
  predicate DeclaredBoundary(page: Page) {
    page.truncated == Some(true) && page.next == NoCursor(true)
  }

  /** A cursor that can be followed. */
  predicate Fresh(page: Page, seen: set<string>) {
    page.next.Text? && page.next.value != "" && page.next.value !in seen && page.ids != []
  }

  // ---- The verdict on what was read ----

  function Valid(ids: seq<Id>): seq<int> {
    if ids == [] then []
    else Valid(ids[..|ids| - 1]) + if ids[|ids| - 1].Some? then [ids[|ids| - 1].value] else []
  }

  function SetOf(s: seq<int>): set<int> {
    set i | 0 <= i < |s| :: s[i]
  }

  predicate FullMembership(ids: seq<Id>, termination: Termination, database: set<int>) {
    termination == Complete && |Valid(ids)| == |ids| && SetOf(Valid(ids)) == database && |Valid(ids)| == |database|
  }

  function Conclude(ids: seq<Id>, termination: Termination, issues: seq<Issue>, pages: nat,
      database: set<int>): Traversal {
    var full := FullMembership(ids, termination, database);
    Finished(
      ids, termination,
      issues
      + (if |Valid(ids)| != |ids| then [INVALID_ID] else [])
      + (if |SetOf(Valid(ids))| != |Valid(ids)| then [DUPLICATE_IDENTITY] else [])
      + (if termination == Complete && !full then [COMPLETE_MEMBERSHIP] else []),
      pages, full)
  }

  /** The traversal from request number `step` on. */
  function Traverse(
      server: Server, step: nat, cursor: Option<string>, seen: set<string>, ids: seq<Id>, issues: seq<Issue>,
      database: set<int>): Traversal
    requires step <= MaximumPages(database)
    decreases MaximumPages(database) - step
  {
    if step == MaximumPages(database) then TooManyPages
    else
      match server(step, cursor)
      case Precondition => Conclude(ids, Blocked, issues, step, database)
      case Reply(page) =>
        var all, found := ids + page.ids, issues + PageIssues(page);
        if page.budgetWarning then
          if DeclaredBoundary(page) then Conclude(all, Bounded, found, step + 1, database)
          else Conclude(all, Invalid, found + [BUDGET_TERMINAL_CONTRACT], step + 1, database)
        else if page.next.NoCursor? then
          Conclude(
            all, if page.truncated == Some(false) then Complete else Invalid, found + TruncationIssues(page), step + 1,
            database)
        else if !Fresh(page, seen) then CursorRepeatedOrMalformed
        else
          Traverse(
            server, step + 1, Some(page.next.value), seen + {page.next.value}, all, found + TruncationIssues(page),
            database)
  }

  /** The loop of `check_status_category` over the pages, and its conclusion. */
  method CheckTraversal(server: Server, database: set<int>) returns (r: Traversal)
    ensures r == Traverse(server, 0, None, {}, [], [], database)
  {
    var ids: seq<Id>, issues: seq<Issue>, seen: set<string>, cursor: Option<string> := [], [], {}, None;
    var termination, pageCount := Invalid, 0;
    for step := 0 to MaximumPages(database)
      invariant pageCount == step
      invariant Traverse(server, 0, None, {}, [], [], database)
        == Traverse(server, step, cursor, seen, ids, issues, database)
    {
      var reply := server(step, cursor);
      if reply.Precondition? {
        return Conclude(ids, Blocked, issues, pageCount, database);
      }
      var page := reply.page;
      pageCount := pageCount + 1;
      ids, issues := ids + page.ids, issues + PageIssues(page);
      if page.budgetWarning {
        if DeclaredBoundary(page) {
          termination := Bounded;
        } else {
          issues := issues + [BUDGET_TERMINAL_CONTRACT];
        }
        return Conclude(ids, termination, issues, pageCount, database);
      }
      issues := issues + TruncationIssues(page);
      if page.next.NoCursor? {
        if page.truncated == Some(false) {
          termination := Complete;
        }
        return Conclude(ids, termination, issues, pageCount, database);
      }
      if !Fresh(page, seen) {
        return CursorRepeatedOrMalformed;
      }
      cursor := Some(page.next.value);
      seen := seen + {page.next.value};
    }
    return TooManyPages;
  }

  // ---- Full membership ----

  /** A duplicate-free enumeration of the database. */
  ghost predicate Enumerates(ids: seq<Id>, database: set<int>) {
    (forall i :: 0 <= i < |ids| ==> ids[i].Some?)
    && (forall i, j :: 0 <= i < j < |ids| ==> ids[i] != ids[j])
    && forall x :: x in database <==> Some(x) in ids
  }

  lemma {:induction false} ValidMeans(ids: seq<Id>)
    ensures |Valid(ids)| <= |ids|
    ensures |Valid(ids)| == |ids| <==> forall i :: 0 <= i < |ids| ==> ids[i].Some?
    ensures |Valid(ids)| == |ids| ==> forall i :: 0 <= i < |ids| ==> ids[i] == Some(Valid(ids)[i])
  {
    if ids == [] {
    } else {
      ValidMeans(ids[..|ids| - 1]);
    }
  }

  lemma {:induction false} SizeMeansDistinct(s: seq<int>)
    ensures |SetOf(s)| <= |s|
    ensures |SetOf(s)| == |s| <==> forall i, j :: 0 <= i < j < |s| ==> s[i] != s[j]
  {
    if s == [] {
    } else {
      var rest, last := s[..|s| - 1], s[|s| - 1];
      SizeMeansDistinct(rest);
      assert SetOf(s) == SetOf(rest) + {last};
      if last in SetOf(rest) {
        assert SetOf(s) == SetOf(rest);
        var i :| 0 <= i < |rest| && rest[i] == last;
        assert s[i] == s[|s| - 1];
      } else {
        assert |SetOf(s)| == |SetOf(rest)| + 1;
        assert forall i :: 0 <= i < |rest| ==> s[i] in SetOf(rest);
      }
    }
  }

  lemma ValidElements(ids: seq<Id>)
    requires |Valid(ids)| == |ids|
    ensures forall x :: x in SetOf(Valid(ids)) <==> Some(x) in ids
    ensures |SetOf(Valid(ids))| == |Valid(ids)| <==> forall i, j :: 0 <= i < j < |ids| ==> ids[i] != ids[j]
  {
    var valid := Valid(ids);
    ValidMeans(ids);
    SizeMeansDistinct(valid);
    forall x
      ensures x in SetOf(valid) <==> Some(x) in ids
    {
      if x in SetOf(valid) {
        var i :| 0 <= i < |valid| && valid[i] == x;
        assert ids[i] == Some(x);
      }
      if Some(x) in ids {
        var i :| 0 <= i < |ids| && ids[i] == Some(x);
        assert valid[i] == x;
      }
    }
  }

  lemma CountsMeanEnumeration(ids: seq<Id>, database: set<int>)
    ensures |Valid(ids)| == |ids| && SetOf(Valid(ids)) == database && |Valid(ids)| == |database|
      <==> Enumerates(ids, database)
  {
    ValidMeans(ids);
    if |Valid(ids)| == |ids| {
      ValidElements(ids);
      if forall x :: x in database <==> Some(x) in ids {
        assert SetOf(Valid(ids)) == database;
      }
    }
  }

  /** Pages that end naturally: each answers the cursor of the one before, the last has none and is not truncated. */
  ghost predicate Natural(server: Server, step: nat, cursor: Option<string>, pages: seq<Page>)
    decreases |pages|
  {
    pages != [] && server(step, cursor) == Reply(pages[0]) && !pages[0].budgetWarning
    && if |pages| == 1 then pages[0].next.NoCursor? && pages[0].truncated == Some(false)
       else pages[0].next.Text? && Natural(server, step + 1, Some(pages[0].next.value), pages[1..])
  }

  function AllIds(pages: seq<Page>): seq<Id> {
    if pages == [] then [] else pages[0].ids + AllIds(pages[1..])
  }

  /** What was read before a natural end is what a natural chain of pages contains. */
  lemma {:induction false} CompleteIsNatural(
      server: Server, step: nat, cursor: Option<string>, seen: set<string>, ids: seq<Id>, issues: seq<Issue>,
      database: set<int>)
      returns (pages: seq<Page>)
    requires step <= MaximumPages(database)
    requires var r := Traverse(server, step, cursor, seen, ids, issues, database);
             r.Finished? && r.termination == Complete
    ensures Natural(server, step, cursor, pages)
    ensures Traverse(server, step, cursor, seen, ids, issues, database).ids == ids + AllIds(pages)
    decreases MaximumPages(database) - step
  {
    var page := server(step, cursor).page;
    assert ids + AllIds([page]) == ids + page.ids;
    pages := [page];
    if page.next.NoCursor? {
    } else {
      var rest := CompleteIsNatural(
        server, step + 1, Some(page.next.value), seen + {page.next.value}, ids + page.ids,
        issues + PageIssues(page) + TruncationIssues(page), database);
      pages := [page] + rest;
      assert pages[1..] == rest;
      assert ids + page.ids + AllIds(rest) == ids + AllIds(pages);
    }
  }

  lemma {:induction false} FinishedIsConcluded(
      server: Server, step: nat, cursor: Option<string>, seen: set<string>, ids: seq<Id>, issues: seq<Issue>,
      database: set<int>)
    requires step <= MaximumPages(database)
    ensures
      var r := Traverse(server, step, cursor, seen, ids, issues, database);
      r.Finished? ==>
        r.pages <= MaximumPages(database) && r.fullMembership == FullMembership(r.ids, r.termination, database)
    decreases MaximumPages(database) - step
  {
    if step >= MaximumPages(database) {
    } else {
      var reply := server(step, cursor);
      if reply.Reply? && !reply.page.budgetWarning && Fresh(reply.page, seen) {
        var page := reply.page;
        FinishedIsConcluded(
          server, step + 1, Some(page.next.value), seen + {page.next.value}, ids + page.ids,
          issues + PageIssues(page) + TruncationIssues(page), database);
      }
    }
  }

  /** Against any server: full membership is claimed exactly when the traversal ended naturally with a duplicate-free
      enumeration of the database, after at most max(2, n + 1) pages. */
  lemma FullMembershipIsEarned(server: Server, database: set<int>) returns (pages: seq<Page>)
    ensures
      var r := Traverse(server, 0, None, {}, [], [], database);
      r.Finished? ==>
        r.pages <= MaximumPages(database)
        && (r.fullMembership <==> r.termination == Complete && Enumerates(r.ids, database))
        && (r.termination == Complete ==> Natural(server, 0, None, pages) && r.ids == AllIds(pages))
  {
    var r := Traverse(server, 0, None, {}, [], [], database);
    FinishedIsConcluded(server, 0, None, {}, [], [], database);
    pages := [];
    if r.Finished? {
      CountsMeanEnumeration(r.ids, database);
      if r.termination == Complete {
        pages := CompleteIsNatural(server, 0, None, {}, [], [], database);
        assert [] + AllIds(pages) == AllIds(pages);
      }
    }
  }

  // ---- An honest server ----

  /** Only the last page may be empty, cursors are fresh, and pages describe themselves correctly. */
  ghost predicate Honest(pages: seq<Page>, seen: set<string>)
    decreases |pages|
  {
    pages != []
    && PageIssues(pages[0]) == [] && TruncationIssues(pages[0]) == []
    && (|pages| > 1 ==> Fresh(pages[0], seen) && Honest(pages[1..], seen + {pages[0].next.value}))
  }

  lemma {:induction false} FewPages(pages: seq<Page>, seen: set<string>)
    requires Honest(pages, seen)
    ensures |pages| <= |AllIds(pages)| + 1
  {
    if |pages| <= 1 {
    } else {
      FewPages(pages[1..], seen + {pages[0].next.value});
    }
  }

  lemma {:induction false} HonestTraversal(
      server: Server, step: nat, cursor: Option<string>, seen: set<string>, ids: seq<Id>, database: set<int>,
      pages: seq<Page>)
    requires Natural(server, step, cursor, pages) && Honest(pages, seen)
    requires step + |pages| <= MaximumPages(database)
    ensures Traverse(server, step, cursor, seen, ids, [], database)
         == Conclude(ids + AllIds(pages), Complete, [], step + |pages|, database)
    decreases |pages|
  {
    var page := pages[0];
    assert [] + PageIssues(page) + TruncationIssues(page) == [];
    if |pages| == 1 {
      assert ids + AllIds(pages) == ids + page.ids;
    } else {
      HonestTraversal(
        server, step + 1, Some(page.next.value), seen + {page.next.value}, ids + page.ids, database, pages[1..]);
      assert ids + page.ids + AllIds(pages[1..]) == ids + AllIds(pages);
    }
  }

  lemma EnumerationSize(ids: seq<Id>, database: set<int>)
    requires Enumerates(ids, database)
    ensures |ids| == |database|
  {
    CountsMeanEnumeration(ids, database);
  }

  /** A server that pages the database with fresh cursors and non-empty pages before the last never meets the cap on
      pages: the traversal completes without an issue and claims full membership. */
  lemma HonestServerIsVerified(server: Server, database: set<int>, pages: seq<Page>)
    requires Natural(server, 0, None, pages) && Honest(pages, {}) && Enumerates(AllIds(pages), database)
    ensures Traverse(server, 0, None, {}, [], [], database) == Finished(AllIds(pages), Complete, [], |pages|, true)
  {
    FewPages(pages, {});
    EnumerationSize(AllIds(pages), database);
    HonestTraversal(server, 0, None, {}, [], database, pages);
    assert [] + AllIds(pages) == AllIds(pages);
    SilentConclusion(AllIds(pages), |pages|, database);
  }

  lemma SilentConclusion(ids: seq<Id>, pages: nat, database: set<int>)
    requires Enumerates(ids, database)
    ensures Conclude(ids, Complete, [], pages, database) == Finished(ids, Complete, [], pages, true)
  {
    CountsMeanEnumeration(ids, database);
  }
}
