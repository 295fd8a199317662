/** What one cleanup run owns: the closure of forms, versions, experiments, metrics, registrations and generated
    sub-factors computed from a resource graph, and the conditions under which the run keeps everything. */
module CleanupScope {
  import opened Schema
  import opened Sql

  /** `{session_id: {form_id, ...}}`. */
  type Graph = map<int, set<int>>

  /** The identifiers handed to the deletes.  `pools` is only used by the sharing checks; the pools that are deleted
      are those whose form is owned. */
  datatype Scope = Scope(
    forms: set<int>, versions: set<int>, pools: set<int>, experiments: set<int>, metrics: set<int>,
    registrations: set<int>, subFactors: set<int>,
    factorPairs: set<(int, int)>, parentPairs: set<(int, int)>)

  const SIMULATED_PIPELINE_RUN_PREFIX := "legacy-simulated-form-"

  const TERMINAL_PIPELINE_STATUSES := {
    "completed", "complete", "success", "succeeded", "failed", "partial", "partial_failed", "partial_fail", "error",
    "cancelled", "canceled", "aborted", "skipped", "invalid", "rejected", "expired"}

  const TERMINAL_REFRESH_STATUSES := {
    "completed", "complete", "success", "succeeded", "done", "failed", "partial", "error", "cancelled", "canceled",
    "aborted", "skipped"}

  function FormIds(graph: Graph): set<int> {
    set session, form | session in graph && form in graph[session] :: form
  }

  /** Owners under which temporary parent factors may be registered: forms and sessions alike. */
  function Owners(graph: Graph): set<int> {
    FormIds(graph) + graph.Keys
  }

  predicate SingleOwner(graph: Graph) {
    forall a, b :: a in graph && b in graph && a != b ==> graph[a] !! graph[b]
  }

  /** No present form belongs to another session than the graph says. */
  predicate OwnershipConfirmed(db: Db, graph: Graph) {
    forall session :: session in graph ==>
      forall form :: form in graph[session] && form in Rows(db, Forms) ==>
        At(db, Forms, form, SessionId) == Int(session)
  }

  function OwnedForms(db: Db, graph: Graph): set<int> {
    set form | form in FormIds(graph) && form in Rows(db, Forms)
  }

  /** `column` of the given rows, NULLs dropped. */
  function Pointers(db: Db, table: Table, ids: set<int>, column: Column): set<int> {
    set id | id in ids && At(db, table, id, column).Int? :: At(db, table, id, column).n
  }

  predicate ReachedByFeedback(db: Db, forms: set<int>, version: int) {
    exists f :: f in Rows(db, Feedbacks) && CellIn(At(db, Feedbacks, f, FormId), forms)
      && (At(db, Feedbacks, f, SourceVersionId) == Int(version) || At(db, Feedbacks, f, NextVersionId) == Int(version))
  }

  /** Versions created by the forms, currently held by them, or named by their feedback chain. */
  function VersionsOf(db: Db, forms: set<int>): set<int> {
    set v | v in Rows(db, Versions) &&
      (CellIn(At(db, Versions, v, InitialFormId), forms)
       || v in Pointers(db, Forms, forms, VersionId)
       || ReachedByFeedback(db, forms, v))
  }

  function HashesOf(db: Db, versions: set<int>): set<string> {
    set v | v in versions && At(db, Versions, v, VersionHash).Text? :: At(db, Versions, v, VersionHash).s
  }

  /** Combination identities a row may carry: the version's own key or its business combination. */
  function AcceptedCombos(db: Db, versions: set<int>): set<int> {
    versions + Pointers(db, Versions, versions, ComboId)
  }

  function ExperimentsOf(db: Db, forms: set<int>, versions: set<int>): set<int> {
    Pointers(db, Versions, versions, ExperimentId)
    + Pointers(db, Versions, versions, BestExperimentId)
    + Pointers(db, Forms, forms, ExperimentId)
  }

  function MetricsOf(db: Db, experiments: set<int>, versions: set<int>): set<int> {
    set m | m in Rows(db, Metrics) &&
      (CellIn(At(db, Metrics, m, ExperimentId), experiments) || CellIn(At(db, Metrics, m, ComboId), versions))
  }

  function RegistrationsOf(db: Db, versions: set<int>): set<int> {
    set r | r in Rows(db, Registrations)
      && At(db, Registrations, r, VersionHash).Text?
      && At(db, Registrations, r, VersionHash).s in HashesOf(db, versions)
  }

  /** Registration `r` comes from version `v` of the scope: the join on the version hash. */
  predicate RegisteredFrom(db: Db, versions: set<int>, r: int, v: int) {
    && v in versions
    && At(db, Registrations, r, VersionHash).Text?
    && At(db, Versions, v, VersionHash) == At(db, Registrations, r, VersionHash)
  }

  /** Component `c` is a source of registration `r`. */
  predicate SourceOf(db: Db, versions: set<int>, r: int, c: int) {
    exists v :: v in versions && RegisteredFrom(db, versions, r, v) && At(db, Components, c, ComboId) == Int(v)
  }

  /** Parent factor and generated sub-factor pairs that the scope's own registrations explain. */
  function ExpectedFactorPairs(db: Db, versions: set<int>, registrations: set<int>): set<(int, int)> {
    (set r, c | r in registrations && c in Rows(db, Components)
       && At(db, Registrations, r, SubFactorId).Int? && SourceOf(db, versions, r, c)
       && At(db, Components, c, ComponentFactorId).Int?
       :: (At(db, Components, c, ComponentFactorId).n, At(db, Registrations, r, SubFactorId).n))
    + (set r | r in registrations
         && At(db, Registrations, r, SubFactorId).Int? && At(db, Registrations, r, FactorId).Int?
         :: (At(db, Registrations, r, FactorId).n, At(db, Registrations, r, SubFactorId).n))
  }

  /** Source sub-factor and generated sub-factor pairs explained by the same registrations. */
  function ExpectedParentPairs(db: Db, versions: set<int>, registrations: set<int>): set<(int, int)> {
    set r, c | r in registrations && c in Rows(db, Components)
      && At(db, Registrations, r, SubFactorId).Int? && SourceOf(db, versions, r, c)
      && At(db, Components, c, ComponentSubFactorId).Int?
      :: (At(db, Components, c, ComponentSubFactorId).n, At(db, Registrations, r, SubFactorId).n)
  }

  /** The whole closure, computed in the order the cleanup reads it. */
  function ScopeOf(db: Db, graph: Graph): Scope {
    var forms := OwnedForms(db, graph);
    var versions := VersionsOf(db, forms);
    var experiments := ExperimentsOf(db, forms, versions);
    var registrations := RegistrationsOf(db, versions);
    Scope(
      forms, versions,
      Pointers(db, Versions, versions, PoolId) + Pointers(db, Forms, forms, PoolId),
      experiments, MetricsOf(db, experiments, versions),
      registrations, Pointers(db, Registrations, registrations, SubFactorId),
      ExpectedFactorPairs(db, versions, registrations), ExpectedParentPairs(db, versions, registrations))
  }

  // ---- Reasons to keep the whole graph ----

  function TextOr(v: Value): string {
    if v.Text? then v.s else ""
  }

  predicate HasActivePipeline(db: Db, forms: set<int>) {
    exists form :: form in forms &&
      var run := TextOr(At(db, Forms, form, PipelineRunId));
      run != "" && !(SIMULATED_PIPELINE_RUN_PREFIX <= run)
      && TextOr(At(db, Forms, form, Status)) !in TERMINAL_PIPELINE_STATUSES
  }

  predicate VersionsIdentified(db: Db, versions: set<int>) {
    forall v :: v in versions ==> At(db, Versions, v, ComboId).Int? && TextOr(At(db, Versions, v, VersionHash)) != ""
  }

  predicate ExperimentsOwned(db: Db, sc: Scope) {
    forall e :: e in sc.experiments ==>
      e in Rows(db, Experiments) && CellIn(At(db, Experiments, e, ComboId), AcceptedCombos(db, sc.versions))
  }

  predicate MetricsOwned(db: Db, sc: Scope) {
    forall m :: m in sc.metrics ==>
      CellIn(At(db, Metrics, m, ExperimentId), sc.experiments)
      && CellIn(At(db, Metrics, m, ComboId), AcceptedCombos(db, sc.versions))
  }

  predicate MetricPointersAgree(db: Db, sc: Scope) {
    forall e :: e in sc.experiments && At(db, Experiments, e, MetricsId).Int? ==>
      var m := At(db, Experiments, e, MetricsId).n;
      m in sc.metrics && At(db, Metrics, m, ExperimentId) == Int(e)
      && At(db, Metrics, m, ComboId) == At(db, Experiments, e, ComboId)
  }

  predicate RegistrationsOwned(db: Db, sc: Scope) {
    forall r :: r in sc.registrations ==>
      At(db, Registrations, r, SubFactorId).Int?
      && CellIn(At(db, Registrations, r, ComboId), AcceptedCombos(db, sc.versions))
      && (exists v :: v in sc.versions && RegisteredFrom(db, sc.versions, r, v))
  }

  predicate HasActiveRefresh(db: Db, subFactors: set<int>) {
    exists f :: f in Rows(db, Refreshes) && CellIn(At(db, Refreshes, f, SubFactorId), subFactors)
      && TextOr(At(db, Refreshes, f, Status)) !in TERMINAL_REFRESH_STATUSES
  }

  // ---- Rows outside the scope that use an entity of the scope ----

  /** A row whose key is not in `keys` holds one of `ids` in `column`. */
  predicate UsedOutside(db: Db, table: Table, column: Column, ids: set<int>, keys: set<int>) {
    exists id :: id in Rows(db, table) && CellIn(At(db, table, id, column), ids) && id !in keys
  }

  /** A row whose owner is NULL or not in `owners` holds one of `ids` in `column`. */
  predicate UsedByOther(db: Db, table: Table, column: Column, ids: set<int>, owner: Column, owners: set<int>) {
    exists id :: id in Rows(db, table) && CellIn(At(db, table, id, column), ids)
      && !CellIn(At(db, table, id, owner), owners)
  }

  /** `column NOT IN (ids)`, without an IS NULL alternative and left out when the list is empty. */
  predicate BareNotIn(v: Value, ids: set<int>) {
    ids == {} || (!v.Null? && !CellIn(v, ids))
  }

  /** The same with a bare NOT IN, which is not true of a NULL owner. */
  predicate UsedByNamedOther(db: Db, table: Table, column: Column, ids: set<int>, owner: Column, owners: set<int>) {
    exists id :: id in Rows(db, table) && CellIn(At(db, table, id, column), ids)
      && BareNotIn(At(db, table, id, owner), owners)
  }

  predicate DiffersFromAll(a: Column, b: Column, id: int, row: Row, pairs: set<(int, int)>) {
    forall p :: p in pairs ==> Differs(a, b, id, row, p)
  }

  /** A lineage row about one of `ids` that no registration of the scope explains. */
  predicate ForeignPair(db: Db, table: Table, a: Column, b: Column, ids: set<int>, pairs: set<(int, int)>) {
    exists r :: r in Rows(db, table) && CellIn(At(db, table, r, b), ids)
      && DiffersFromAll(a, b, r, Rows(db, table)[r], pairs)
  }

  predicate PoolShared(db: Db, sc: Scope) {
    || UsedOutside(db, Versions, PoolId, sc.pools, sc.versions)
    || UsedByOther(db, Members, PoolId, sc.pools, FormId, sc.forms)
    || UsedOutside(db, Forms, PoolId, sc.pools, sc.forms)
  }

  predicate SubFactorShared(db: Db, sc: Scope) {
    || UsedOutside(db, Registrations, SubFactorId, sc.subFactors, sc.registrations)
    || ForeignPair(db, FactorRelations, FactorId, SubFactorId, sc.subFactors, sc.factorPairs)
    || UsedOutside(db, ParentRelations, ParentSubFactorId, sc.subFactors, {})
    || ForeignPair(db, ParentRelations, ParentSubFactorId, SubFactorId, sc.subFactors, sc.parentPairs)
    || UsedByNamedOther(db, Components, ComponentSubFactorId, sc.subFactors, ComboId, sc.versions)
    || UsedByNamedOther(db, Members, SubFactorId, sc.subFactors, FormId, sc.forms)
  }

  predicate ExperimentShared(db: Db, sc: Scope) {
    || UsedOutside(db, Versions, ExperimentId, sc.experiments, sc.versions)
    || UsedOutside(db, Versions, BestExperimentId, sc.experiments, sc.versions)
    || UsedOutside(db, Forms, ExperimentId, sc.experiments, sc.forms)
  }

  predicate VersionShared(db: Db, sc: Scope) {
    || UsedOutside(db, Forms, VersionId, sc.versions, sc.forms)
    || UsedByOther(db, Feedbacks, SourceVersionId, sc.versions, FormId, sc.forms)
    || UsedByOther(db, Feedbacks, NextVersionId, sc.versions, FormId, sc.forms)
    || (sc.versions != {} && UsedByOther(db, Feedbacks, NextExperimentId, sc.experiments, FormId, sc.forms))
  }

  predicate MetricShared(db: Db, sc: Scope) {
    UsedOutside(db, Experiments, MetricsId, sc.metrics, sc.experiments)
  }

  /** Some row outside the scope uses an entity of the scope, as far as the checks look. */
  predicate ExternallyReferenced(db: Db, sc: Scope) {
    PoolShared(db, sc) || SubFactorShared(db, sc) || ExperimentShared(db, sc) || VersionShared(db, sc)
    || MetricShared(db, sc)
  }

  /** Every check of the cleanup lets the scope through. */
  predicate Admissible(db: Db, sc: Scope) {
    && !HasActivePipeline(db, sc.forms)
    && VersionsIdentified(db, sc.versions)
    && ExperimentsOwned(db, sc)
    && MetricsOwned(db, sc)
    && MetricPointersAgree(db, sc)
    && RegistrationsOwned(db, sc)
    && !ExternallyReferenced(db, sc)
    && !HasActiveRefresh(db, sc.subFactors)
  }
}
