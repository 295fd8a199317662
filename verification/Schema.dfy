/** The relational tables that the factor-combination cleanup reads and deletes from, as finite maps from
    primary key to row.  A row is a dictionary from column to value, as the database client returns it; an absent
    column is NULL.  The columns listed in References are the foreign keys the cleanup has to respect. */
module Schema {

  datatype Value = Null | Int(n: int) | Text(s: string)

  datatype Table =
    | Forms            // factor_combo_form
    | Versions         // factor_combo
    | Experiments      // factor_combo_experiment_info
    | Metrics          // factor_combo_metrics
    | Registrations    // factor_combo_registered_factor
    | Components       // factor_combo_component
    | Members          // factor_combo_pool_member
    | Pools            // factor_combo_pool
    | Feedbacks        // factor_combo_experiment_feedback
    | SubFactors       // sub_factors
    | Details          // factors_details
    | ParentRelations  // sub_factor_parent_relations
    | FactorRelations  // factor_sub_factor_relations
    | ThemeRelations   // factor_theme_relations
    | Factors          // factors
    | Validities       // factor_validity_status
    | IcSlices         // factor_ic_slice_metrics
    | ValueSlices      // factor_value_slice_metrics
    | IcSummaries      // factor_ic_summary_metrics
    | Refreshes        // sub_factor_refreshes
    | Messages         // chat_messages
    | Sessions         // chat_sessions

  datatype Column =
    | Id
    | SessionId
    | FormId                // form_id, factor_combo_form_id
    | InitialFormId
    | PoolId                // pool_id, factor_combo_pool_id
    | VersionId             // factor_combo_id of a form
    | SourceVersionId
    | NextVersionId
    | ComboId
    | VersionHash
    | ExperimentId          // experiment_id, experiment_info_id, factor_combo_experiment_info_id
    | BestExperimentId
    | NextExperimentId
    | MetricsId
    | FactorId
    | SubFactorId
    | ParentSubFactorId
    | ComponentFactorId
    | ComponentSubFactorId
    | IsSubFactor
    | FactorName
    | PipelineRunId
    | Status

  type Row = map<Column, Value>
  type Db = map<Table, map<int, Row>>

  function Rows(db: Db, table: Table): map<int, Row> {
    if table in db then db[table] else map[]
  }

  /** The value of a column; the primary key is a column too, and a missing cell is NULL. */
  function Cell(id: int, row: Row, column: Column): Value {
    if column == Id then Int(id) else if column in row then row[column] else Null
  }

  /** `column` of the row with key `id`, NULL when there is no such row. */
  function At(db: Db, table: Table, id: int, column: Column): Value {
    if id in Rows(db, table) then Cell(id, Rows(db, table)[id], column) else Null
  }

  /** The cell holds an integer that belongs to `ids`: the meaning of `column IN (ids)`. */
  predicate CellIn(v: Value, ids: set<int>) {
    v.Int? && v.n in ids
  }

  /** Foreign keys with RESTRICT semantics: `child.column` names a row of `parent`. */
  predicate References(child: Table, column: Column, parent: Table) {
    match child
    case Components =>
      || (column == ComboId && parent == Versions)
      || (column == ComponentSubFactorId && parent == SubFactors)
      || (column == ComponentFactorId && parent == Factors)
    case Members =>
      || (column == SubFactorId && parent == SubFactors)
      || (column == PoolId && parent == Pools)
      || (column == FormId && parent == Forms)
    case Feedbacks =>
      || (column == FormId && parent == Forms)
      || ((column == SourceVersionId || column == NextVersionId) && parent == Versions)
      || (column == NextExperimentId && parent == Experiments)
    case Versions =>
      || ((column == ExperimentId || column == BestExperimentId) && parent == Experiments)
      || (column == PoolId && parent == Pools)
      || (column == InitialFormId && parent == Forms)
    case Forms =>
      || (column == VersionId && parent == Versions)
      || (column == ExperimentId && parent == Experiments)
      || (column == SessionId && parent == Sessions)
    case Experiments => column == MetricsId && parent == Metrics
    case Metrics => column == ExperimentId && parent == Experiments
    case Registrations => column == SubFactorId && parent == SubFactors
    case ParentRelations => (column == ParentSubFactorId || column == SubFactorId) && parent == SubFactors
    case FactorRelations =>
      || (column == SubFactorId && parent == SubFactors)
      || (column == FactorId && parent == Factors)
    case ThemeRelations => column == FactorId && parent == Factors
    case Refreshes => column == SubFactorId && parent == SubFactors
    case Pools => column == FormId && parent == Forms
    case Messages => column == SessionId && parent == Sessions
    case _ => false
  }

  /** Row `id` of `child` points through `column` at a row that does not exist. */
  predicate Dangling(db: Db, child: Table, id: int, column: Column, parent: Table) {
    && References(child, column, parent)
    && id in Rows(db, child)
    && At(db, child, id, column).Int?
    && At(db, child, id, column).n !in Rows(db, parent)
  }

  /** Referential integrity: no foreign key dangles. */
  ghost predicate Consistent(db: Db) {
    forall child, id, column, parent :: !Dangling(db, child, id, column, parent)
  }
}
