/** Values shared by the reader, the writer and the orchestrator. */
module Records {

  /** Python's `None` or a string. */
  datatype Option<+T> = None | Some(value: T)

  /** One data row as the CSV reader yields it: header column to cell.
      A row shorter than the header gives `None` for its trailing columns. */
  type Row = map<string, Option<string>>

  /** One extracted record: requested columns (and perhaps the environment
      column) to values. Python dict equality is map equality. */
  type Record = map<string, Option<string>>

  /** `row.get(column)`: the cell, or `None` when the header has no such column. */
  function Get(row: Row, column: string): Option<string>
  {
    if column in row then row[column] else None
  }

  /** Python truthiness of a cell: present and not the empty string. */
  predicate Truthy(v: Option<string>)
  {
    v.Some? && v.value != ""
  }

  /** No record occurs twice. */
  predicate Distinct<T(==)>(records: seq<T>)
  {
    forall i, j :: 0 <= i < j < |records| ==> records[i] != records[j]
  }
}
