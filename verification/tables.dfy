/** Tables as the library receives them: a column index and rows that each
    carry exactly those columns. */
module Tables {
  import opened Values
  import opened Errors

  datatype RawSeries = RawSeries(index: seq<string>, data: map<string, Value>)

  /** One row (`pandas.Series`): its labels in order, and the value of each. */
  type Series = r: RawSeries | r.data.Keys == set c | c in r.index witness RawSeries([], map[])

  datatype RawTable = RawTable(columns: seq<string>, rows: seq<Series>)

  /** A `pandas.DataFrame`: every row is indexed by the table's columns. */
  type Table = t: RawTable | forall i :: 0 <= i < |t.rows| ==> t.rows[i].index == t.columns
    witness RawTable([], [])

  /** `row[column]`. */
  function Column(row: Series, column: string): (r: Result<Value>)
    ensures column in row.data ==> r == Ok(row.data[column])
    ensures column !in row.data ==> r == Err(Python(KeyError(column)))
  {
    if column in row.data then Ok(row.data[column]) else Err(Python(KeyError(column)))
  }
}
