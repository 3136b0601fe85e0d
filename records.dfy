/** The values the exporter reads: fetched rows and the caller's export request. */
module Records {
  import opened Wrappers

  /** A column value as the row store returns it; `Null` is PHP's null. */
  datatype Value = Null | Scalar(text: string)

  /** One fetched row: column name to value. */
  type Row = map<string, Value>

  /** `isset($row[col])`: the column is present and not null (an empty string is set). */
  predicate IsSet(row: Row, col: string)
  {
    col in row && row[col] != Null
  }

  /**
   * The `exportData` array of the exporter. `tables` is None when the key is
   * not set; an id list that is absent is the empty list, which PHP's
   * `empty()` treats the same way.
   */
  datatype ExportData = ExportData(
    tables: Option<seq<string>>,
    categoryIds: seq<string>,
    contentIds: seq<string>)

  /** `exportData` before `setExportData` is called (null). */
  const NoExportData := ExportData(None, [], [])
}
