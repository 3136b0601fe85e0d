/**
 * The exporter object: its skip list, export request and format tag, and
 * the methods that pick the tables, fetch them with their relations and hand
 * the result to a serializer.
 */
module BackupExport {
  import opened Wrappers
  import opened Text
  import opened Records
  import opened TableSelection
  import opened RelationDiscovery
  import opened Assembly
  import opened AssemblyProperties

  /** The four serializers `exportAsType` can construct. */
  datatype Format = Json | Csv | Xml | Zip

  /** The type tag that selects each serializer. */
  function FormatTag(f: Format): string
  {
    match f
    case Json => "json"
    case Csv => "csv"
    case Xml => "xml"
    case Zip => "zip"
  }

  /** The `switch` of `exportAsType`: the serializer a type tag selects, if any. */
  function FormatOf(exportType: string): (r: Option<Format>)
    ensures r.Some? ==> FormatTag(r.value) == exportType
    ensures r.None? ==> forall f :: FormatTag(f) != exportType
  {
    if exportType == "json" then Some(Json)
    else if exportType == "csv" then Some(Csv)
    else if exportType == "xml" then Some(Xml)
    else if exportType == "zip" then Some(Zip)
    else None
  }

  lemma FormatTagRoundTrip(f: Format)
    ensures FormatOf(FormatTag(f)) == Some(f)
  {
  }

  /**
   * What `exportAsType` ends in. For a known tag the graph goes to that
   * serializer under that tag. For any other tag line 47 calls `setType` on
   * `false`, a fatal error, so the error array of lines 57-59 is never
   * returned.
   */
  datatype Outcome =
    | Exported(exportType: string, format: Format, data: Graph)
    | Fatal

  /** The outcome `exportAsType` reaches for a type tag and a graph. */
  function ExportAs(exportType: string, data: Graph): (r: Outcome)
    ensures r.Fatal? <==> FormatOf(exportType).None?
    ensures r.Exported? ==> FormatTag(r.format) == exportType == r.exportType && r.data == data
  {
    match FormatOf(exportType)
    case Some(f) => Exported(exportType, f, data)
    case None => Fatal
  }

  class Exporter {
    var skipTables: seq<string>
    var exportData: ExportData
    var exportType: string

    /** A new exporter: no skip list yet (null), no request, type `json`. */
    constructor ()
      ensures skipTables == [] && exportData == NoExportData && exportType == "json"
    {
      skipTables := [];
      exportData := NoExportData;
      exportType := "json";
    }

    method SetType(t: string)
      modifies this
      ensures exportType == t
      ensures skipTables == old(skipTables) && exportData == old(exportData)
    {
      exportType := t;
    }

    method SetExportData(data: ExportData)
      modifies this
      ensures exportData == data
      ensures skipTables == old(skipTables) && exportType == old(exportType)
    {
      exportData := data;
    }

    /** `_skipTables`: appends the seventeen defaults to the field and returns it. */
    method SkipTables() returns (skip: seq<string>)
      modifies this
      ensures skipTables == old(skipTables) + DefaultSkipList() && skip == skipTables
      ensures exportData == old(exportData) && exportType == old(exportType)
    {
      skipTables := skipTables + DefaultSkipList();
      skip := skipTables;
    }

    /**
     * `_prepareSkipTables`: forces `categories` and `content` into the
     * requested tables when their ids are given, and returns a copy of the
     * skip list without `users` when `users` is requested. The removal is
     * made on the copy; the field keeps every entry.
     */
    method PrepareSkipTables() returns (skip: seq<string>)
      modifies this
      ensures skipTables == old(skipTables) + DefaultSkipList()
      ensures exportData == old(exportData).(tables := PreparedTables(old(exportData)))
      ensures exportType == old(exportType)
      ensures skip == PreparedSkipList(old(skipTables), exportData.tables)
    {
      skip := SkipTables();
      ghost var requested := exportData.tables;
      if exportData.categoryIds != [] {
        if "categories" !in ListOf(exportData.tables) {
          exportData := exportData.(tables := Some(ListOf(exportData.tables) + ["categories"]));
        }
        requested := AddIfMissing(requested, "categories");
      }
      assert exportData.tables == requested;
      if exportData.contentIds != [] {
        if "content" !in ListOf(exportData.tables) {
          exportData := exportData.(tables := Some(ListOf(exportData.tables) + ["content"]));
        }
        requested := AddIfMissing(requested, "content");
      }
      assert exportData.tables == requested == PreparedTables(old(exportData));
      if exportData.tables.Some? && exportData.tables.value != [] {
        if "users" in exportData.tables.value {
          var keyOfSkipTable := FirstIndex(skip, "users");
          if keyOfSkipTable.Some? && keyOfSkipTable.value != 0 {
            skip := skip[..keyOfSkipTable.value] + skip[keyOfSkipTable.value + 1..];
          }
          assert skip == UnsetFound(old(skipTables) + DefaultSkipList(), "users");
        }
      }
    }

    /**
     * `_getTablesForExport`: walks the catalog, strips the prefix from each
     * name, and keeps the names that are not skipped and, when a table list
     * is set, are in it.
     */
    method GetTablesForExport(catalog: seq<string>, prefix: string) returns (ready: seq<string>)
      modifies this
      ensures ready == TablesForExport(old(skipTables), old(exportData), catalog, prefix)
      ensures skipTables == old(skipTables) + DefaultSkipList()
      ensures exportData == old(exportData).(tables := PreparedTables(old(exportData)))
      ensures exportType == old(exportType)
    {
      var skip := PrepareSkipTables();
      ready := [];
      for i := 0 to |catalog|
        invariant ready == SelectTables(catalog[..i], prefix, skip, exportData.tables)
      {
        assert catalog[..i + 1][..i] == catalog[..i];
        var tableName := catalog[i];
        if Truthy(prefix) {
          tableName := RemoveFirst(tableName, prefix);
        }
        if tableName in skip {
          continue;
        }
        if exportData.tables.Some? {
          if tableName !in exportData.tables.value {
            continue;
          }
        }
        ready := ready + [tableName];
      }
      assert catalog[..|catalog|] == catalog;
    }

    /** `_getTableContent`: builds the filter and asks the store. */
    method GetTableContent(table: string, ids: seq<string>, db: Store) returns (rows: seq<Row>)
      ensures rows == db(table, FilterFor(ids))
    {
      var exportFilter := FetchFilter(1, 1, None);
      if ids != [] {
        exportFilter := exportFilter.(ids := Some(Join(ids, ',')));
      }
      rows := db(table, exportFilter);
    }

    /** `exportAsType`: picks the serializer for the current type tag. */
    method ExportAsType(data: Graph) returns (outcome: Outcome)
      ensures outcome == ExportAs(exportType, data)
    {
      var format: Option<Format> := None;
      if exportType == "json" {
        format := Some(Json);
      } else if exportType == "csv" {
        format := Some(Csv);
      } else if exportType == "xml" {
        format := Some(Xml);
      } else if exportType == "zip" {
        format := Some(Zip);
      }
      if format.Some? {
        outcome := Exported(exportType, format.value, data);
      } else {
        outcome := Fatal;
      }
    }

    /**
     * One pass of the table loop of `start`: registers the table, fetches it
     * with its ids, and when rows come back appends them, collects the
     * relations they carry and appends every relation table fetched with its
     * ids.
     */
    method ExportTable(exportTables: ExportTables, table: string, db: Store)
      modifies exportTables
      ensures exportTables.items == ExportOne(old(exportTables.items), table, exportData, db)
    {
      exportTables.AddTable(table);
      var ids: seq<string> := [];
      if table == "categories" {
        if exportData.categoryIds != [] {
          ids := exportData.categoryIds;
        }
      }
      if table == "content" {
        if exportData.contentIds != [] {
          ids := exportData.contentIds;
        }
      }
      assert ids == FetchIds(table, exportData);
      var tableContent := GetTableContent(table, ids, db);
      if tableContent != [] {
        exportTables.AddItemsToTable(table, tableContent);
        var relations := CollectRelations(tableContent);
        ExportRelations(exportTables, relations, db);
      }
    }

    /** The relations loop of `start` (lines 109-116): each relation table fetched with its ids and appended. */
    method ExportRelations(exportTables: ExportTables, relations: seq<Group>, db: Store)
      modifies exportTables
      ensures exportTables.items == AppendRelations(old(exportTables.items), relations, db)
    {
      for j := 0 to |relations|
        invariant exportTables.items == AppendRelations(old(exportTables.items), relations[..j], db)
      {
        assert relations[..j + 1][..j] == relations[..j];
        var relationTableContent := GetTableContent(relations[j].table, relations[j].ids, db);
        exportTables.AddItemsToTable(relations[j].table, relationTableContent);
      }
      assert relations[..|relations|] == relations;
    }

    /**
     * `start`: selects the tables, exports each one with its relations into a
     * fresh table store, and hands the collected graph to `exportAsType`.
     */
    method Start(catalog: seq<string>, prefix: string, db: Store) returns (outcome: Outcome)
      modifies this
      ensures skipTables == old(skipTables) + DefaultSkipList()
      ensures exportData == old(exportData).(tables := PreparedTables(old(exportData)))
      ensures exportType == old(exportType)
      ensures outcome == ExportAs(exportType,
        ExportAll(map[], TablesForExport(old(skipTables), old(exportData), catalog, prefix), exportData, db))
    {
      var exportTables := new ExportTables();
      var tables := GetTablesForExport(catalog, prefix);
      for i := 0 to |tables|
        invariant exportTables.items == ExportAll(map[], tables[..i], exportData, db)
        modifies exportTables
      {
        ExportAllStep(map[], tables, exportData, db, i);
        ExportTable(exportTables, tables[i], db);
      }
      assert tables[..|tables|] == tables;
      ghost var collected := exportTables.items;
      assert collected == ExportAll(map[], TablesForExport(old(skipTables), old(exportData), catalog, prefix), exportData, db);
      outcome := ExportAsType(exportTables.GetAllTableItems());
    }
  }
}
