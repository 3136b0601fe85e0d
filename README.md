# Microweber backup export: table selection and relation resolution

This project models the `Export` class of Microweber's backup utility
(`src/Microweber/Utils/Backup/Export.php`). The class decides which database
tables a backup contains. It fetches each table's rows, follows the
`rel_type`/`rel_id` references those rows carry one level deep, collects
everything per table and hands the result to a serializer chosen by a type
tag.

The model is imperative, like the source:

- `BackupExport.Exporter` is the class itself, with its three fields
  (`skipTables`, `exportData`, `exportType`). Each of its methods is proved
  against a pure function of the old state and the inputs.
- `Assembly.ExportTables` is the per-table accumulator that `start` fills in.

The modules are:

- `Records`: fetched rows and the `exportData` request.
- `Text`: `array_search`, `strpos`, the first-occurrence removal behind
  `str_replace_first`, and `implode`/`explode`.
- `TableSelection` and `TableSelectionProperties`: `_skipTables`,
  `_prepareSkipTables` and `_getTablesForExport`.
- `RelationDiscovery`: the `$relations` array that `start` builds from one
  fetched batch.
- `Assembly` and `AssemblyProperties`: the id choice, the fetch filter, the
  export loop and the record of every fetch a run makes.
- `BackupExport`: the class and `exportAsType`.

The model follows the code where it behaves in ways that are easy to miss.
In table selection:

- `_skipTables` appends the seventeen defaults to the instance field. A second
  run on the same exporter therefore sees every default twice, and `users`
  stays skipped even when requested.
- `array_search` returning index 0 counts as "not found". A skip list whose
  first entry is `users` keeps it.
- Category or content ids given without a table list create the list, so only
  those tables are exported.
- A prefix of `""` or `"0"` is falsy and is not stripped. A truthy prefix is
  cut at its first occurrence anywhere in the name, not only at the start.
- The skip list is a list, not a set: only its first `users` entry is ever
  removed.

In relation resolution, assembly and the type dispatch:

- A row refers to a relation when `rel_type` and `rel_id` are both set, that
  is present and not null. An empty string counts; the values need not be
  truthy.
- Relation tables are fetched with their ids whatever the skip list says. No
  row is deduplicated: a table fetched twice gets both batches.
- An unsupported type tag does not return the "Export format not supported."
  array. Line 47 calls `setType` on `false` first, which is a fatal error
  (`Outcome.Fatal`).

## Model

| member | source | states |
|---|---|---|
| Text.FirstIndex | src/Microweber/Utils/Backup/Export.php:183 | `array_search`: the index found holds the name and no earlier index does; nothing is found exactly when the name is absent |
| Text.Find | src/Microweber/Utils/Backup/Export.php:204 | the position found is an occurrence of the prefix with no earlier one; none is found exactly when it occurs nowhere |
| Text.FindMissingHead | src/Microweber/Utils/Backup/Export.php:204 | a prefix whose first character the name lacks occurs nowhere in it |
| Text.RemoveFirst | src/Microweber/Utils/Backup/Export.php:203-205 | the name is returned unchanged when the prefix does not occur; otherwise the first occurrence is cut out, and a leading prefix leaves exactly the rest of the name |
| Text.SplitJoin | src/Microweber/Utils/Backup/Export.php:133-135 | splitting the comma-join of a non-empty list of comma-free ids on commas gives the list back |
| TableSelection.PreparedTablesSpec | src/Microweber/Utils/Backup/Export.php:167-179 | the requested list is kept as a prefix; the list exists exactly when it was set or ids are given; with ids, `categories` (or `content`) is present once if it was absent and is not added again if present; without ids its count is unchanged; no new name is added |
| TableSelection.UnsetFound | src/Microweber/Utils/Backup/Export.php:183-186 | every other entry keeps its count; the searched name loses one occurrence exactly when it is present and not at index 0 |
| TableSelection.PreparedSkipListCounts | src/Microweber/Utils/Backup/Export.php:181-190 | only `users` can leave the skip list, once, and only when a non-empty table list names it and the list does not start with it; every other entry keeps its count |
| TableSelection.Stripped | src/Microweber/Utils/Backup/Export.php:201-205 | each catalog name, position by position, with a truthy prefix removed |
| TableSelection.StrippedSpec | src/Microweber/Utils/Backup/Export.php:201-205 | a falsy prefix (`""` or `"0"`) leaves the catalog unchanged; a name starting with a truthy prefix keeps exactly what follows it |
| TableSelection.SelectTablesEmbedding | src/Microweber/Utils/Backup/Export.php:201-221 | the selected names sit at strictly increasing positions of the stripped catalog |
| TableSelection.SelectTablesSpec | src/Microweber/Utils/Backup/Export.php:201-221 | a name is selected exactly when it is a stripped catalog name, not skipped, and in the table list when one is set; the selection keeps catalog order |
| TableSelection.SelectTablesCounts | src/Microweber/Utils/Backup/Export.php:201-221 | each admitted name is selected as many times as it occurs in the stripped catalog, and any other name never |
| TableSelectionProperties.DefaultSkipListUsersOnce | src/Microweber/Utils/Backup/Export.php:142-158 | the defaults are seventeen names with `users` once, at index 2 |
| TableSelectionProperties.ForcedTablesNotSkipped | src/Microweber/Utils/Backup/Export.php:142-179 | `categories` and `content` are not among the defaults |
| TableSelectionProperties.FreshSkipList | src/Microweber/Utils/Backup/Export.php:140-190 | on a fresh exporter `users` leaves the skip list exactly when a non-empty table list names it; every other default stays and nothing else is skipped |
| TableSelectionProperties.SecondRunStillSkipsUsers | src/Microweber/Utils/Backup/Export.php:140-190 | on a second run `users` is requested yet still skipped |
| TableSelectionProperties.UsersAtIndexZeroNotRemoved | src/Microweber/Utils/Backup/Export.php:183-186 | a skip list starting with `users` loses nothing |
| TableSelectionProperties.TablesForExportSpec | src/Microweber/Utils/Backup/Export.php:193-224 | every selected name is off the prepared skip list; with a table list, set or forced, every name was requested or forced in by ids; every admitted catalog name is selected, as many times as the stripped catalog holds it; catalog order is kept |
| TableSelectionProperties.EmptyRequest | src/Microweber/Utils/Backup/Export.php:193-224 | on a fresh exporter with no request the export is exactly the stripped catalog minus the seventeen defaults, in catalog order, each name as many times as the stripped catalog holds it |
| TableSelectionProperties.PrefixCollisionSelectsTwice | src/Microweber/Utils/Backup/Export.php:201-221 | with prefix `mw_`, the catalog `mw_content`, `content` selects `content` twice |
| TableSelectionProperties.OnlyUsersRequested | src/Microweber/Utils/Backup/Export.php:181-224 | on a fresh exporter, requesting only `users` exports `users` (when the stripped catalog has it) and nothing else; on a reused exporter `users` stays skipped (see `SecondRunStillSkipsUsers`) |
| TableSelectionProperties.CategoryIdsAloneRestrictExport | src/Microweber/Utils/Backup/Export.php:167-216 | on a fresh exporter, category ids without a table list restrict the export to `categories` alone (when the stripped catalog has it) |
| RelationDiscovery.AddRefSpec | src/Microweber/Utils/Backup/Export.php:101 | adding a reference adds exactly that (table, id) pair, keeps each table and each id once, and puts a new table last |
| RelationDiscovery.DiscoverSpec | src/Microweber/Utils/Backup/Export.php:98-103 | an id is listed under a table exactly when some row of the batch has that `rel_type` and `rel_id` set; tables and ids appear once each |
| RelationDiscovery.DiscoverIgnoresUnrelated | src/Microweber/Utils/Backup/Export.php:99-102 | rows lacking `rel_type` or `rel_id` change nothing |
| RelationDiscovery.CollectRelations | src/Microweber/Utils/Backup/Export.php:98-103 | the loop builds the relations that `Discover` describes |
| Assembly.FilterFor | src/Microweber/Utils/Backup/Export.php:127-136 | `no_limit` and `do_not_replace_site_url` are 1; `ids` is present exactly when there are ids |
| Assembly.FilterIdsReadBack | src/Microweber/Utils/Backup/Export.php:133-135 | the `ids` entry is the comma-join: comma-free ids split back to the same list |
| Assembly.FetchIds | src/Microweber/Utils/Backup/Export.php:78-90 | `categories` is fetched with the category ids, `content` with the content ids, and any other table with none |
| Assembly.ExportTables.constructor | src/Microweber/Utils/Backup/Export.php:67 | the accumulator starts empty |
| Assembly.ExportTables.AddTable | src/Microweber/Utils/Backup/Export.php:76 | the table becomes a key; rows it has are kept |
| Assembly.ExportTables.AddItemsToTable | src/Microweber/Utils/Backup/Export.php:96 | the rows go after the table's existing rows |
| AssemblyProperties.AppendRelationsKeys | src/Microweber/Utils/Backup/Export.php:109-116 | after the relations loop a table is a key exactly when it was one or some relation fetch was for it |
| AssemblyProperties.AppendRelationsRows | src/Microweber/Utils/Backup/Export.php:109-116 | after the relations loop a table holds its old rows followed by every relation fetch's rows for it, in order, empty fetches included |
| AssemblyProperties.ExportOneKeys | src/Microweber/Utils/Backup/Export.php:74-119 | after one table a table is a key exactly when it was one or a fetch made for that table was for it |
| AssemblyProperties.ExportOneRows | src/Microweber/Utils/Backup/Export.php:74-119 | after one table each table's rows are its old rows followed by that table's fetch results for it, in fetch order |
| AssemblyProperties.ExportAllAt | src/Microweber/Utils/Backup/Export.php:72-120 | after the loop a table is a key exactly when it was one or some fetch of the run was for it; its rows are its old rows followed by every fetch result for it, in fetch order |
| AssemblyProperties.ExportAllContents | src/Microweber/Utils/Backup/Export.php:72-122 | the same for every table at once: the exported graph, nothing overwritten and nothing deduplicated |
| AssemblyProperties.PlanFromTable | src/Microweber/Utils/Backup/Export.php:92-116 | every fetch made for a table is its own fetch, or the fetch of a relation found in its own non-empty batch |
| AssemblyProperties.PlanInTrace | src/Microweber/Utils/Backup/Export.php:72-120 | every fetch made for a selected table is among the run's fetches |
| AssemblyProperties.TraceOrigins | src/Microweber/Utils/Backup/Export.php:72-120 | relation resolution is one level deep: every fetch of a run is a selected table's own fetch or the fetch of a relation found in a selected table's own non-empty batch |
| AssemblyProperties.MainFetchesMade | src/Microweber/Utils/Backup/Export.php:76-92 | every selected table's own fetch is made |
| AssemblyProperties.SelectedTablesRegistered | src/Microweber/Utils/Backup/Export.php:72-76 | every selected table is a key of the export, even with an empty fetch |
| AssemblyProperties.ExportAllAppendOnly | src/Microweber/Utils/Backup/Export.php:96-115 | rows already collected are kept as a prefix of the table's final rows |
| AssemblyProperties.RelationReferenceFetched | src/Microweber/Utils/Backup/Export.php:98-116 | a relation reference in a selected table's batch makes the run fetch the `rel_type` table with an id list holding the `rel_id`, and that table becomes a key |
| BackupExport.FormatOf | src/Microweber/Utils/Backup/Export.php:29-45 | a recognised tag maps to the serializer bearing that tag; an unrecognised tag maps to none |
| BackupExport.FormatTagRoundTrip | src/Microweber/Utils/Backup/Export.php:29-45 | each serializer's tag selects that serializer |
| BackupExport.ExportAs | src/Microweber/Utils/Backup/Export.php:25-61 | the run is fatal exactly when the tag is unsupported; otherwise the graph goes, unchanged, to the serializer for the tag |
| BackupExport.Exporter.constructor | src/Microweber/Utils/Backup/Export.php:12-14 | no skip list, no request, type `json` |
| BackupExport.Exporter.SetType | src/Microweber/Utils/Backup/Export.php:16-19 | only the type changes |
| BackupExport.Exporter.SetExportData | src/Microweber/Utils/Backup/Export.php:21-23 | only the request changes |
| BackupExport.Exporter.SkipTables | src/Microweber/Utils/Backup/Export.php:140-161 | the seventeen defaults are appended to the field, which is returned |
| BackupExport.Exporter.PrepareSkipTables | src/Microweber/Utils/Backup/Export.php:163-191 | the field gains the defaults; the request gets its forced tables; the skip list returned is the prepared one |
| BackupExport.Exporter.GetTablesForExport | src/Microweber/Utils/Backup/Export.php:193-224 | the loop returns the selection `TablesForExport` describes, from the state before the call |
| BackupExport.Exporter.GetTableContent | src/Microweber/Utils/Backup/Export.php:127-138 | the store is asked with the filter `FilterFor` describes |
| BackupExport.Exporter.ExportAsType | src/Microweber/Utils/Backup/Export.php:25-61 | the switch reaches the outcome `ExportAs` describes |
| BackupExport.Exporter.ExportTable | src/Microweber/Utils/Backup/Export.php:74-119 | one pass of the table loop turns the accumulator into `ExportOne` of it |
| BackupExport.Exporter.ExportRelations | src/Microweber/Utils/Backup/Export.php:109-116 | the relations loop turns the accumulator into `AppendRelations` of it |
| BackupExport.Exporter.Start | src/Microweber/Utils/Backup/Export.php:63-125 | the field gains the defaults; the request gets its forced tables; the type is kept; the outcome is `exportAsType` of `ExportAll` over the selected tables, starting from an empty accumulator |

## Left out

- Logging (`BackupExportLogger::setLogInfo`) has no effect on the result and is not modelled.
- The serializers `JsonExport`, `CsvExport`, `XmlExport` and `ZipExport`, their `start()`, and the `count($data, COUNT_RECURSIVE)` summary string are format I/O. `Outcome.Exported` records the serializer, the tag and the graph handed over.
- `db_get`, `get_tables_list` and `get_prefix` are database I/O. The row store is a function parameter `(table, filter) -> rows` over one unchanging snapshot. The catalog and prefix are parameters of `Start`.
- `ExportTables` is not part of this model beyond the three operations `start` calls. It is a map from table to rows; `addTable` keeping existing rows and `addItemsToTable` appending are assumptions.
- Key order of the exported graph is not modelled: the graph is a Dafny `map`. Row order within each table is.
- The `TypeError` that PHP 8 raises from `in_array` on an unset table list (lines 169 and 176) is not modelled. The model follows earlier PHP, where the search finds nothing and the append creates the list.
- PHP's loose comparison in `in_array` and `==` (numeric strings such as `"1"` and `"01"` comparing equal) is not modelled; names compare as exact strings.
- The conversion of numeric `rel_type`/`rel_id` array keys to integers is not modelled; both stay strings.
- A `db_get` result that is not an array (such as `false`) is not modelled; the store always returns a list of rows.
- Ids are strings; ids containing a comma are not read back intact, which `FilterIdsReadBack` excludes by its precondition.
