/**
 * What `start` fetches and accumulates: the id list each table is fetched
 * with, the filter handed to the row store, and the per-table collection of
 * rows, with relation tables resolved one level deep.
 */
module Assembly {
  import opened Wrappers
  import opened Text
  import opened Records
  import opened RelationDiscovery

  /** The filter array of `_getTableContent`; `ids` is None when the key is not set. */
  datatype FetchFilter = FetchFilter(noLimit: int, doNotReplaceSiteUrl: int, ids: Option<string>)

  /** `db_get(table, filter)` against one unchanging snapshot of the database. */
  type Store = (string, FetchFilter) -> seq<Row>

  /** The accumulated export: table name to its rows in the order they were added. */
  type Graph = map<string, seq<Row>>

  /**
   * The filter `_getTableContent` builds: always unlimited and without site
   * URL replacement, with an `ids` entry exactly when there are ids.
   */
  function FilterFor(ids: seq<string>): (f: FetchFilter)
    ensures f.noLimit == 1 && f.doNotReplaceSiteUrl == 1
    ensures f.ids.Some? <==> ids != []
  {
    FetchFilter(1, 1, if ids != [] then Some(Join(ids, ',')) else None)
  }

  /** The `ids` entry holds the ids comma-joined: the store, splitting on commas, reads back the same list. */
  lemma FilterIdsReadBack(ids: seq<string>)
    requires ids != []
    requires forall i :: 0 <= i < |ids| ==> ',' !in ids[i]
    ensures Split(FilterFor(ids).ids.value, ',') == ids
  {
    SplitJoin(ids, ',');
  }

  /**
   * The ids a selected table is fetched with (lines 78-90): the category ids
   * for `categories`, the content ids for `content` (an absent list being
   * empty), and no ids, meaning every row, for any other table.
   */
  function FetchIds(table: string, data: ExportData): (ids: seq<string>)
    ensures table == "categories" ==> ids == data.categoryIds
    ensures table == "content" ==> ids == data.contentIds
    ensures table != "categories" && table != "content" ==> ids == []
  {
    var forCategories := if table == "categories" && data.categoryIds != [] then data.categoryIds else [];
    if table == "content" && data.contentIds != [] then data.contentIds else forCategories
  }

  /** `_getTableContent(table, ids)`. */
  function TableContent(db: Store, table: string, ids: seq<string>): seq<Row>
  {
    db(table, FilterFor(ids))
  }

  /** The rows collected for a table so far, none if it is not a key. */
  function Get(g: Graph, table: string): seq<Row>
  {
    if table in g then g[table] else []
  }

  /** `addTable`: the table becomes a key; rows it already has are kept. */
  function Register(g: Graph, table: string): Graph
  {
    if table in g then g else g[table := []]
  }

  /** `addItemsToTable`: rows go after the ones the table already has. */
  function Append(g: Graph, table: string, rows: seq<Row>): Graph
  {
    g[table := Get(g, table) + rows]
  }

  /** Lines 109-116: each relation table is fetched with its ids and appended, even when empty. */
  function AppendRelations(g: Graph, relations: seq<Group>, db: Store): Graph
    decreases |relations|
  {
    if relations == [] then g
    else
      var last := relations[|relations| - 1];
      Append(AppendRelations(g, relations[..|relations| - 1], db), last.table,
             TableContent(db, last.table, last.ids))
  }

  /** One iteration of the loop of `start` (lines 74-119). */
  function ExportOne(g: Graph, table: string, data: ExportData, db: Store): Graph
  {
    var registered := Register(g, table);
    var rows := TableContent(db, table, FetchIds(table, data));
    if rows == [] then registered
    else AppendRelations(Append(registered, table, rows), Discover(rows), db)
  }

  /** The loop of `start` over the selected tables, in order. */
  function ExportAll(g: Graph, tables: seq<string>, data: ExportData, db: Store): Graph
    decreases |tables|
  {
    if tables == [] then g
    else ExportOne(ExportAll(g, tables[..|tables| - 1], data, db), tables[|tables| - 1], data, db)
  }

  /** One call of `db_get`. */
  datatype Fetch = Fetch(table: string, filter: FetchFilter)

  function Fetched(db: Store, f: Fetch): seq<Row>
  {
    db(f.table, f.filter)
  }

  /** The fetch of a selected table itself. */
  function MainFetch(table: string, data: ExportData): Fetch
  {
    Fetch(table, FilterFor(FetchIds(table, data)))
  }

  /** The fetches of the relation tables found in one batch, in order. */
  function RelationFetches(relations: seq<Group>): seq<Fetch>
  {
    seq(|relations|, i requires 0 <= i < |relations| =>
      Fetch(relations[i].table, FilterFor(relations[i].ids)))
  }

  /**
   * The fetches made while exporting one table: its own, then, only when it
   * returned rows, one per relation table those rows refer to.
   */
  function Plan(table: string, data: ExportData, db: Store): seq<Fetch>
  {
    var main := MainFetch(table, data);
    var rows := Fetched(db, main);
    if rows == [] then [main] else [main] + RelationFetches(Discover(rows))
  }

  /** The fetch lists of the selected tables, in order. */
  function Plans(tables: seq<string>, data: ExportData, db: Store): seq<seq<Fetch>>
  {
    seq(|tables|, i requires 0 <= i < |tables| => Plan(tables[i], data, db))
  }

  /** The fetch lists laid end to end. */
  function Flatten(ps: seq<seq<Fetch>>): seq<Fetch>
    decreases |ps|
  {
    if ps == [] then [] else Flatten(ps[..|ps| - 1]) + ps[|ps| - 1]
  }

  /** Every fetch of one run, in the order they are made. */
  function Trace(tables: seq<string>, data: ExportData, db: Store): seq<Fetch>
  {
    Flatten(Plans(tables, data, db))
  }

  /** The rows the fetches of `fs` return for `table`, concatenated in fetch order. */
  function Collected(table: string, fs: seq<Fetch>, db: Store): seq<Row>
    decreases |fs|
  {
    if fs == [] then []
    else
      var last := fs[|fs| - 1];
      Collected(table, fs[..|fs| - 1], db) + if last.table == table then Fetched(db, last) else []
  }

  /** Some fetch of `fs` is for `table`. */
  ghost predicate Touches(fs: seq<Fetch>, table: string)
  {
    exists i :: 0 <= i < |fs| && fs[i].table == table
  }

  /**
   * The accumulator `start` hands to the serializer. Only the three
   * operations `start` calls are modelled; `addTable` keeping rows that a
   * table already has is an assumption about the class.
   */
  class ExportTables {
    var items: Graph

    constructor ()
      ensures items == map[]
    {
      items := map[];
    }

    method AddTable(table: string)
      modifies this
      ensures items == Register(old(items), table)
    {
      if table !in items {
        items := items[table := []];
      }
    }

    method AddItemsToTable(table: string, rows: seq<Row>)
      modifies this
      ensures items == Append(old(items), table, rows)
    {
      items := items[table := Get(items, table) + rows];
    }

    function GetAllTableItems(): Graph
      reads this
    {
      items
    }
  }
}

module AssemblyProperties {
  import opened Wrappers
  import opened Records
  import opened RelationDiscovery
  import opened Assembly

  lemma ConcatAssoc(a: seq<Row>, b: seq<Row>, c: seq<Row>)
    ensures a + b + c == a + (b + c)
  {
  }

  /** The loop of `start` after one more table. */
  lemma ExportAllStep(g: Graph, tables: seq<string>, data: ExportData, db: Store, i: nat)
    requires i < |tables|
    ensures ExportAll(g, tables[..i + 1], data, db) == ExportOne(ExportAll(g, tables[..i], data, db), tables[i], data, db)
  {
    var s := tables[..i + 1];
    assert s[..|s| - 1] == tables[..i];
    assert s[|s| - 1] == tables[i];
  }

  lemma TraceStep(tables: seq<string>, data: ExportData, db: Store)
    requires tables != []
    ensures Trace(tables, data, db) == Trace(tables[..|tables| - 1], data, db) + Plan(tables[|tables| - 1], data, db)
  {
    var n := |tables|;
    var ps := Plans(tables, data, db);
    assert ps[..n - 1] == Plans(tables[..n - 1], data, db);
  }

  lemma {:induction false} FlattenMember(ps: seq<seq<Fetch>>, j: nat, f: Fetch)
    requires j < |ps|
    requires f in ps[j]
    ensures f in Flatten(ps)
    decreases |ps|
  {
    var n := |ps|;
    if j < n - 1 {
      assert ps[..n - 1][j] == ps[j];
      FlattenMember(ps[..n - 1], j, f);
    }
  }

  lemma RelationFetchesPrefix(relations: seq<Group>, k: nat)
    requires k <= |relations|
    ensures RelationFetches(relations)[..k] == RelationFetches(relations[..k])
  {
    var a, b := RelationFetches(relations)[..k], RelationFetches(relations[..k]);
    assert |a| == |b| == k;
    forall i | 0 <= i < k ensures a[i] == b[i] {
      assert relations[..k][i] == relations[i];
    }
  }

  lemma {:induction false} CollectedConcat(table: string, a: seq<Fetch>, b: seq<Fetch>, db: Store)
    ensures Collected(table, a + b, db) == Collected(table, a, db) + Collected(table, b, db)
    decreases |b|
  {
    if b == [] {
      assert a + b == a;
    } else {
      assert (a + b)[..|a + b| - 1] == a + b[..|b| - 1];
      CollectedConcat(table, a, b[..|b| - 1], db);
    }
  }

  lemma TouchesConcat(a: seq<Fetch>, b: seq<Fetch>, table: string)
    ensures Touches(a + b, table) <==> Touches(a, table) || Touches(b, table)
  {
    if Touches(a + b, table) {
      var i :| 0 <= i < |a + b| && (a + b)[i].table == table;
      if i >= |a| { assert b[i - |a|] == (a + b)[i]; }
    }
    if Touches(a, table) {
      var i :| 0 <= i < |a| && a[i].table == table;
      assert (a + b)[i] == a[i];
    }
    if Touches(b, table) {
      var i :| 0 <= i < |b| && b[i].table == table;
      assert (a + b)[|a| + i] == b[i];
    }
  }

  lemma TouchesLast(fs: seq<Fetch>, table: string)
    requires fs != []
    ensures Touches(fs, table) <==> Touches(fs[..|fs| - 1], table) || fs[|fs| - 1].table == table
  {
    assert fs == fs[..|fs| - 1] + [fs[|fs| - 1]];
    TouchesConcat(fs[..|fs| - 1], [fs[|fs| - 1]], table);
  }

  lemma {:induction false} AppendRelationsKeys(g: Graph, relations: seq<Group>, db: Store, table: string)
    ensures table in AppendRelations(g, relations, db) <==>
      table in g || Touches(RelationFetches(relations), table)
    decreases |relations|
  {
    if relations != [] {
      var n := |relations|;
      var fs := RelationFetches(relations);
      AppendRelationsKeys(g, relations[..n - 1], db, table);
      RelationFetchesPrefix(relations, n - 1);
      TouchesLast(fs, table);
      assert fs[n - 1].table == relations[n - 1].table;
    }
  }

  lemma {:induction false} AppendRelationsRows(g: Graph, relations: seq<Group>, db: Store, table: string)
    ensures Get(AppendRelations(g, relations, db), table) ==
      Get(g, table) + Collected(table, RelationFetches(relations), db)
    decreases |relations|
  {
    if relations != [] {
      var n := |relations|;
      var fs := RelationFetches(relations);
      var prev := AppendRelations(g, relations[..n - 1], db);
      var last := relations[n - 1];
      var rows := TableContent(db, last.table, last.ids);
      var here: seq<Row> := if last.table == table then rows else [];
      var earlier := Collected(table, fs[..n - 1], db);
      AppendRelationsRows(g, relations[..n - 1], db, table);
      RelationFetchesPrefix(relations, n - 1);
      assert fs[n - 1] == Fetch(last.table, FilterFor(last.ids));
      assert Collected(table, fs, db) == earlier + here;
      calc {
        Get(AppendRelations(g, relations, db), table);
        Get(prev, table) + here;
        Get(g, table) + earlier + here;
        { ConcatAssoc(Get(g, table), earlier, here); }
        Get(g, table) + (earlier + here);
      }
    }
  }

  lemma ExportOneKeys(g: Graph, t: string, data: ExportData, db: Store, table: string)
    ensures table in ExportOne(g, t, data, db) <==> table in g || Touches(Plan(t, data, db), table)
  {
    var main := MainFetch(t, data);
    var rows := Fetched(db, main);
    assert rows == TableContent(db, t, FetchIds(t, data));
    var registered := Register(g, t);
    assert table in registered <==> table in g || t == table;
    assert Touches([main], table) <==> t == table by {
      if t == table { assert [main][0].table == table; }
    }
    if rows != [] {
      var relations := Discover(rows);
      var appended := Append(registered, t, rows);
      assert ExportOne(g, t, data, db) == AppendRelations(appended, relations, db);
      assert Plan(t, data, db) == [main] + RelationFetches(relations);
      AppendRelationsKeys(appended, relations, db, table);
      TouchesConcat([main], RelationFetches(relations), table);
    }
  }

  lemma ExportOneRows(g: Graph, t: string, data: ExportData, db: Store, table: string)
    ensures Get(ExportOne(g, t, data, db), table) == Get(g, table) + Collected(table, Plan(t, data, db), db)
  {
    var main := MainFetch(t, data);
    var rows := Fetched(db, main);
    assert rows == TableContent(db, t, FetchIds(t, data));
    var registered := Register(g, t);
    assert Get(registered, table) == Get(g, table);
    assert Collected(table, [main], db) == if t == table then rows else [] by {
      assert [main][..0] == [];
    }
    if rows == [] {
      assert ExportOne(g, t, data, db) == registered;
      assert Plan(t, data, db) == [main];
    } else {
      var relations := Discover(rows);
      var appended := Append(registered, t, rows);
      assert ExportOne(g, t, data, db) == AppendRelations(appended, relations, db);
      assert Plan(t, data, db) == [main] + RelationFetches(relations);
      var own := Collected(table, [main], db);
      var fromRelations := Collected(table, RelationFetches(relations), db);
      assert Get(appended, table) == Get(g, table) + own;
      AppendRelationsRows(appended, relations, db, table);
      CollectedConcat(table, [main], RelationFetches(relations), db);
      calc {
        Get(ExportOne(g, t, data, db), table);
        Get(appended, table) + fromRelations;
        Get(g, table) + own + fromRelations;
        { ConcatAssoc(Get(g, table), own, fromRelations); }
        Get(g, table) + (own + fromRelations);
        Get(g, table) + Collected(table, Plan(t, data, db), db);
      }
    }
  }

  lemma {:induction false} ExportAllAt(g: Graph, tables: seq<string>, data: ExportData, db: Store, table: string)
    ensures table in ExportAll(g, tables, data, db) <==> table in g || Touches(Trace(tables, data, db), table)
    ensures Get(ExportAll(g, tables, data, db), table) ==
      Get(g, table) + Collected(table, Trace(tables, data, db), db)
    decreases |tables|
  {
    if tables != [] {
      var n := |tables|;
      var front, last := tables[..n - 1], tables[n - 1];
      var before := ExportAll(g, front, data, db);
      assert ExportAll(g, tables, data, db) == ExportOne(before, last, data, db);
      TraceStep(tables, data, db);
      ExportAllAt(g, front, data, db, table);
      ExportOneKeys(before, last, data, db, table);
      ExportOneRows(before, last, data, db, table);
      CollectedConcat(table, Trace(front, data, db), Plan(last, data, db), db);
      TouchesConcat(Trace(front, data, db), Plan(last, data, db), table);
      var earlier := Collected(table, Trace(front, data, db), db);
      var now := Collected(table, Plan(last, data, db), db);
      calc {
        Get(ExportAll(g, tables, data, db), table);
        Get(before, table) + now;
        Get(g, table) + earlier + now;
        { ConcatAssoc(Get(g, table), earlier, now); }
        Get(g, table) + (earlier + now);
        Get(g, table) + Collected(table, Trace(tables, data, db), db);
      }
    }
  }

  /**
   * The exported graph: a table is a key exactly when it was a key before or
   * some fetch of the run was for it, and its rows are the rows it had
   * followed by everything the run's fetches for it returned, in fetch order,
   * with nothing overwritten and nothing deduplicated.
   */
  lemma ExportAllContents(g: Graph, tables: seq<string>, data: ExportData, db: Store)
    ensures forall table :: table in ExportAll(g, tables, data, db) <==>
      table in g || Touches(Trace(tables, data, db), table)
    ensures forall table ::
      Get(ExportAll(g, tables, data, db), table) == Get(g, table) + Collected(table, Trace(tables, data, db), db)
  {
    forall table
      ensures table in ExportAll(g, tables, data, db) <==> table in g || Touches(Trace(tables, data, db), table)
      ensures Get(ExportAll(g, tables, data, db), table) ==
        Get(g, table) + Collected(table, Trace(tables, data, db), db)
    {
      ExportAllAt(g, tables, data, db, table);
    }
  }

  /**
   * A fetch made while exporting `table`: its own fetch, or, when that
   * returned rows, the fetch of a relation table those very rows refer to.
   */
  ghost predicate FromTable(f: Fetch, table: string, data: ExportData, db: Store)
  {
    || f == MainFetch(table, data)
    || (&& Fetched(db, MainFetch(table, data)) != []
        && exists group :: group in Discover(Fetched(db, MainFetch(table, data)))
             && f == Fetch(group.table, FilterFor(group.ids)))
  }

  lemma PlanFromTable(t: string, data: ExportData, db: Store)
    ensures forall f :: f in Plan(t, data, db) ==> FromTable(f, t, data, db)
  {
    var rows := Fetched(db, MainFetch(t, data));
    if rows != [] {
      var relations := Discover(rows);
      forall f | f in Plan(t, data, db) ensures FromTable(f, t, data, db) {
        if f != MainFetch(t, data) {
          var i :| 0 <= i < |RelationFetches(relations)| && RelationFetches(relations)[i] == f;
          assert relations[i] in relations;
        }
      }
    }
  }

  lemma PlanInTrace(tables: seq<string>, data: ExportData, db: Store, j: nat, f: Fetch)
    requires j < |tables|
    requires f in Plan(tables[j], data, db)
    ensures f in Trace(tables, data, db)
  {
    FlattenMember(Plans(tables, data, db), j, f);
  }

  /**
   * Relation resolution is one level deep: every fetch of a run is a selected
   * table's own fetch or the fetch of a relation found in a selected table's
   * own rows, never in rows fetched for a relation.
   */
  lemma {:induction false} TraceOrigins(tables: seq<string>, data: ExportData, db: Store)
    ensures forall f :: f in Trace(tables, data, db) ==>
      exists j :: 0 <= j < |tables| && FromTable(f, tables[j], data, db)
    decreases |tables|
  {
    if tables != [] {
      var n := |tables|;
      var front, last := tables[..n - 1], tables[n - 1];
      TraceStep(tables, data, db);
      TraceOrigins(front, data, db);
      PlanFromTable(last, data, db);
      forall f | f in Trace(tables, data, db)
        ensures exists j :: 0 <= j < |tables| && FromTable(f, tables[j], data, db)
      {
        if f in Trace(front, data, db) {
          var j :| 0 <= j < |front| && FromTable(f, front[j], data, db);
          assert tables[j] == front[j];
        } else {
          assert f in Plan(last, data, db);
          assert tables[n - 1] == last;
        }
      }
    }
  }

  /** Every selected table's own fetch is made, empty result or not. */
  lemma MainFetchesMade(tables: seq<string>, data: ExportData, db: Store)
    ensures forall j :: 0 <= j < |tables| ==> MainFetch(tables[j], data) in Trace(tables, data, db)
  {
    forall j | 0 <= j < |tables| ensures MainFetch(tables[j], data) in Trace(tables, data, db) {
      assert MainFetch(tables[j], data) == Plan(tables[j], data, db)[0];
      PlanInTrace(tables, data, db, j, MainFetch(tables[j], data));
    }
  }

  /** Every selected table is a key of the export, even when its fetch returns nothing. */
  lemma SelectedTablesRegistered(g: Graph, tables: seq<string>, data: ExportData, db: Store)
    ensures forall t :: t in tables ==> t in ExportAll(g, tables, data, db)
  {
    MainFetchesMade(tables, data, db);
    forall t | t in tables ensures t in ExportAll(g, tables, data, db) {
      var j :| 0 <= j < |tables| && tables[j] == t;
      var fs := Trace(tables, data, db);
      var i :| 0 <= i < |fs| && fs[i] == MainFetch(t, data);
      ExportAllAt(g, tables, data, db, t);
    }
  }

  /** Rows already collected are never overwritten or dropped. */
  lemma ExportAllAppendOnly(g: Graph, tables: seq<string>, data: ExportData, db: Store)
    ensures forall t :: t in g ==> t in ExportAll(g, tables, data, db) && g[t] <= ExportAll(g, tables, data, db)[t]
  {
    forall t | t in g ensures t in ExportAll(g, tables, data, db) && g[t] <= ExportAll(g, tables, data, db)[t] {
      ExportAllAt(g, tables, data, db, t);
    }
  }

  /**
   * A row with `rel_type` and `rel_id` set in a selected table's own batch
   * makes the run fetch the `rel_type` table with an id list holding
   * `rel_id`, and that table becomes a key of the export.
   */
  lemma RelationReferenceFetched(
    g: Graph, tables: seq<string>, data: ExportData, db: Store, j: nat, row: Row)
    requires j < |tables|
    requires row in Fetched(db, MainFetch(tables[j], data))
    requires RelationOf(row).Some?
    ensures exists ids ::
      RelationOf(row).value.1 in ids && Fetch(RelationOf(row).value.0, FilterFor(ids)) in Trace(tables, data, db)
    ensures RelationOf(row).value.0 in ExportAll(g, tables, data, db)
  {
    var rows := Fetched(db, MainFetch(tables[j], data));
    var (rt, rid) := RelationOf(row).value;
    var relations := Discover(rows);
    DiscoverSpec(rows);
    var k :| 0 <= k < |rows| && rows[k] == row;
    assert RowRefers(rows, rt, rid);
    var i :| 0 <= i < |relations| && relations[i].table == rt && rid in relations[i].ids;
    var f := Fetch(rt, FilterFor(relations[i].ids));
    assert f == RelationFetches(relations)[i];
    assert f in Plan(tables[j], data, db);
    PlanInTrace(tables, data, db, j, f);
    var fs := Trace(tables, data, db);
    var m :| 0 <= m < |fs| && fs[m] == f;
    ExportAllAt(g, tables, data, db, rt);
  }
}
