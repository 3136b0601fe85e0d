/**
 * Which tables a backup exports: the fixed skip list, the tables forced in by
 * category and content ids, the `users` override, and the filter over the
 * prefix-stripped catalog.
 */
module TableSelection {
  import opened Wrappers
  import opened Text
  import opened Records

  /** The name `_skipTables` appends in position `i`. */
  function SkipName(i: nat): string
    requires i < 17
  {
    match i
    case 0 => "modules"
    case 1 => "elements"
    case 2 => "users"
    case 3 => "log"
    case 4 => "notifications"
    case 5 => "content_revisions_history"
    case 6 => "module_templates"
    case 7 => "stats_users_online"
    case 8 => "stats_browser_agents"
    case 9 => "stats_referrers_paths"
    case 10 => "stats_referrers_domains"
    case 11 => "stats_referrers"
    case 12 => "stats_visits_log"
    case 13 => "stats_urls"
    case 14 => "system_licenses"
    case 15 => "users_oauth"
    case _ => "sessions"
  }

  /** The seventeen names `_skipTables` appends, in order; `users` is at index 2. */
  function DefaultSkipList(): seq<string>
  {
    seq(17, i requires 0 <= i < 17 => SkipName(i))
  }

  /** The requested table list, an unset list reading as empty. */
  function ListOf(tables: Option<seq<string>>): seq<string>
  {
    if tables.Some? then tables.value else []
  }

  /**
   * `if (!in_array(name, tables)) tables[] = name;`. On an unset list the
   * search finds nothing and the append creates the list.
   */
  function AddIfMissing(tables: Option<seq<string>>, name: string): Option<seq<string>>
  {
    if name in ListOf(tables) then tables else Some(ListOf(tables) + [name])
  }

  /**
   * `exportData['tables']` after `_prepareSkipTables`: `categories` is added
   * when category ids are given and it is missing, then `content` likewise
   * for content ids.
   */
  function PreparedTables(data: ExportData): Option<seq<string>>
  {
    var withCategories :=
      if data.categoryIds != [] then AddIfMissing(data.tables, "categories") else data.tables;
    if data.contentIds != [] then AddIfMissing(withCategories, "content") else withCategories
  }

  /**
   * The caller's list is kept as a prefix; the list is set exactly when it
   * was or some ids are given; each forced name ends up present exactly once
   * if it was absent, an already present one is not added again, and nothing
   * else is added.
   */
  lemma PreparedTablesSpec(data: ExportData)
    ensures ListOf(data.tables) <= ListOf(PreparedTables(data))
    ensures PreparedTables(data).None? <==>
      data.tables.None? && data.categoryIds == [] && data.contentIds == []
    ensures data.categoryIds != [] ==>
      multiset(ListOf(PreparedTables(data)))["categories"] ==
        if "categories" in ListOf(data.tables) then multiset(ListOf(data.tables))["categories"] else 1
    ensures data.categoryIds == [] ==>
      multiset(ListOf(PreparedTables(data)))["categories"] == multiset(ListOf(data.tables))["categories"]
    ensures data.contentIds != [] ==>
      multiset(ListOf(PreparedTables(data)))["content"] ==
        if "content" in ListOf(data.tables) then multiset(ListOf(data.tables))["content"] else 1
    ensures data.contentIds == [] ==>
      multiset(ListOf(PreparedTables(data)))["content"] == multiset(ListOf(data.tables))["content"]
    ensures forall x :: x in ListOf(PreparedTables(data)) ==>
      x in ListOf(data.tables)
      || (x == "categories" && data.categoryIds != [])
      || (x == "content" && data.contentIds != [])
  {
  }

  /** The request names `users` in a non-empty table list (lines 181-182). */
  predicate UsersRequested(tables: Option<seq<string>>)
  {
    tables.Some? && |tables.value| > 0 && "users" in tables.value
  }

  /**
   * `$k = array_search(name, skip); if ($k) unset(skip[$k]);`: the first
   * `name` is dropped unless it sits at index 0, which PHP reads as false.
   * Every other entry is kept.
   */
  function UnsetFound(skip: seq<string>, name: string): (r: seq<string>)
    ensures forall x :: x != name ==> multiset(r)[x] == multiset(skip)[x]
    ensures multiset(r)[name] ==
      multiset(skip)[name] - if name in skip && skip[0] != name then 1 else 0
  {
    match FirstIndex(skip, name)
    case Some(k) =>
      if k != 0 then
        assert skip == skip[..k] + [skip[k]] + skip[k + 1..];
        skip[..k] + skip[k + 1..]
      else skip
    case None => skip
  }

  /**
   * The skip list `_prepareSkipTables` returns: the instance's skip list
   * `field` with the seventeen defaults appended, minus the first `users`
   * when it is requested and does not stand at index 0.
   */
  function PreparedSkipList(field: seq<string>, tables: Option<seq<string>>): seq<string>
  {
    var skip := field + DefaultSkipList();
    if UsersRequested(tables) then UnsetFound(skip, "users") else skip
  }

  /**
   * Only `users` can leave the skip list, once, and only when it is
   * requested and the field does not already start with it.
   */
  lemma PreparedSkipListCounts(field: seq<string>, tables: Option<seq<string>>)
    ensures forall x :: x != "users" ==>
      multiset(PreparedSkipList(field, tables))[x] == multiset(field + DefaultSkipList())[x]
    ensures multiset(PreparedSkipList(field, tables))["users"]
      + (if UsersRequested(tables) && !(|field| > 0 && field[0] == "users") then 1 else 0)
      == multiset(field + DefaultSkipList())["users"]
  {
    var skip := field + DefaultSkipList();
    assert "users" in skip by { assert skip[|field| + 2] == "users"; }
    assert skip[0] == "users" <==> |field| > 0 && field[0] == "users";
  }

  /** PHP truthiness of a string: neither empty nor "0". */
  predicate Truthy(s: string)
  {
    s != "" && s != "0"
  }

  /** Line 203-205: a truthy prefix is cut from the first place it occurs in the name. */
  function StripPrefix(name: string, prefix: string): string
  {
    if Truthy(prefix) then RemoveFirst(name, prefix) else name
  }

  /** The catalog with every name prefix-stripped, in catalog order. */
  function Stripped(catalog: seq<string>, prefix: string): (r: seq<string>)
    ensures |r| == |catalog|
    ensures forall i :: 0 <= i < |r| ==> r[i] == StripPrefix(catalog[i], prefix)
  {
    seq(|catalog|, i requires 0 <= i < |catalog| => StripPrefix(catalog[i], prefix))
  }

  /**
   * A falsy prefix leaves the catalog unchanged; a name that starts with a
   * truthy prefix keeps what follows it.
   */
  lemma StrippedSpec(catalog: seq<string>, prefix: string)
    ensures !Truthy(prefix) ==> Stripped(catalog, prefix) == catalog
    ensures forall i :: 0 <= i < |catalog| && Truthy(prefix) && prefix <= catalog[i] ==>
      Stripped(catalog, prefix)[i] == catalog[i][|prefix|..]
  {
    var r := Stripped(catalog, prefix);
    if !Truthy(prefix) {
      assert forall i :: 0 <= i < |r| ==> r[i] == catalog[i];
    }
  }

  /** A stripped name passes the loop of `_getTablesForExport`. */
  predicate Admitted(name: string, skip: seq<string>, tables: Option<seq<string>>)
  {
    name !in skip && (tables.None? || name in tables.value)
  }

  /** The list `_getTablesForExport` builds from the catalog, one entry at a time. */
  function SelectTables(
    catalog: seq<string>, prefix: string, skip: seq<string>, tables: Option<seq<string>>): seq<string>
    decreases |catalog|
  {
    if catalog == [] then []
    else
      var done := SelectTables(catalog[..|catalog| - 1], prefix, skip, tables);
      var name := StripPrefix(catalog[|catalog| - 1], prefix);
      if Admitted(name, skip, tables) then done + [name] else done
  }

  /** The whole selection, from the instance's skip list and the request as they were. */
  function TablesForExport(
    field: seq<string>, data: ExportData, catalog: seq<string>, prefix: string): seq<string>
  {
    var tables := PreparedTables(data);
    SelectTables(catalog, prefix, PreparedSkipList(field, tables), tables)
  }

  /** `idx` places the elements of `a` at strictly increasing positions of `b`. */
  ghost predicate Embeds(a: seq<string>, b: seq<string>, idx: seq<int>)
  {
    && |idx| == |a|
    && (forall i :: 0 <= i < |idx| ==> 0 <= idx[i] < |b| && a[i] == b[idx[i]])
    && (forall i, j :: 0 <= i < j < |idx| ==> idx[i] < idx[j])
  }

  /** `a` is `b` with some elements left out, the rest in their relative order. */
  ghost predicate IsSubsequence(a: seq<string>, b: seq<string>)
  {
    exists idx :: Embeds(a, b, idx)
  }

  lemma {:induction false} SelectTablesEmbedding(
    catalog: seq<string>, prefix: string, skip: seq<string>, tables: Option<seq<string>>)
    returns (idx: seq<int>)
    ensures Embeds(SelectTables(catalog, prefix, skip, tables), Stripped(catalog, prefix), idx)
    decreases |catalog|
  {
    if catalog == [] {
      idx := [];
    } else {
      var n := |catalog|;
      var front := catalog[..n - 1];
      var idx' := SelectTablesEmbedding(front, prefix, skip, tables);
      var name := StripPrefix(catalog[n - 1], prefix);
      var all := Stripped(catalog, prefix);
      assert forall i :: 0 <= i < n - 1 ==> all[i] == Stripped(front, prefix)[i];
      if Admitted(name, skip, tables) {
        idx := idx' + [n - 1];
      } else {
        idx := idx';
      }
    }
  }

  /** Each admitted stripped name is kept as many times as the catalog yields it; any other name never. */
  lemma {:induction false} SelectTablesCounts(
    catalog: seq<string>, prefix: string, skip: seq<string>, tables: Option<seq<string>>)
    ensures forall x :: multiset(SelectTables(catalog, prefix, skip, tables))[x] ==
              (if Admitted(x, skip, tables) then multiset(Stripped(catalog, prefix))[x] else 0)
    decreases |catalog|
  {
    if catalog != [] {
      var n := |catalog|;
      var name := StripPrefix(catalog[n - 1], prefix);
      SelectTablesCounts(catalog[..n - 1], prefix, skip, tables);
      assert Stripped(catalog, prefix) == Stripped(catalog[..n - 1], prefix) + [name];
    }
  }

  /**
   * The names `_getTablesForExport` keeps are exactly the stripped catalog
   * names that are not skipped and, when a table list is set, are in it; they
   * keep the catalog's relative order.
   */
  lemma {:induction false} SelectTablesSpec(
    catalog: seq<string>, prefix: string, skip: seq<string>, tables: Option<seq<string>>)
    ensures forall x :: x in SelectTables(catalog, prefix, skip, tables) <==>
      x in Stripped(catalog, prefix) && Admitted(x, skip, tables)
    ensures IsSubsequence(SelectTables(catalog, prefix, skip, tables), Stripped(catalog, prefix))
    decreases |catalog|
  {
    var idx := SelectTablesEmbedding(catalog, prefix, skip, tables);
    if catalog != [] {
      var n := |catalog|;
      SelectTablesSpec(catalog[..n - 1], prefix, skip, tables);
      assert Stripped(catalog, prefix) == Stripped(catalog[..n - 1], prefix) + [StripPrefix(catalog[n - 1], prefix)];
    }
  }
}

module TableSelectionProperties {
  import opened Wrappers
  import opened Text
  import opened Records
  import opened TableSelection

  /** `users` stands once in the defaults, at index 2. */
  lemma DefaultSkipListUsersOnce()
    ensures |DefaultSkipList()| == 17 && DefaultSkipList()[2] == "users"
    ensures multiset(DefaultSkipList())["users"] == 1
  {
    var d := DefaultSkipList();
    assert forall i :: 0 <= i < |d| && i != 2 ==> |d[i]| != 5;
    assert d == d[..2] + [d[2]] + d[3..];
    assert "users" !in d[..2];
    assert "users" !in d[3..];
  }

  /** The tables forced in by ids are not among the defaults. */
  lemma ForcedTablesNotSkipped()
    ensures "categories" !in DefaultSkipList() && "content" !in DefaultSkipList()
  {
    var d := DefaultSkipList();
    assert forall i :: 0 <= i < |d| ==> (|d[i]| != 7 && |d[i]| != 10) || d[i][0] != 'c';
  }

  /**
   * On a fresh exporter (empty skip-list field) `users` leaves the skip list
   * exactly when the request names it in a non-empty table list; every other
   * default stays skipped and nothing else is skipped.
   */
  lemma FreshSkipList(tables: Option<seq<string>>)
    ensures "users" in PreparedSkipList([], tables) <==> !UsersRequested(tables)
    ensures forall x :: x != "users" ==> (x in PreparedSkipList([], tables) <==> x in DefaultSkipList())
  {
    DefaultSkipListUsersOnce();
    PreparedSkipListCounts([], tables);
    assert [] + DefaultSkipList() == DefaultSkipList();
    var r := PreparedSkipList([], tables);
    assert "users" in r <==> multiset(r)["users"] > 0;
    forall x | x != "users"
      ensures x in r <==> x in DefaultSkipList()
    {
      assert x in r <==> multiset(r)[x] > 0;
      assert x in DefaultSkipList() <==> multiset(DefaultSkipList())[x] > 0;
    }
  }

  /**
   * `_skipTables` appends to the instance field, so a second run on the same
   * exporter sees the defaults twice; only the first `users` is removed and
   * `users` stays skipped although it is requested.
   */
  lemma SecondRunStillSkipsUsers()
    ensures UsersRequested(Some(["users"]))
    ensures "users" in PreparedSkipList(DefaultSkipList(), Some(["users"]))
  {
    DefaultSkipListUsersOnce();
    var r := PreparedSkipList(DefaultSkipList(), Some(["users"]));
    PreparedSkipListCounts(DefaultSkipList(), Some(["users"]));
    assert multiset(DefaultSkipList() + DefaultSkipList())["users"] == 2;
    assert multiset(r)["users"] == 1;
  }

  /**
   * `array_search` returning index 0 reads as "not found": when the skip-list
   * field already starts with `users`, no `users` entry is removed.
   */
  lemma UsersAtIndexZeroNotRemoved(field: seq<string>, tables: Option<seq<string>>)
    requires |field| > 0 && field[0] == "users"
    ensures PreparedSkipList(field, tables) == field + DefaultSkipList()
  {
  }

  /**
   * Every name `_getTablesForExport` returns is off the prepared skip list;
   * when a table list is set or forced, every name is one the caller asked
   * for or one forced in by ids; names keep the catalog's relative order; and
   * every admitted catalog name is returned.
   */
  lemma TablesForExportSpec(field: seq<string>, data: ExportData, catalog: seq<string>, prefix: string)
    ensures forall x :: x in TablesForExport(field, data, catalog, prefix) ==>
      x !in PreparedSkipList(field, PreparedTables(data))
    ensures data.tables.Some? || data.categoryIds != [] || data.contentIds != [] ==>
      forall x :: x in TablesForExport(field, data, catalog, prefix) ==>
        x in ListOf(data.tables)
        || (x == "categories" && data.categoryIds != [])
        || (x == "content" && data.contentIds != [])
    ensures forall x :: x in Stripped(catalog, prefix) ==>
      Admitted(x, PreparedSkipList(field, PreparedTables(data)), PreparedTables(data)) ==>
        x in TablesForExport(field, data, catalog, prefix)
    ensures IsSubsequence(TablesForExport(field, data, catalog, prefix), Stripped(catalog, prefix))
    ensures forall x :: multiset(TablesForExport(field, data, catalog, prefix))[x] ==
              (if Admitted(x, PreparedSkipList(field, PreparedTables(data)), PreparedTables(data))
               then multiset(Stripped(catalog, prefix))[x] else 0)
  {
    var tables := PreparedTables(data);
    var skip := PreparedSkipList(field, tables);
    var r := TablesForExport(field, data, catalog, prefix);
    assert r == SelectTables(catalog, prefix, skip, tables);
    SelectTablesSpec(catalog, prefix, skip, tables);
    SelectTablesCounts(catalog, prefix, skip, tables);
    PreparedTablesSpec(data);
    if data.tables.Some? || data.categoryIds != [] || data.contentIds != [] {
      assert tables.Some?;
      forall x | x in r
        ensures x in ListOf(data.tables)
          || (x == "categories" && data.categoryIds != [])
          || (x == "content" && data.contentIds != [])
      {
        assert x in ListOf(tables);
      }
    }
  }

  /**
   * With nothing requested on a fresh exporter, the export covers exactly the
   * stripped catalog minus the seventeen defaults, in catalog order.
   */
  lemma EmptyRequest(catalog: seq<string>, prefix: string)
    ensures TablesForExport([], NoExportData, catalog, prefix)
      == SelectTables(catalog, prefix, DefaultSkipList(), None)
    ensures forall x :: x in TablesForExport([], NoExportData, catalog, prefix) <==>
      x in Stripped(catalog, prefix) && x !in DefaultSkipList()
    ensures IsSubsequence(TablesForExport([], NoExportData, catalog, prefix), Stripped(catalog, prefix))
    ensures forall x :: multiset(TablesForExport([], NoExportData, catalog, prefix))[x] ==
              (if x in DefaultSkipList() then 0 else multiset(Stripped(catalog, prefix))[x])
  {
    assert [] + DefaultSkipList() == DefaultSkipList();
    SelectTablesSpec(catalog, prefix, DefaultSkipList(), None);
    SelectTablesCounts(catalog, prefix, DefaultSkipList(), None);
  }

  /** Stripping `mw_` turns both `mw_content` and `content` into `content`. */
  lemma CollisionStripped()
    ensures Stripped(["mw_content", "content"], "mw_") == ["content", "content"]
  {
    var catalog := ["mw_content", "content"];
    StrippedSpec(catalog, "mw_");
    assert "mw_"[0] !in "content";
    FindMissingHead("content", "mw_");
  }

  /**
   * Prefix stripping can make two catalog names equal; the loop keeps both,
   * so the table is selected, and later fetched, twice.
   */
  lemma PrefixCollisionSelectsTwice()
    ensures TablesForExport([], NoExportData, ["mw_content", "content"], "mw_") == ["content", "content"]
  {
    var catalog := ["mw_content", "content"];
    CollisionStripped();
    ForcedTablesNotSkipped();
    var skip := DefaultSkipList();
    assert [] + skip == skip;
    assert PreparedTables(NoExportData) == None;
    assert PreparedSkipList([], None) == skip;
    assert Admitted("content", skip, None);
    var first := ["mw_content"];
    assert catalog[..1] == first && first[..0] == [];
    assert SelectTables(first, "mw_", skip, None) == ["content"];
    assert SelectTables(catalog, "mw_", skip, None) == ["content"] + ["content"];
  }

  /** Requesting only `users` on a fresh exporter exports `users` and nothing else. */
  lemma OnlyUsersRequested(catalog: seq<string>, prefix: string)
    ensures forall x :: x in TablesForExport([], ExportData(Some(["users"]), [], []), catalog, prefix) <==>
      x == "users" && "users" in Stripped(catalog, prefix)
  {
    var data := ExportData(Some(["users"]), [], []);
    var tables := PreparedTables(data);
    assert tables == Some(["users"]);
    FreshSkipList(tables);
    SelectTablesSpec(catalog, prefix, PreparedSkipList([], tables), tables);
  }

  /**
   * On a fresh exporter, category ids without a table list create the list
   * `['categories']`, and the table-list filter then restricts the export to
   * that one table.
   */
  lemma CategoryIdsAloneRestrictExport(ids: seq<string>, catalog: seq<string>, prefix: string)
    requires ids != []
    ensures forall x :: x in TablesForExport([], ExportData(None, ids, []), catalog, prefix) <==>
      x == "categories" && "categories" in Stripped(catalog, prefix)
  {
    var data := ExportData(None, ids, []);
    assert ListOf(data.tables) + ["categories"] == ["categories"];
    var tables := PreparedTables(data);
    assert tables == Some(["categories"]);
    assert !UsersRequested(tables);
    var skip := PreparedSkipList([], tables);
    assert skip == DefaultSkipList();
    ForcedTablesNotSkipped();
    var r := TablesForExport([], data, catalog, prefix);
    assert r == SelectTables(catalog, prefix, skip, tables);
    SelectTablesSpec(catalog, prefix, skip, tables);
    forall x
      ensures x in r <==> x == "categories" && "categories" in Stripped(catalog, prefix)
    {
      assert Admitted(x, skip, tables) <==> x == "categories";
    }
  }
}
