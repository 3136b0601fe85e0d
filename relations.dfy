/**
 * Relation discovery in `start`: rows that carry both `rel_type` and
 * `rel_id` are grouped into one id list per relation table, as the nested
 * PHP array `$relations[rel_type][rel_id] = rel_id` does.
 */
module RelationDiscovery {
  import opened Wrappers
  import opened Text
  import opened Records

  /** One entry of `$relations`: a relation table and its ids, in first-seen order. */
  datatype Group = Group(table: string, ids: seq<string>)

  /** The (rel_type, rel_id) pair of a row when both columns are set (line 100). */
  function RelationOf(row: Row): Option<(string, string)>
  {
    if IsSet(row, "rel_type") && IsSet(row, "rel_id") then
      Some((row["rel_type"].text, row["rel_id"].text))
    else None
  }

  /** The relation tables in the order their keys were created. */
  function Tables(gs: seq<Group>): (r: seq<string>)
    ensures |r| == |gs| && forall i :: 0 <= i < |gs| ==> r[i] == gs[i].table
  {
    seq(|gs|, i requires 0 <= i < |gs| => gs[i].table)
  }

  predicate Distinct(s: seq<string>)
  {
    forall i, j :: 0 <= i < j < |s| ==> s[i] != s[j]
  }

  /** Keys of a PHP array: each table once, each id once within its table, no empty list. */
  ghost predicate WellFormed(gs: seq<Group>)
  {
    && Distinct(Tables(gs))
    && forall i :: 0 <= i < |gs| ==> gs[i].ids != [] && Distinct(gs[i].ids)
  }

  /** `id` is listed under `table`. */
  ghost predicate HasRef(gs: seq<Group>, table: string, id: string)
  {
    exists i :: 0 <= i < |gs| && gs[i].table == table && id in gs[i].ids
  }

  /**
   * `$relations[table][id] = id`: the id joins the table's list unless it is
   * already there; a table seen for the first time gets a new entry at the end.
   */
  function AddRef(gs: seq<Group>, table: string, id: string): seq<Group>
  {
    match FirstIndex(Tables(gs), table)
    case None => gs + [Group(table, [id])]
    case Some(k) => gs[k := Group(table, if id in gs[k].ids then gs[k].ids else gs[k].ids + [id])]
  }

  /**
   * Adding a reference keeps the keys well formed, adds exactly that
   * reference, and creates a table's key at the end when it is new.
   */
  lemma AddRefSpec(gs: seq<Group>, table: string, id: string)
    ensures WellFormed(gs) ==> WellFormed(AddRef(gs, table, id))
    ensures forall t, x :: HasRef(AddRef(gs, table, id), t, x) <==> HasRef(gs, t, x) || (t == table && x == id)
    ensures Tables(AddRef(gs, table, id)) == if table in Tables(gs) then Tables(gs) else Tables(gs) + [table]
  {
    var r := AddRef(gs, table, id);
    match FirstIndex(Tables(gs), table)
    case None =>
      assert Tables(r) == Tables(gs) + [table];
      assert forall t, x :: HasRef(r, t, x) ==> HasRef(gs, t, x) || (t == table && x == id);
      assert HasRef(r, table, id) by { assert r[|gs|].table == table && id in r[|gs|].ids; }
      forall t, x | HasRef(gs, t, x) ensures HasRef(r, t, x) {
        var i :| 0 <= i < |gs| && gs[i].table == t && x in gs[i].ids;
        assert r[i] == gs[i];
      }
    case Some(k) =>
      assert Tables(r) == Tables(gs);
      assert HasRef(r, table, id) by { assert r[k].table == table && id in r[k].ids; }
      forall t, x | HasRef(gs, t, x) ensures HasRef(r, t, x) {
        var i :| 0 <= i < |gs| && gs[i].table == t && x in gs[i].ids;
        assert r[i].table == t && x in r[i].ids;
      }
  }

  /** Some row of `rows` refers to `id` in `table`. */
  ghost predicate RowRefers(rows: seq<Row>, table: string, id: string)
  {
    exists j :: 0 <= j < |rows| && RelationOf(rows[j]) == Some((table, id))
  }

  /** The `$relations` array built from one fetched batch, row by row. */
  function Discover(rows: seq<Row>): seq<Group>
    decreases |rows|
  {
    if rows == [] then []
    else
      match RelationOf(rows[|rows| - 1])
      case None => Discover(rows[..|rows| - 1])
      case Some(ref) => AddRef(Discover(rows[..|rows| - 1]), ref.0, ref.1)
  }

  /**
   * An id is listed under a table exactly when some row of the batch refers
   * to it there; each table, and each id within a table, appears once.
   */
  lemma {:induction false} DiscoverSpec(rows: seq<Row>)
    ensures WellFormed(Discover(rows))
    ensures forall t, x :: HasRef(Discover(rows), t, x) <==> RowRefers(rows, t, x)
    decreases |rows|
  {
    if rows != [] {
      var front := rows[..|rows| - 1];
      DiscoverSpec(front);
      match RelationOf(rows[|rows| - 1])
      case None =>
      case Some(ref) => AddRefSpec(Discover(front), ref.0, ref.1);
      forall t, x ensures RowRefers(rows, t, x) <==>
        RowRefers(front, t, x) || RelationOf(rows[|rows| - 1]) == Some((t, x))
      {
        if RowRefers(rows, t, x) {
          var j :| 0 <= j < |rows| && RelationOf(rows[j]) == Some((t, x));
          if j < |rows| - 1 { assert front[j] == rows[j]; }
        }
        if RowRefers(front, t, x) {
          var j :| 0 <= j < |front| && RelationOf(front[j]) == Some((t, x));
          assert rows[j] == front[j];
        }
      }
    }
  }

  /** The rows that carry a relation. */
  function Related(rows: seq<Row>): (r: seq<Row>)
    ensures forall i :: 0 <= i < |r| ==> RelationOf(r[i]).Some?
    decreases |rows|
  {
    if rows == [] then []
    else
      var front := Related(rows[..|rows| - 1]);
      if RelationOf(rows[|rows| - 1]).Some? then front + [rows[|rows| - 1]] else front
  }

  /** Rows lacking `rel_type` or `rel_id` contribute nothing to the relations found. */
  lemma {:induction false} DiscoverIgnoresUnrelated(rows: seq<Row>)
    ensures Discover(Related(rows)) == Discover(rows)
    decreases |rows|
  {
    if rows != [] {
      var n := |rows|;
      DiscoverIgnoresUnrelated(rows[..n - 1]);
      if RelationOf(rows[n - 1]).Some? {
        var r := Related(rows);
        assert r[..|r| - 1] == Related(rows[..n - 1]);
      }
    }
  }

  /** The loop of lines 98-103 over one fetched batch. */
  method CollectRelations(rows: seq<Row>) returns (relations: seq<Group>)
    ensures relations == Discover(rows)
  {
    relations := [];
    for i := 0 to |rows|
      invariant relations == Discover(rows[..i])
    {
      assert rows[..i + 1][..i] == rows[..i];
      var row := rows[i];
      if IsSet(row, "rel_type") && IsSet(row, "rel_id") {
        relations := AddRef(relations, row["rel_type"].text, row["rel_id"].text);
      }
    }
    assert rows[..|rows|] == rows;
  }
}
