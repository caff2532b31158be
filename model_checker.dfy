/**
 * DBModelChecker: reads the tables, columns, primary keys and foreign keys of a
 * database schema from JDBC metadata into a table map and a relation list, then
 * checks every declared table and view against them and reports each difference.
 *
 * The metadata is given as sequences of rows; HashMap key iteration order is left
 * open (any order is allowed).
 */
module ModelValidation {
  import opened Wrappers
  import opened JavaText
  import opened ModelTypes
  import opened ColumnChecks
  import opened KeyChecks

  /** Every key of the table map is the upper-cased name of its table, which has no '$'. */
  predicate WellKeyed(m: map<string, RemoteTable>) {
    forall k :: k in m ==> k == ToUpper(m[k].name) && '$' !in m[k].name
  }

  /** Replacing a table by one of the same name keeps the map well keyed. */
  lemma WellKeyedUpdate(m: map<string, RemoteTable>, k: string, table: RemoteTable)
    requires WellKeyed(m) && k in m && table.name == m[k].name
    ensures WellKeyed(m[k := table])
  {
  }

  /** No two relations share a name. */
  predicate UniqueRelationNames(rels: seq<Relation>) {
    forall i, j :: 0 <= i < j < |rels| ==> rels[i].name != rels[j].name
  }

  // ---------------------------------------------------------------- collectTables

  /** collectTables: each name without '$' puts a new empty table under its upper-cased name. */
  function TablesAfter(m: map<string, RemoteTable>, names: seq<string>): map<string, RemoteTable>
  {
    if names == [] then m
    else
      var prev := TablesAfter(m, names[..|names| - 1]);
      var name := names[|names| - 1];
      if '$' in name then prev else prev[ToUpper(name) := RemoteTable(name, [], None)]
  }

  /** After collectTables the keys are the old ones plus the upper-cased names without a '$'. */
  lemma {:induction false} TablesAfterKeys(m: map<string, RemoteTable>, names: seq<string>)
    ensures forall k :: (k in TablesAfter(m, names)
      <==> k in m || exists i :: 0 <= i < |names| && '$' !in names[i] && ToUpper(names[i]) == k)
  {
    if names != [] {
      var init := names[..|names| - 1];
      var last := |names| - 1;
      TablesAfterKeys(m, init);
      forall k | k in TablesAfter(m, names)
        ensures k in m || exists i :: 0 <= i < |names| && '$' !in names[i] && ToUpper(names[i]) == k
      {
        if k !in TablesAfter(m, init) {
          assert '$' !in names[last] && ToUpper(names[last]) == k;
        } else if k !in m {
          var i :| 0 <= i < |init| && '$' !in init[i] && ToUpper(init[i]) == k;
          assert names[i] == init[i];
        }
      }
      forall k | k in m || exists i :: 0 <= i < |names| && '$' !in names[i] && ToUpper(names[i]) == k
        ensures k in TablesAfter(m, names)
      {
        if k !in m {
          var i :| 0 <= i < |names| && '$' !in names[i] && ToUpper(names[i]) == k;
          if i < last {
            assert init[i] == names[i];
          }
        }
      }
    }
  }

  /** collectTables keeps the map well keyed; every table it adds has no columns and no key. */
  lemma {:induction false} TablesAfterEntries(m: map<string, RemoteTable>, names: seq<string>)
    requires WellKeyed(m)
    ensures WellKeyed(TablesAfter(m, names))
    ensures forall k :: (k in TablesAfter(m, names) && k !in m
      ==> TablesAfter(m, names)[k].columns == [] && TablesAfter(m, names)[k].primaryKey.None?)
  {
    if names != [] {
      TablesAfterEntries(m, names[..|names| - 1]);
    }
  }

  /**
   * After collectTables the keys are the old ones plus the upper-cased names without a
   * '$'; the map stays well keyed; every new table has no columns and no key.
   */
  lemma TablesAfterSpec(m: map<string, RemoteTable>, names: seq<string>)
    requires WellKeyed(m)
    ensures WellKeyed(TablesAfter(m, names))
    ensures forall k :: (k in TablesAfter(m, names)
      <==> k in m || exists i :: 0 <= i < |names| && '$' !in names[i] && ToUpper(names[i]) == k)
    ensures forall k :: (k in TablesAfter(m, names) && k !in m
      ==> TablesAfter(m, names)[k].columns == [] && TablesAfter(m, names)[k].primaryKey.None?)
  {
    TablesAfterKeys(m, names);
    TablesAfterEntries(m, names);
  }

  // ---------------------------------------------------------------- collectColumns

  /** collectColumns: each row adds its column to the table of its upper-cased name, if any. */
  function ColumnsAfter(m: map<string, RemoteTable>, rows: seq<ColumnMeta>): map<string, RemoteTable>
  {
    if rows == [] then m
    else
      var prev := ColumnsAfter(m, rows[..|rows| - 1]);
      var row := rows[|rows| - 1];
      var key := ToUpper(row.tableName);
      if key in prev then prev[key := prev[key].(columns := prev[key].columns + [RemoteColumn(row)])]
      else prev
  }

  /** The columns the rows give the table with key `k`, in row order. */
  function RowColumns(rows: seq<ColumnMeta>, k: string): seq<Column>
  {
    if rows == [] then []
    else
      RowColumns(rows[..|rows| - 1], k)
      + (if ToUpper(rows[|rows| - 1].tableName) == k then [RemoteColumn(rows[|rows| - 1])] else [])
  }

  /** collectColumns keeps the keys, and the name and primary key of every table. */
  lemma {:induction false} ColumnsAfterKeeps(m: map<string, RemoteTable>, rows: seq<ColumnMeta>)
    ensures ColumnsAfter(m, rows).Keys == m.Keys
    ensures forall k :: k in m ==>
      && ColumnsAfter(m, rows)[k].name == m[k].name
      && ColumnsAfter(m, rows)[k].primaryKey == m[k].primaryKey
  {
    if rows != [] {
      ColumnsAfterKeeps(m, rows[..|rows| - 1]);
    }
  }

  /** collectColumns appends to each table the columns of the rows naming it, in order. */
  lemma {:induction false} ColumnsAfterColumns(m: map<string, RemoteTable>, rows: seq<ColumnMeta>)
    ensures forall k :: k in m ==>
      k in ColumnsAfter(m, rows) && ColumnsAfter(m, rows)[k].columns == m[k].columns + RowColumns(rows, k)
  {
    if rows != [] {
      var init, row := rows[..|rows| - 1], rows[|rows| - 1];
      ColumnsAfterColumns(m, init);
      forall k | k in m && ToUpper(row.tableName) == k
        ensures ColumnsAfter(m, rows)[k].columns == m[k].columns + RowColumns(rows, k)
      {
        assert m[k].columns + RowColumns(init, k) + [RemoteColumn(row)]
          == m[k].columns + (RowColumns(init, k) + [RemoteColumn(row)]);
      }
    }
  }

  /**
   * collectColumns keeps the keys, names and primary keys, and appends to each table
   * exactly the columns of the rows naming it (ignoring case), in row order; rows of
   * unknown tables are dropped.
   */
  lemma ColumnsAfterSpec(m: map<string, RemoteTable>, rows: seq<ColumnMeta>)
    ensures ColumnsAfter(m, rows).Keys == m.Keys
    ensures forall k :: k in m ==>
      && ColumnsAfter(m, rows)[k].name == m[k].name
      && ColumnsAfter(m, rows)[k].primaryKey == m[k].primaryKey
      && ColumnsAfter(m, rows)[k].columns == m[k].columns + RowColumns(rows, k)
  {
    ColumnsAfterKeeps(m, rows);
    ColumnsAfterColumns(m, rows);
  }

  // ---------------------------------------------------------------- collectPrimaryKeys

  /** The key column names the database lists for the table with key `t`, in order. */
  function KeyColumnNames(rows: seq<PrimaryKeyMeta>, t: string): seq<string>
  {
    if rows == [] then []
    else
      KeyColumnNames(rows[..|rows| - 1], t)
      + (if rows[|rows| - 1].tableName == t then [rows[|rows| - 1].columnName] else [])
  }

  /** The names of the columns matching `names` (upper-cased), or None if one is missing. */
  function ResolveColumns(columns: seq<Column>, names: seq<string>): (r: Option<seq<string>>)
    ensures r.Some? ==> |r.value| == |names|
  {
    if names == [] then Some([])
    else
      var prev := ResolveColumns(columns, names[..|names| - 1]);
      var col := FindColumn(columns, ToUpper(names[|names| - 1]));
      if prev.None? || col.None? then None else Some(prev.value + [col.value.name])
  }

  /**
   * The table after collectPrimaryKeys handled it: unchanged without key rows, its key
   * set to the resolved columns otherwise; None when a key column cannot be resolved.
   */
  function WithPrimaryKey(table: RemoteTable, names: seq<string>): (r: Option<RemoteTable>)
    ensures r.Some? ==> r.value.name == table.name && r.value.columns == table.columns
  {
    if names == [] then Some(table)
    else match ResolveColumns(table.columns, names)
      case None => None
      case Some(cols) => Some(table.(primaryKey := Some(cols)))
  }

  /** Once one key column cannot be resolved, no longer list resolves. */
  lemma {:induction false} ResolveColumnsNoneStays(columns: seq<Column>, names: seq<string>, n: nat)
    requires n <= |names|
    requires ResolveColumns(columns, names[..n]).None?
    ensures ResolveColumns(columns, names).None?
  {
    if n < |names| {
      var init := names[..|names| - 1];
      assert init[..n] == names[..n];
      ResolveColumnsNoneStays(columns, init, n);
    } else {
      assert names[..n] == names;
    }
  }

  /** A resolved key names exactly columns of the table, matching the listed names. */
  lemma {:induction false} ResolveColumnsSpec(columns: seq<Column>, names: seq<string>)
    requires ResolveColumns(columns, names).Some?
    ensures forall i :: 0 <= i < |names| ==>
      exists c :: c in columns && c.name == ResolveColumns(columns, names).value[i]
                  && EqualsIgnoreCase(c.name, ToUpper(names[i]))
  {
    if names != [] {
      var init := names[..|names| - 1];
      ResolveColumnsSpec(columns, init);
      assert forall i :: 0 <= i < |init| ==> init[i] == names[i];
    }
  }

  // ---------------------------------------------------------------- collectForeignKeys

  /**
   * A column named by a foreign-key row: the table by its upper-cased name, the column
   * ignoring case; None stands for the NullPointerException of a missing one.
   */
  function ResolveRef(m: map<string, RemoteTable>, table: string, column: string): Option<ColumnRef>
  {
    var key := ToUpper(table);
    if key !in m then None
    else match FindColumn(m[key].columns, ToUpper(column))
      case None => None
      case Some(c) => Some(ColumnRef(m[key].name, c.name))
  }

  /** DBDatabase.getRelation: the position of the relation with this name. */
  function IndexOfRelation(rels: seq<Relation>, name: string): (r: Option<nat>)
    ensures r.Some? ==> r.value < |rels| && rels[r.value].name == name
    ensures r.None? ==> forall i :: 0 <= i < |rels| ==> rels[i].name != name
  {
    if rels == [] then None
    else if rels[|rels| - 1].name == name then Some(|rels| - 1)
    else IndexOfRelation(rels[..|rels| - 1], name)
  }

  /**
   * The relation list after one foreign-key row: a new relation is appended; an
   * existing one is removed and appended again with the new reference at its end.
   */
  function AddReference(rels: seq<Relation>, name: string, ref: Reference): seq<Relation>
  {
    match IndexOfRelation(rels, name)
    case None => rels + [Relation(name, [ref])]
    case Some(i) => rels[..i] + rels[i + 1..] + [Relation(name, rels[i].references + [ref])]
  }

  /**
   * Adding a reference puts the relation so named last, ending with the new reference
   * after the ones it had.
   */
  lemma AddReferenceLast(rels: seq<Relation>, name: string, ref: Reference)
    ensures var r := AddReference(rels, name, ref);
      && |r| > 0 && r[|r| - 1].name == name
      && r[|r| - 1].references
         == (match IndexOfRelation(rels, name) case None => [] case Some(i) => rels[i].references) + [ref]
  {
  }

  /** With unique names, removing the relation at `i` leaves exactly those named otherwise. */
  lemma RemoveRelationAt(rels: seq<Relation>, i: nat)
    requires UniqueRelationNames(rels) && i < |rels|
    ensures forall rel :: rel in rels[..i] + rels[i + 1..] <==> rel in rels && rel.name != rels[i].name
  {
    var before, after := rels[..i], rels[i + 1..];
    forall rel | rel in rels && rel.name != rels[i].name ensures rel in before || rel in after {
      var j :| 0 <= j < |rels| && rels[j] == rel;
      if j < i { assert before[j] == rel; } else { assert after[j - i - 1] == rel; }
    }
    forall rel | rel in before ensures rel in rels && rel.name != rels[i].name {
      var j :| 0 <= j < i && before[j] == rel;
      assert rels[j] == rel;
    }
    forall rel | rel in after ensures rel in rels && rel.name != rels[i].name {
      var j :| 0 <= j < |after| && after[j] == rel;
      assert rels[i + 1 + j] == rel;
    }
  }

  /** Adding a reference keeps every other relation, and no other. */
  lemma AddReferenceKeepsOthers(rels: seq<Relation>, name: string, ref: Reference)
    requires UniqueRelationNames(rels)
    ensures var r := AddReference(rels, name, ref);
      && |r| > 0
      && (forall rel :: rel in r[..|r| - 1] <==> rel in rels && rel.name != name)
  {
    var r := AddReference(rels, name, ref);
    match IndexOfRelation(rels, name)
    case None =>
      assert r[..|r| - 1] == rels;
    case Some(i) =>
      assert r[..|r| - 1] == rels[..i] + rels[i + 1..];
      RemoveRelationAt(rels, i);
  }

  /** Adding a reference keeps relation names unique. */
  lemma AddReferenceUnique(rels: seq<Relation>, name: string, ref: Reference)
    requires UniqueRelationNames(rels)
    ensures UniqueRelationNames(AddReference(rels, name, ref))
  {
    var r := AddReference(rels, name, ref);
    match IndexOfRelation(rels, name)
    case None =>
    case Some(i) =>
      forall p, q | 0 <= p < q < |r| ensures r[p].name != r[q].name {
        var p' := if p < i then p else p + 1;
        assert r[p] == rels[p'];
        if q < |r| - 1 {
          var q' := if q < i then q else q + 1;
          assert r[q] == rels[q'];
        }
      }
  }

  /** The relation list after the foreign-key rows, and whether a row could not be resolved. */
  datatype Collected = Collected(relations: seq<Relation>, aborted: bool)

  /** collectForeignKeys: row by row; an unresolved table or column throws. */
  function RelationsAfter(m: map<string, RemoteTable>, rels: seq<Relation>, rows: seq<ForeignKeyMeta>): Collected
  {
    if rows == [] then Collected(rels, false)
    else
      var prev := RelationsAfter(m, rels, rows[..|rows| - 1]);
      var row := rows[|rows| - 1];
      var source := ResolveRef(m, row.fkTable, row.fkColumn);
      var target := ResolveRef(m, row.pkTable, row.pkColumn);
      if prev.aborted then prev
      else if source.None? || target.None? then Collected(prev.relations, true)
      else Collected(AddReference(prev.relations, row.fkName, Reference(source.value, target.value)), false)
  }

  /** Once a row could not be resolved, later rows change nothing. */
  lemma {:induction false} RelationsAbortStops(m: map<string, RemoteTable>, rels: seq<Relation>, rows: seq<ForeignKeyMeta>, n: nat)
    requires n <= |rows|
    requires RelationsAfter(m, rels, rows[..n]).aborted
    ensures RelationsAfter(m, rels, rows) == RelationsAfter(m, rels, rows[..n])
  {
    if n < |rows| {
      var init := rows[..|rows| - 1];
      assert init[..n] == rows[..n];
      RelationsAbortStops(m, rels, init, n);
    } else {
      assert rows[..n] == rows;
    }
  }

  /** collectForeignKeys keeps relation names unique. */
  lemma {:induction false} RelationsAfterUnique(m: map<string, RemoteTable>, rels: seq<Relation>, rows: seq<ForeignKeyMeta>)
    requires UniqueRelationNames(rels)
    ensures UniqueRelationNames(RelationsAfter(m, rels, rows).relations)
  {
    if rows != [] {
      var prev := RelationsAfter(m, rels, rows[..|rows| - 1]);
      RelationsAfterUnique(m, rels, rows[..|rows| - 1]);
      var row := rows[|rows| - 1];
      var source := ResolveRef(m, row.fkTable, row.fkColumn);
      var target := ResolveRef(m, row.pkTable, row.pkColumn);
      if !prev.aborted && source.Some? && target.Some? {
        AddReferenceUnique(prev.relations, row.fkName, Reference(source.value, target.value));
      }
    }
  }

  /** DBTable.getForeignKeyRelations: the relations whose first reference starts in the table. */
  function ForeignKeyRelationsOf(rels: seq<Relation>, table: string): (r: seq<Relation>)
    ensures forall rel :: rel in r ==> rel in rels
  {
    if rels == [] then []
    else
      var last := rels[|rels| - 1];
      ForeignKeyRelationsOf(rels[..|rels| - 1], table)
      + (if |last.references| > 0 && last.references[0].source.rowset == table then [last] else [])
  }

  // ---------------------------------------------------------------- checkTable / checkView

  /**
   * The column loop of checkTable and checkView: a declared column the database lacks
   * is not found; every other one is checked by checkColumn.
   */
  function ColumnsReports(rowset: string, columns: seq<Column>, remoteColumns: seq<Column>, isTableColumn: bool): seq<Report>
  {
    if columns == [] then []
    else
      var column := columns[|columns| - 1];
      ColumnsReports(rowset, columns[..|columns| - 1], remoteColumns, isTableColumn)
      + match FindColumn(remoteColumns, column.name)
        case None => [ItemNotFound(ColumnItem(rowset, column.name))]
        case Some(remote) => ColumnReports(column, remote, isTableColumn)
  }

  /**
   * Exactly the declared columns the database lacks are reported not found; every
   * other report is a mismatch about a declared column that the database has.
   */
  lemma {:induction false} ColumnsReportsSpec(rowset: string, columns: seq<Column>, remoteColumns: seq<Column>, isTableColumn: bool)
    ensures var r := ColumnsReports(rowset, columns, remoteColumns, isTableColumn);
      && (forall c :: c in columns && FindColumn(remoteColumns, c.name).None?
            ==> ItemNotFound(ColumnItem(rowset, c.name)) in r)
      && (forall rep :: rep in r && rep.ItemNotFound? ==>
            exists c :: c in columns && FindColumn(remoteColumns, c.name).None?
                        && rep == ItemNotFound(ColumnItem(rowset, c.name)))
      && (forall rep :: rep in r && !rep.ItemNotFound? ==>
            !rep.PrimaryKeyColumnMissing? && rep.column in columns
            && FindColumn(remoteColumns, rep.column.name).Some?)
  {
    if columns != [] {
      var init := columns[..|columns| - 1];
      var column := columns[|columns| - 1];
      ColumnsReportsSpec(rowset, init, remoteColumns, isTableColumn);
      assert columns == init + [column];
      match FindColumn(remoteColumns, column.name)
      case None =>
      case Some(remote) => ColumnReportsAboutColumn(column, remote, isTableColumn);
    }
  }

  /**
   * checkTable: a table missing from the database is not found; otherwise its primary
   * key, its foreign keys and its columns are checked, in that order. A throw in the
   * foreign-key check ends the check before the columns.
   */
  function TableReports(m: map<string, RemoteTable>, rels: seq<Relation>, table: Table): CheckOutcome
  {
    var key := ToUpper(table.name);
    if key !in m then CheckOutcome([ItemNotFound(TableItem(table.name))], false)
    else
      var remote := m[key];
      var fk := ForeignKeyReports(table.foreignKeys, ForeignKeyRelationsOf(rels, remote.name));
      var reports := PrimaryKeyReports(table, remote) + fk.reports;
      if fk.aborted then CheckOutcome(reports, true)
      else CheckOutcome(reports + ColumnsReports(table.name, table.columns, remote.columns, true), false)
  }

  /**
   * checkTable reports the table itself not found exactly when the database lacks it,
   * and then reports nothing else: no key and no column reports.
   */
  lemma MissingTableReportedAlone(m: map<string, RemoteTable>, rels: seq<Relation>, table: Table)
    ensures ToUpper(table.name) !in m
      ==> TableReports(m, rels, table) == CheckOutcome([ItemNotFound(TableItem(table.name))], false)
    ensures ItemNotFound(TableItem(table.name)) in TableReports(m, rels, table).reports
      <==> ToUpper(table.name) !in m
  {
    var key := ToUpper(table.name);
    if key in m {
      var remote := m[key];
      PrimaryKeyReportsSpec(table, remote);
      ForeignKeyReportsSpec(table.foreignKeys, ForeignKeyRelationsOf(rels, remote.name));
      ColumnsReportsSpec(table.name, table.columns, remote.columns, true);
    }
  }

  /** checkView as written: a view missing from the database is reported as a null item. */
  function ViewReportsAsWritten(m: map<string, RemoteTable>, view: View): seq<Report>
  {
    var key := ToUpper(view.name);
    if key !in m then [ItemNotFound(NullItem)]
    else ColumnsReports(view.name, view.columns, m[key].columns, false)
  }

  /** checkView as intended: a view missing from the database is reported by name. */
  function ViewReports(m: map<string, RemoteTable>, view: View): seq<Report>
  {
    var key := ToUpper(view.name);
    if key !in m then [ItemNotFound(ViewItem(view.name))]
    else ColumnsReports(view.name, view.columns, m[key].columns, false)
  }

  /** As written, a missing view is reported without saying which view is missing. */
  lemma MissingViewUnnamedAsWritten(m: map<string, RemoteTable>, view: View)
    requires ToUpper(view.name) !in m
    ensures ViewReportsAsWritten(m, view) == [ItemNotFound(NullItem)]
    ensures ItemNotFound(ViewItem(view.name)) !in ViewReportsAsWritten(m, view)
  {
  }

  /**
   * Corrected, the missing view is reported by name exactly when it is missing, and
   * otherwise the two agree.
   */
  lemma {:induction false} MissingViewNamed(m: map<string, RemoteTable>, view: View)
    ensures ItemNotFound(ViewItem(view.name)) in ViewReports(m, view) <==> ToUpper(view.name) !in m
    ensures ToUpper(view.name) in m ==> ViewReports(m, view) == ViewReportsAsWritten(m, view)
  {
    var key := ToUpper(view.name);
    if key in m {
      ColumnsReportsSpec(view.name, view.columns, m[key].columns, false);
    }
  }

  /** checkTable for each table in order, stopping at the first throw. */
  function TablesReports(m: map<string, RemoteTable>, rels: seq<Relation>, tables: seq<Table>): CheckOutcome
  {
    if tables == [] then CheckOutcome([], false)
    else
      var prev := TablesReports(m, rels, tables[..|tables| - 1]);
      if prev.aborted then prev
      else
        var o := TableReports(m, rels, tables[|tables| - 1]);
        CheckOutcome(prev.reports + o.reports, o.aborted)
  }

  /** checkView for each view in order. */
  function ViewsReports(m: map<string, RemoteTable>, views: seq<View>): seq<Report>
  {
    if views == [] then []
    else ViewsReports(m, views[..|views| - 1]) + ViewReports(m, views[|views| - 1])
  }

  /** The checks of checkModel after collection: the tables, then, unless one threw, the views. */
  function ModelReports(m: map<string, RemoteTable>, rels: seq<Relation>, tables: seq<Table>, views: seq<View>): CheckOutcome
  {
    var t := TablesReports(m, rels, tables);
    if t.aborted then t else CheckOutcome(t.reports + ViewsReports(m, views), false)
  }

  /** Every declared table that the database lacks is reported, unless a check threw. */
  lemma {:induction false} MissingTablesReported(m: map<string, RemoteTable>, rels: seq<Relation>, tables: seq<Table>)
    ensures !TablesReports(m, rels, tables).aborted ==>
      forall t :: t in tables && ToUpper(t.name) !in m
        ==> ItemNotFound(TableItem(t.name)) in TablesReports(m, rels, tables).reports
  {
    if tables != [] {
      var init := tables[..|tables| - 1];
      MissingTablesReported(m, rels, init);
      assert tables == init + [tables[|tables| - 1]];
    }
  }

  // ---------------------------------------------------------------- checkModel

  /** Every table's listed key columns resolve, so collectPrimaryKeys does not throw. */
  predicate KeysResolve(m: map<string, RemoteTable>, rows: seq<PrimaryKeyMeta>) {
    forall k :: k in m ==> WithPrimaryKey(m[k], KeyColumnNames(rows, k)).Some?
  }

  /** The table map after collectPrimaryKeys, when every key resolves. */
  function KeyedTables(m: map<string, RemoteTable>, rows: seq<PrimaryKeyMeta>): map<string, RemoteTable>
    requires KeysResolve(m, rows)
  {
    map k | k in m :: WithPrimaryKey(m[k], KeyColumnNames(rows, k)).value
  }

  /** The tables and relations read from the database. */
  datatype Schema = Schema(tables: map<string, RemoteTable>, relations: seq<Relation>)

  /**
   * The collection half of checkModel: collectTables, collectColumns,
   * collectPrimaryKeys, collectForeignKeys in turn; None when a key column or a
   * foreign-key column cannot be resolved.
   */
  function CollectedSchema(
    m: map<string, RemoteTable>, rels: seq<Relation>, tableNames: seq<string>, columnRows: seq<ColumnMeta>,
    keyRows: seq<PrimaryKeyMeta>, foreignKeyRows: seq<ForeignKeyMeta>): Option<Schema>
  {
    var columns := ColumnsAfter(TablesAfter(m, tableNames), columnRows);
    if !KeysResolve(columns, keyRows) then None
    else
      var keyed := KeyedTables(columns, keyRows);
      var fks := RelationsAfter(keyed, rels, foreignKeyRows);
      if fks.aborted then None else Some(Schema(keyed, fks.relations))
  }

  /** checkModel: no report when collection throws; otherwise the checks over what was collected. */
  function CheckModelReports(
    m: map<string, RemoteTable>, rels: seq<Relation>, tables: seq<Table>, views: seq<View>,
    tableNames: seq<string>, columnRows: seq<ColumnMeta>,
    keyRows: seq<PrimaryKeyMeta>, foreignKeyRows: seq<ForeignKeyMeta>): CheckOutcome
  {
    match CollectedSchema(m, rels, tableNames, columnRows, keyRows, foreignKeyRows)
    case None => CheckOutcome([], true)
    case Some(schema) => ModelReports(schema.tables, schema.relations, tables, views)
  }

  /** Collecting keeps the map well keyed and the relation names unique. */
  lemma CollectedSchemaValid(
    m: map<string, RemoteTable>, rels: seq<Relation>, tableNames: seq<string>, columnRows: seq<ColumnMeta>,
    keyRows: seq<PrimaryKeyMeta>, foreignKeyRows: seq<ForeignKeyMeta>)
    requires WellKeyed(m) && UniqueRelationNames(rels)
    ensures var r := CollectedSchema(m, rels, tableNames, columnRows, keyRows, foreignKeyRows);
      r.Some? ==> WellKeyed(r.value.tables) && UniqueRelationNames(r.value.relations)
  {
    var tablesAfter := TablesAfter(m, tableNames);
    var columns := ColumnsAfter(tablesAfter, columnRows);
    TablesAfterEntries(m, tableNames);
    ColumnsAfterKeeps(tablesAfter, columnRows);
    if KeysResolve(columns, keyRows) {
      var keyed := KeyedTables(columns, keyRows);
      forall k | k in keyed ensures k == ToUpper(keyed[k].name) && '$' !in keyed[k].name {
        assert keyed[k].name == columns[k].name == tablesAfter[k].name;
      }
      RelationsAfterUnique(keyed, rels, foreignKeyRows);
    }
  }

  /**
   * The collected schema holds a table for exactly the listed names without a '$' (and
   * the tables held before), each under its upper-cased name, with the columns of the
   * rows naming it appended in row order, and then its listed key.
   */
  lemma CollectedSchemaTables(
    m: map<string, RemoteTable>, rels: seq<Relation>, tableNames: seq<string>, columnRows: seq<ColumnMeta>,
    keyRows: seq<PrimaryKeyMeta>, foreignKeyRows: seq<ForeignKeyMeta>)
    ensures var r := CollectedSchema(m, rels, tableNames, columnRows, keyRows, foreignKeyRows);
      r.Some? ==>
        && (forall k :: k in r.value.tables
              <==> k in m || exists i :: 0 <= i < |tableNames| && '$' !in tableNames[i] && ToUpper(tableNames[i]) == k)
        && (forall k :: k in r.value.tables ==>
              var t := TablesAfter(m, tableNames);
              && k in t
              && Some(r.value.tables[k]) == WithPrimaryKey(t[k].(columns := t[k].columns + RowColumns(columnRows, k)),
                                                           KeyColumnNames(keyRows, k)))
  {
    var tablesAfter := TablesAfter(m, tableNames);
    var columns := ColumnsAfter(tablesAfter, columnRows);
    TablesAfterKeys(m, tableNames);
    ColumnsAfterSpec(tablesAfter, columnRows);
    assert forall k :: k in columns ==>
      columns[k] == tablesAfter[k].(columns := tablesAfter[k].columns + RowColumns(columnRows, k));
  }

  /** Over an empty table map, checkTable only reports tables not found and never throws. */
  lemma {:induction false} TablesReportsOverNoTables(rels: seq<Relation>, tables: seq<Table>)
    ensures !TablesReports(map[], rels, tables).aborted
    ensures forall t :: t in tables ==> ItemNotFound(TableItem(t.name)) in TablesReports(map[], rels, tables).reports
  {
    if tables != [] {
      var init := tables[..|tables| - 1];
      TablesReportsOverNoTables(rels, init);
      assert tables == init + [tables[|tables| - 1]];
    }
  }

  /** Over an empty table map, every view is reported not found. */
  lemma {:induction false} ViewsReportsOverNoTables(views: seq<View>)
    ensures forall v :: v in views ==> ItemNotFound(ViewItem(v.name)) in ViewsReports(map[], views)
  {
    if views != [] {
      var init := views[..|views| - 1];
      ViewsReportsOverNoTables(init);
      assert views == init + [views[|views| - 1]];
    }
  }

  /**
   * Against a database that lists nothing, checkModel does not throw and reports
   * every declared table and view not found.
   */
  lemma EmptyDatabaseReportsEverything(tables: seq<Table>, views: seq<View>)
    ensures var o := CheckModelReports(map[], [], tables, views, [], [], [], []);
      && !o.aborted
      && (forall t :: t in tables ==> ItemNotFound(TableItem(t.name)) in o.reports)
      && (forall v :: v in views ==> ItemNotFound(ViewItem(v.name)) in o.reports)
  {
    var empty: map<string, RemoteTable> := map[];
    assert KeysResolve(empty, []);
    assert KeyedTables(empty, []) == empty;
    assert CollectedSchema(empty, [], [], [], [], []) == Some(Schema(empty, []));
    TablesReportsOverNoTables([], tables);
    ViewsReportsOverNoTables(views);
  }

  /**
   * Unless a check throws, checkModel reports every declared table whose upper-cased
   * name the database does not list (a '$' name is never listed) and that was not held before.
   */
  lemma CheckModelReportsMissingTables(
    m: map<string, RemoteTable>, rels: seq<Relation>, tables: seq<Table>, views: seq<View>,
    tableNames: seq<string>, columnRows: seq<ColumnMeta>,
    keyRows: seq<PrimaryKeyMeta>, foreignKeyRows: seq<ForeignKeyMeta>)
    ensures var o := CheckModelReports(m, rels, tables, views, tableNames, columnRows, keyRows, foreignKeyRows);
      !o.aborted ==>
        forall t :: t in tables && ToUpper(t.name) !in m
          && (forall i :: 0 <= i < |tableNames| && '$' !in tableNames[i] ==> ToUpper(tableNames[i]) != ToUpper(t.name))
          ==> ItemNotFound(TableItem(t.name)) in o.reports
  {
    var r := CollectedSchema(m, rels, tableNames, columnRows, keyRows, foreignKeyRows);
    if r.Some? {
      CollectedSchemaTables(m, rels, tableNames, columnRows, keyRows, foreignKeyRows);
      MissingTablesReported(r.value.tables, r.value.relations, tables);
    }
  }

  // ---------------------------------------------------------------- the checker

  class ModelChecker {
    /** The tables and views read from the database, by upper-cased name. */
    var tableMap: map<string, RemoteTable>
    /** The foreign-key relations read from the database. */
    var relations: seq<Relation>

    ghost predicate Valid()
      reads this
    {
      WellKeyed(tableMap) && UniqueRelationNames(relations)
    }

    constructor ()
      ensures Valid() && tableMap == map[] && relations == []
    {
      tableMap := map[];
      relations := [];
    }

    /** collectTables. */
    method CollectTables(names: seq<string>)
      requires Valid()
      modifies this
      ensures Valid()
      ensures tableMap == TablesAfter(old(tableMap), names) && relations == old(relations)
    {
      for i := 0 to |names|
        invariant tableMap == TablesAfter(old(tableMap), names[..i]) && relations == old(relations)
        invariant Valid()
      {
        assert names[..i + 1][..i] == names[..i];
        var name := names[i];
        if '$' in name {
          // a system table
          continue;
        }
        tableMap := tableMap[ToUpper(name) := RemoteTable(name, [], None)];
      }
      assert names[..|names|] == names;
    }

    /** collectColumns. */
    method CollectColumns(rows: seq<ColumnMeta>)
      requires Valid()
      modifies this
      ensures Valid()
      ensures tableMap == ColumnsAfter(old(tableMap), rows) && relations == old(relations)
    {
      for i := 0 to |rows|
        invariant tableMap == ColumnsAfter(old(tableMap), rows[..i]) && relations == old(relations)
        invariant Valid()
      {
        assert rows[..i + 1][..i] == rows[..i];
        var row := rows[i];
        var key := ToUpper(row.tableName);
        if key !in tableMap {
          // table not found
          continue;
        }
        var t := tableMap[key];
        tableMap := tableMap[key := t.(columns := t.columns + [RemoteColumn(row)])];
      }
      assert rows[..|rows|] == rows;
    }

    /**
     * collectPrimaryKeys, visiting the tables in any order. Every table ends either
     * untouched or with its collected key; all of them do unless a key column cannot
     * be resolved, which throws.
     */
    method CollectPrimaryKeys(rows: seq<PrimaryKeyMeta>) returns (aborted: bool)
      requires Valid()
      modifies this
      ensures Valid()
      ensures relations == old(relations) && tableMap.Keys == old(tableMap).Keys
      ensures forall k :: k in tableMap ==>
        tableMap[k] == old(tableMap)[k] || Some(tableMap[k]) == WithPrimaryKey(old(tableMap)[k], KeyColumnNames(rows, k))
      ensures !aborted ==> forall k :: k in tableMap ==>
        Some(tableMap[k]) == WithPrimaryKey(old(tableMap)[k], KeyColumnNames(rows, k))
      ensures aborted ==> exists k :: k in tableMap && WithPrimaryKey(old(tableMap)[k], KeyColumnNames(rows, k)).None?
    {
      var todo := tableMap.Keys;
      while todo != {}
        invariant todo <= tableMap.Keys == old(tableMap).Keys && relations == old(relations)
        invariant Valid()
        invariant forall k :: k in todo ==> tableMap[k] == old(tableMap)[k]
        invariant forall k :: k in tableMap && k !in todo ==>
          Some(tableMap[k]) == WithPrimaryKey(old(tableMap)[k], KeyColumnNames(rows, k))
        decreases todo
      {
        var t :| t in todo;
        todo := todo - {t};
        ToUpperIdempotent(tableMap[t].name);
        assert ToUpper(t) == t;
        var table := CollectTableKey(tableMap[ToUpper(t)], t, rows);
        if table.None? {
          assert WithPrimaryKey(old(tableMap)[t], KeyColumnNames(rows, t)).None?;
          return true;
        }
        WellKeyedUpdate(tableMap, t, table.value);
        tableMap := tableMap[t := table.value];
      }
      return false;
    }

    /** collectForeignKeys. */
    method CollectForeignKeys(rows: seq<ForeignKeyMeta>) returns (aborted: bool)
      requires Valid()
      modifies this
      ensures Valid()
      ensures tableMap == old(tableMap)
      ensures Collected(relations, aborted) == RelationsAfter(tableMap, old(relations), rows)
    {
      for i := 0 to |rows|
        invariant tableMap == old(tableMap)
        invariant Collected(relations, false) == RelationsAfter(tableMap, old(relations), rows[..i])
        invariant Valid()
      {
        assert rows[..i + 1][..i] == rows[..i] && rows[..i + 1][i] == rows[i];
        var row := rows[i];
        var source := ResolveRef(tableMap, row.fkTable, row.fkColumn);
        var target := ResolveRef(tableMap, row.pkTable, row.pkColumn);
        if source.None? || target.None? {
          assert RelationsAfter(tableMap, old(relations), rows[..i + 1]) == Collected(relations, true);
          RelationsAbortStops(tableMap, old(relations), rows, i + 1);
          return true;
        }
        var ref := Reference(source.value, target.value);
        AddReferenceUnique(relations, row.fkName, ref);
        ghost var before := relations;
        var index := IndexOfRelation(relations, row.fkName);
        if index.None? {
          relations := relations + [Relation(row.fkName, [ref])];
        } else {
          var existing := relations[index.value];
          var newRefs := ExtendReferences(existing.references, ref);
          relations := relations[..index.value] + relations[index.value + 1..]
                       + [Relation(row.fkName, newRefs[..])];
        }
        assert relations == AddReference(before, row.fkName, ref);
      }
      assert rows[..|rows|] == rows;
      return false;
    }

    /** checkTable. */
    method CheckTable(table: Table) returns (outcome: CheckOutcome)
      ensures outcome == TableReports(tableMap, relations, table)
    {
      var key := ToUpper(table.name);
      if key !in tableMap {
        return CheckOutcome([ItemNotFound(TableItem(table.name))], false);
      }
      var remote := tableMap[key];
      var reports := CheckPrimaryKey(table, remote);
      var fk := CheckForeignKeys(table.foreignKeys, ForeignKeyRelationsOf(relations, remote.name));
      reports := reports + fk.reports;
      if fk.aborted {
        return CheckOutcome(reports, true);
      }
      var columnReports := CheckColumns(table.name, table.columns, remote.columns, true);
      return CheckOutcome(reports + columnReports, false);
    }

    /** checkView, reporting a missing view by name. */
    method CheckView(view: View) returns (reports: seq<Report>)
      ensures reports == ViewReports(tableMap, view)
    {
      var key := ToUpper(view.name);
      if key !in tableMap {
        return [ItemNotFound(ViewItem(view.name))];
      }
      reports := CheckColumns(view.name, view.columns, tableMap[key].columns, false);
    }

    /**
     * The collection half of checkModel: tables, columns, primary keys, foreign keys;
     * `aborted` when a key or foreign-key column cannot be resolved.
     */
    method Collect(
      tableNames: seq<string>, columnRows: seq<ColumnMeta>,
      keyRows: seq<PrimaryKeyMeta>, foreignKeyRows: seq<ForeignKeyMeta>)
      returns (aborted: bool)
      requires Valid()
      modifies this
      ensures Valid()
      ensures aborted
        <==> CollectedSchema(old(tableMap), old(relations), tableNames, columnRows, keyRows, foreignKeyRows).None?
      ensures !aborted ==>
        Some(Schema(tableMap, relations))
        == CollectedSchema(old(tableMap), old(relations), tableNames, columnRows, keyRows, foreignKeyRows)
    {
      CollectTables(tableNames);
      CollectColumns(columnRows);
      ghost var columns := tableMap;
      aborted := CollectPrimaryKeys(keyRows);
      if aborted {
        return;
      }
      assert KeysResolve(columns, keyRows);
      assert tableMap == KeyedTables(columns, keyRows);
      aborted := CollectForeignKeys(foreignKeyRows);
    }

    /** The table loop of checkModel: checkTable for each table, stopping at a throw. */
    method CheckTables(tables: seq<Table>) returns (outcome: CheckOutcome)
      ensures outcome == TablesReports(tableMap, relations, tables)
    {
      var reports := [];
      for i := 0 to |tables|
        invariant TablesReports(tableMap, relations, tables[..i]) == CheckOutcome(reports, false)
      {
        assert tables[..i + 1][..i] == tables[..i];
        var o := CheckTable(tables[i]);
        reports := reports + o.reports;
        if o.aborted {
          TablesAbortStops(tableMap, relations, tables, i + 1);
          return CheckOutcome(reports, true);
        }
      }
      assert tables[..|tables|] == tables;
      return CheckOutcome(reports, false);
    }

    /** The view loop of checkModel: checkView for each view. */
    method CheckViews(views: seq<View>) returns (reports: seq<Report>)
      ensures reports == ViewsReports(tableMap, views)
    {
      reports := [];
      for i := 0 to |views|
        invariant reports == ViewsReports(tableMap, views[..i])
      {
        assert views[..i + 1][..i] == views[..i];
        var viewReports := CheckView(views[i]);
        reports := reports + viewReports;
      }
      assert views[..|views|] == views;
    }

    /** The checking half of checkModel: every table in order, then every view. */
    method CheckAll(tables: seq<Table>, views: seq<View>) returns (outcome: CheckOutcome)
      ensures outcome == ModelReports(tableMap, relations, tables, views)
    {
      outcome := CheckTables(tables);
      if outcome.aborted {
        return;
      }
      var viewReports := CheckViews(views);
      outcome := CheckOutcome(outcome.reports + viewReports, false);
    }

    /**
     * checkModel: collect everything, then check the tables, then the views. A throw
     * while collecting ends it before any report. The view check is the corrected one.
     */
    method CheckModel(
      tables: seq<Table>, views: seq<View>,
      tableNames: seq<string>, columnRows: seq<ColumnMeta>,
      keyRows: seq<PrimaryKeyMeta>, foreignKeyRows: seq<ForeignKeyMeta>)
      returns (outcome: CheckOutcome)
      requires Valid()
      modifies this
      ensures Valid()
      ensures outcome
        == CheckModelReports(old(tableMap), old(relations), tables, views, tableNames, columnRows, keyRows, foreignKeyRows)
    {
      var aborted := Collect(tableNames, columnRows, keyRows, foreignKeyRows);
      if aborted {
        return CheckOutcome([], true);
      }
      outcome := CheckAll(tables, views);
    }
  }

  /**
   * The body of collectPrimaryKeys for the table with key `t`: the listed key columns,
   * then, if there are any, the table's columns matching them; None when one is missing.
   */
  method CollectTableKey(table: RemoteTable, t: string, rows: seq<PrimaryKeyMeta>) returns (result: Option<RemoteTable>)
    ensures result == WithPrimaryKey(table, KeyColumnNames(rows, t))
  {
    var pkCols := [];
    for i := 0 to |rows|
      invariant pkCols == KeyColumnNames(rows[..i], t)
    {
      assert rows[..i + 1][..i] == rows[..i] && rows[..i + 1][i] == rows[i];
      if rows[i].tableName == t {
        pkCols := pkCols + [rows[i].columnName];
      }
    }
    assert rows[..|rows|] == rows;
    if |pkCols| == 0 {
      return Some(table);
    }
    var keys := [];
    for i := 0 to |pkCols|
      invariant ResolveColumns(table.columns, pkCols[..i]) == Some(keys)
    {
      assert pkCols[..i + 1][..i] == pkCols[..i] && pkCols[..i + 1][i] == pkCols[i];
      var column := FindColumn(table.columns, ToUpper(pkCols[i]));
      if column.None? {
        // the key array holds a null column
        ResolveColumnsNoneStays(table.columns, pkCols, i + 1);
        return None;
      }
      keys := keys + [column.value.name];
    }
    assert pkCols[..|pkCols|] == pkCols;
    return Some(table.(primaryKey := Some(keys)));
  }

  /**
   * The copy of collectForeignKeys for an existing relation: a new array one longer,
   * the existing references in order, the new one last.
   */
  method ExtendReferences(refs: seq<Reference>, ref: Reference) returns (newRefs: array<Reference>)
    ensures fresh(newRefs) && newRefs[..] == refs + [ref]
  {
    newRefs := new Reference[|refs| + 1](_ => ref);
    for i := 0 to |refs|
      invariant forall j :: 0 <= j < i ==> newRefs[j] == refs[j]
      invariant newRefs[newRefs.Length - 1] == ref
    {
      newRefs[i] := refs[i];
    }
    newRefs[newRefs.Length - 1] := ref;
  }

  /** The column loop shared by checkTable and checkView. */
  method CheckColumns(rowset: string, columns: seq<Column>, remoteColumns: seq<Column>, isTableColumn: bool)
    returns (reports: seq<Report>)
    ensures reports == ColumnsReports(rowset, columns, remoteColumns, isTableColumn)
  {
    reports := [];
    for i := 0 to |columns|
      invariant reports == ColumnsReports(rowset, columns[..i], remoteColumns, isTableColumn)
    {
      assert columns[..i + 1][..i] == columns[..i];
      var column := columns[i];
      var remote := FindColumn(remoteColumns, column.name);
      if remote.None? {
        reports := reports + [ItemNotFound(ColumnItem(rowset, column.name))];
        continue;
      }
      reports := reports + ColumnReports(column, remote.value, isTableColumn);
    }
    assert columns[..|columns|] == columns;
  }

  /** Once a table check has thrown, the tables after it change nothing. */
  lemma {:induction false} TablesAbortStops(m: map<string, RemoteTable>, rels: seq<Relation>, tables: seq<Table>, n: nat)
    requires n <= |tables|
    requires TablesReports(m, rels, tables[..n]).aborted
    ensures TablesReports(m, rels, tables) == TablesReports(m, rels, tables[..n])
  {
    if n < |tables| {
      var init := tables[..|tables| - 1];
      assert init[..n] == tables[..n];
      TablesAbortStops(m, rels, init, n);
    } else {
      assert tables[..n] == tables;
    }
  }
}
