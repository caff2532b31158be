/**
 * The values DBModelChecker works on: Empire-db data types, the mapping from
 * java.sql.Types codes, declared (local) tables and views, the tables and relations
 * read back from the database (remote), the rows of JDBC metadata they are read from,
 * and the reports handed to the error handler.
 */
module ModelTypes {
  import opened Wrappers
  import opened JavaText

  /** Empire-db's DataType. */
  datatype DataType =
    | Unknown | Integer | AutoInc | Text | Date | DateTime | Time | Char
    | Float | Decimal | Bool | Clob | Blob | UniqueId

  // java.sql.Types codes
  const SqlBit: int := -7
  const SqlTinyInt: int := -6
  const SqlSmallInt: int := 5
  const SqlInteger: int := 4
  const SqlBigInt: int := -5
  const SqlFloat: int := 6
  const SqlReal: int := 7
  const SqlDouble: int := 8
  const SqlNumeric: int := 2
  const SqlDecimal: int := 3
  const SqlChar: int := 1
  const SqlVarChar: int := 12
  const SqlLongVarChar: int := -1
  const SqlDate: int := 91
  const SqlTime: int := 92
  const SqlTimestamp: int := 93
  const SqlBinary: int := -2
  const SqlVarBinary: int := -3
  const SqlLongVarBinary: int := -4
  const SqlBlob: int := 2004
  const SqlClob: int := 2005
  const SqlBoolean: int := 16

  /** The java.sql.Types codes that getEmpireDataType knows. */
  const KnownSqlTypes: set<int> := {
    SqlInteger, SqlSmallInt, SqlTinyInt, SqlBigInt, SqlVarChar, SqlDate, SqlTimestamp, SqlTime,
    SqlChar, SqlDouble, SqlFloat, SqlReal, SqlDecimal, SqlNumeric, SqlBit, SqlBoolean,
    SqlClob, SqlLongVarChar, SqlBinary, SqlVarBinary, SqlLongVarBinary, SqlBlob}

  /** getEmpireDataType: the Empire-db type of a java.sql.Types code; UNKNOWN if unsupported. */
  function GetEmpireDataType(sqlType: int): (t: DataType)
    ensures t != AutoInc && t != UniqueId
    ensures t == Unknown <==> sqlType !in KnownSqlTypes
  {
    if sqlType in {SqlInteger, SqlSmallInt, SqlTinyInt, SqlBigInt} then Integer
    else if sqlType == SqlVarChar then Text
    else if sqlType == SqlDate then Date
    else if sqlType == SqlTimestamp then DateTime
    else if sqlType == SqlTime then Time
    else if sqlType == SqlChar then Char
    else if sqlType in {SqlDouble, SqlFloat, SqlReal} then Float
    else if sqlType in {SqlDecimal, SqlNumeric} then Decimal
    else if sqlType in {SqlBit, SqlBoolean} then Bool
    else if sqlType in {SqlClob, SqlLongVarChar} then Clob
    else if sqlType in {SqlBinary, SqlVarBinary, SqlLongVarBinary, SqlBlob} then Blob
    else Unknown
  }

  /** Which codes land on each data type. */
  lemma EmpireDataTypeMapping(sqlType: int)
    ensures GetEmpireDataType(sqlType) == Integer
      <==> sqlType in {SqlInteger, SqlSmallInt, SqlTinyInt, SqlBigInt}
    ensures GetEmpireDataType(sqlType) == Text <==> sqlType == SqlVarChar
    ensures GetEmpireDataType(sqlType) == Date <==> sqlType == SqlDate
    ensures GetEmpireDataType(sqlType) == DateTime <==> sqlType == SqlTimestamp
    ensures GetEmpireDataType(sqlType) == Time <==> sqlType == SqlTime
    ensures GetEmpireDataType(sqlType) == Char <==> sqlType == SqlChar
    ensures GetEmpireDataType(sqlType) == Float <==> sqlType in {SqlDouble, SqlFloat, SqlReal}
    ensures GetEmpireDataType(sqlType) == Decimal <==> sqlType in {SqlDecimal, SqlNumeric}
    ensures GetEmpireDataType(sqlType) == Bool <==> sqlType in {SqlBit, SqlBoolean}
    ensures GetEmpireDataType(sqlType) == Clob <==> sqlType in {SqlClob, SqlLongVarChar}
    ensures GetEmpireDataType(sqlType) == Blob
      <==> sqlType in {SqlBinary, SqlVarBinary, SqlLongVarBinary, SqlBlob}
  {
  }

  /**
   * A column as the checks see it: its name, data type, the integer part of its size,
   * whether it is required (NOT NULL), and its decimal scale.
   */
  datatype Column = Column(name: string, dataType: DataType, size: int, required: bool, scale: int)

  /** A column named through its row set (table or view). */
  datatype ColumnRef = ColumnRef(rowset: string, column: string)

  /** DBColumn.getFullName: the row set's name, a dot, the column's name. */
  function FullName(c: ColumnRef): string {
    c.rowset + "." + c.column
  }

  /** The row set a declared foreign key points at: a view, or a table and its primary key. */
  datatype TargetRowset = ViewTarget | TableTarget(primaryKey: Option<seq<string>>)

  /** One column pair of a declared foreign key. */
  datatype LocalReference = LocalReference(source: ColumnRef, target: ColumnRef, targetRowset: TargetRowset)

  /** A declared foreign-key relation. */
  datatype LocalRelation = LocalRelation(name: string, references: seq<LocalReference>)

  /** A declared table: columns, primary-key column names (if any), foreign keys. */
  datatype Table = Table(
    name: string,
    columns: seq<Column>,
    primaryKey: Option<seq<string>>,
    foreignKeys: seq<LocalRelation>)

  /** A declared view. */
  datatype View = View(name: string, columns: seq<Column>)

  /** One column pair of a foreign key read from the database. */
  datatype Reference = Reference(source: ColumnRef, target: ColumnRef)

  /** A foreign-key relation read from the database. */
  datatype Relation = Relation(name: string, references: seq<Reference>)

  /** A table or view read from the database. */
  datatype RemoteTable = RemoteTable(name: string, columns: seq<Column>, primaryKey: Option<seq<string>>)

  /** A row of DatabaseMetaData.getColumns. */
  datatype ColumnMeta = ColumnMeta(
    tableName: string,
    columnName: string,
    sqlType: int,
    columnSize: int,
    decimalDigits: int,
    isNullable: string,
    defaultValue: Option<string>,
    autoIncrement: bool)

  /** A row of DatabaseMetaData.getPrimaryKeys. */
  datatype PrimaryKeyMeta = PrimaryKeyMeta(tableName: string, columnName: string)

  /** A row of DatabaseMetaData.getImportedKeys. */
  datatype ForeignKeyMeta = ForeignKeyMeta(
    fkTable: string, fkColumn: string, pkTable: string, pkColumn: string, fkName: string)

  /** What a report is about. `NullItem` is the Java null. */
  datatype Item =
    | TableItem(name: string)
    | ViewItem(name: string)
    | ColumnItem(rowset: string, column: string)
    | PrimaryKeyItem(table: string)
    | RelationItem(name: string)
    | NullItem

  /** The calls made on DBModelErrorHandler. */
  datatype Report =
    | ItemNotFound(item: Item)
    | PrimaryKeyColumnMissing(table: string, keyColumn: string)
    | ColumnTypeMismatch(column: Column, remoteType: DataType)
    | ColumnNullableMismatch(column: Column, remoteRequired: bool)
    | ColumnSizeMismatch(column: Column, remoteSize: int, remoteScale: int)

  /**
   * The reports a check emitted, and whether a NullPointerException ended it after
   * them.
   */
  datatype CheckOutcome = CheckOutcome(reports: seq<Report>, aborted: bool)

  /**
   * addColumn: the column built from a getColumns row. DECIMAL and FLOAT columns
   * smaller than 1 become INTEGER; IS_NULLABLE "NO" (any case) makes the column
   * required, except for a TIMESTAMP defaulting to CURRENT_TIMESTAMP; an
   * auto-increment column is AUTOINC. The scale is the row's decimal digits.
   */
  function RemoteColumn(m: ColumnMeta): (c: Column)
    ensures c.name == m.columnName && c.size == m.columnSize
    ensures c.dataType == AutoInc <==> m.autoIncrement
    ensures c.required ==> EqualsIgnoreCase(m.isNullable, "NO")
  {
    var declared := GetEmpireDataType(m.sqlType);
    var numeric := declared == Decimal || declared == Float;
    var scale := if numeric && m.decimalDigits > 0 then m.decimalDigits else 0;
    var sized := if numeric && m.columnSize < 1 then Integer else declared;
    var required :=
      EqualsIgnoreCase(m.isNullable, "NO")
      && !(m.sqlType == SqlTimestamp && m.defaultValue == Some("CURRENT_TIMESTAMP"));
    var dataType := if m.autoIncrement then AutoInc else sized;
    Column(m.columnName, dataType, m.columnSize, required, scale)
  }

  /** DBRowSet.getColumn: the first column whose name matches, ignoring case. */
  function FindColumn(columns: seq<Column>, name: string): (r: Option<Column>)
    ensures r.Some? ==> r.value in columns && EqualsIgnoreCase(r.value.name, name)
    ensures r.None? ==> forall c :: c in columns ==> !EqualsIgnoreCase(c.name, name)
  {
    if columns == [] then None
    else if EqualsIgnoreCase(columns[0].name, name) then Some(columns[0])
    else FindColumn(columns[1..], name)
  }
}
