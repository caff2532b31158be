/**
 * DBModelChecker's column checks: the reports emitted when a declared column is
 * compared with the column of the same name read from the database.
 */
module ColumnChecks {
  import opened ModelTypes

  /** checkColumnType: a type mismatch when the data types differ. */
  function TypeCheck(column: Column, remote: Column): (r: seq<Report>)
    ensures r == [] <==> column.dataType == remote.dataType
    ensures forall rep :: rep in r ==> rep == ColumnTypeMismatch(column, remote.dataType)
  {
    if column.dataType != remote.dataType then [ColumnTypeMismatch(column, remote.dataType)] else []
  }

  /**
   * checkColumnNullable: only a required column that the database lets be null is
   * reported; a nullable declared column over a NOT NULL database column is not.
   */
  function NullableCheck(column: Column, remote: Column): (r: seq<Report>)
    ensures r != [] <==> column.required && !remote.required
    ensures forall rep :: rep in r ==> rep == ColumnNullableMismatch(column, false)
  {
    if column.required && !remote.required then [ColumnNullableMismatch(column, remote.required)] else []
  }

  /** checkColumnSize: the integer parts of the sizes differ; the scale reported is 0. */
  function SizeCheck(column: Column, remote: Column): (r: seq<Report>)
    ensures r != [] <==> column.size != remote.size
    ensures forall rep :: rep in r ==> rep == ColumnSizeMismatch(column, remote.size, 0)
  {
    if column.size != remote.size then [ColumnSizeMismatch(column, remote.size, 0)] else []
  }

  /** checkGenericColumn: type, then nullability, then size. */
  function GenericChecks(column: Column, remote: Column): (r: seq<Report>)
    ensures |r| <= 3
  {
    TypeCheck(column, remote) + NullableCheck(column, remote) + SizeCheck(column, remote)
  }

  predicate IsDateType(t: DataType) {
    t == Date || t == DateTime || t == Time
  }

  /** The type half of checkDateColumn: any of DATE, DATETIME, TIME is accepted. */
  function DateTypeCheck(column: Column, remote: Column): (r: seq<Report>)
    ensures r == [] <==> IsDateType(remote.dataType)
  {
    if !IsDateType(remote.dataType) then [ColumnTypeMismatch(column, remote.dataType)] else []
  }

  /**
   * The scale half of checkDecimalColumn: compared only when the declared column is a
   * table column (a remote column always is); reported with the remote scale.
   */
  function ScaleCheck(column: Column, remote: Column, isTableColumn: bool): (r: seq<Report>)
    ensures r != [] <==> isTableColumn && column.scale != remote.scale
  {
    if isTableColumn && column.scale != remote.scale
    then [ColumnSizeMismatch(column, remote.size, remote.scale)]
    else []
  }

  /**
   * checkColumn: the per-type check of a declared column against the database column.
   * UNKNOWN, INTEGER, TEXT, CHAR, FLOAT and UNIQUEID get the generic check; AUTOINC
   * checks size then nullability; the date types check nullability then accept any
   * date type; BOOL, CLOB and BLOB check type and nullability but never the size;
   * DECIMAL adds the scale to the generic check.
   */
  function ColumnReports(column: Column, remote: Column, isTableColumn: bool): (r: seq<Report>)
    ensures |r| <= 4
  {
    match column.dataType
    case AutoInc => SizeCheck(column, remote) + NullableCheck(column, remote)
    case Date => NullableCheck(column, remote) + DateTypeCheck(column, remote)
    case DateTime => NullableCheck(column, remote) + DateTypeCheck(column, remote)
    case Time => NullableCheck(column, remote) + DateTypeCheck(column, remote)
    case Decimal => GenericChecks(column, remote) + ScaleCheck(column, remote, isTableColumn)
    case Bool => TypeCheck(column, remote) + NullableCheck(column, remote)
    case Clob => TypeCheck(column, remote) + NullableCheck(column, remote)
    case Blob => TypeCheck(column, remote) + NullableCheck(column, remote)
    case _ => GenericChecks(column, remote)
  }

  /** Whether checkColumn compares the data types, for a declared type `t`. */
  predicate TypeMismatchFor(t: DataType, remoteType: DataType) {
    if t == AutoInc then false
    else if IsDateType(t) then !IsDateType(remoteType)
    else t != remoteType
  }

  /** Whether checkColumn compares the sizes, for a declared type `t`. */
  predicate ChecksSize(t: DataType) {
    !IsDateType(t) && t != Bool && t != Clob && t != Blob
  }

  /**
   * The reports of checkColumn grouped by the kind of check each declared type gets:
   * the match of ColumnReports as an if-chain over the predicates above, which the
   * lemmas below reason with.
   */
  lemma ColumnReportsShape(column: Column, remote: Column, isTableColumn: bool)
    ensures ColumnReports(column, remote, isTableColumn) ==
      var t := column.dataType;
      if t == AutoInc then SizeCheck(column, remote) + NullableCheck(column, remote)
      else if IsDateType(t) then NullableCheck(column, remote) + DateTypeCheck(column, remote)
      else if t == Decimal then GenericChecks(column, remote) + ScaleCheck(column, remote, isTableColumn)
      else if t == Bool || t == Clob || t == Blob then TypeCheck(column, remote) + NullableCheck(column, remote)
      else GenericChecks(column, remote)
  {
  }

  /** Every report checkColumn emits is a column mismatch about the declared column. */
  lemma ColumnReportsAboutColumn(column: Column, remote: Column, isTableColumn: bool)
    ensures forall rep :: rep in ColumnReports(column, remote, isTableColumn) ==>
      && !rep.ItemNotFound? && !rep.PrimaryKeyColumnMissing? && rep.column == column
  {
    ColumnReportsShape(column, remote, isTableColumn);
  }

  /**
   * A type mismatch carries the remote type, and arises exactly when the type rule of
   * the declared type fails: never for AUTOINC, a non-date remote type for the date
   * types, a different type otherwise.
   */
  lemma TypeMismatchReports(column: Column, remote: Column, isTableColumn: bool)
    ensures var r := ColumnReports(column, remote, isTableColumn);
      && (forall rep :: rep in r && rep.ColumnTypeMismatch? ==> rep.remoteType == remote.dataType)
      && (ColumnTypeMismatch(column, remote.dataType) in r <==> TypeMismatchFor(column.dataType, remote.dataType))
  {
    ColumnReportsShape(column, remote, isTableColumn);
  }

  /**
   * A nullable mismatch arises, for every data type, exactly for a required column
   * over a nullable database column, and then says the remote column is not required.
   */
  lemma NullableMismatchReports(column: Column, remote: Column, isTableColumn: bool)
    ensures var r := ColumnReports(column, remote, isTableColumn);
      && (forall rep :: rep in r && rep.ColumnNullableMismatch? ==> !rep.remoteRequired)
      && (ColumnNullableMismatch(column, false) in r <==> column.required && !remote.required)
  {
    ColumnReportsShape(column, remote, isTableColumn);
  }

  /**
   * A size mismatch arises exactly when sizes are compared and differ or, for a
   * DECIMAL table column, when the scales differ. A scale mismatch against a remote
   * scale of 0 carries the same values as a plain size mismatch.
   */
  lemma SizeMismatchReports(column: Column, remote: Column, isTableColumn: bool)
    ensures var r := ColumnReports(column, remote, isTableColumn);
      && (forall rep :: rep in r && rep.ColumnSizeMismatch? ==> rep.remoteSize == remote.size)
      && (ColumnSizeMismatch(column, remote.size, 0) in r
          <==> (ChecksSize(column.dataType) && column.size != remote.size)
               || (column.dataType == Decimal && isTableColumn && column.scale != remote.scale && remote.scale == 0))
      && (remote.scale != 0 ==>
           (ColumnSizeMismatch(column, remote.size, remote.scale) in r
            <==> column.dataType == Decimal && isTableColumn && column.scale != remote.scale))
  {
    ColumnReportsShape(column, remote, isTableColumn);
  }

  /** A declared date column accepts a database column of any of the three date types. */
  lemma DateColumnsAcceptAnyDateType(column: Column, remote: Column, isTableColumn: bool)
    requires IsDateType(column.dataType) && IsDateType(remote.dataType)
    requires !column.required || remote.required
    ensures ColumnReports(column, remote, isTableColumn) == []
  {
  }

  /** BOOL, CLOB and BLOB columns never report a size mismatch, whatever the sizes. */
  lemma NoSizeCheckForBoolClobBlob(column: Column, remote: Column, isTableColumn: bool)
    requires column.dataType in {Bool, Clob, Blob}
    ensures forall rep :: rep in ColumnReports(column, remote, isTableColumn) ==> !rep.ColumnSizeMismatch?
  {
  }
}
