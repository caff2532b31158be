# Empire-db core, modelled in Dafny

This project models three pieces of Apache Empire-db and proves what they promise.

- **DBModelChecker** compares the data model an application declares (tables, views, columns, primary keys, foreign-key relations) with the schema a database reports through JDBC metadata, and hands every difference to an error handler. The model covers the following:
  - the metadata rows become sequences of records;
  - the error handler becomes the sequence of reports it receives;
  - the checker's `tableMap` and relation list become fields of the class `ModelValidation.ModelChecker`, updated by the `collect*` methods.

  The `checkPrimaryKey` and `checkForeignKeys` loops, labels included, are methods proved equal to specification functions (`key_checks.dfy`). The per-type column checks are pure functions (`column_checks.dfy`). The data types, metadata rows and reports are in `model_types.dfy`.
- **ObjectUtils** holds the null-tolerant value helpers: emptiness, `compareEqual`, `coalesce`, the integer, long and boolean conversions with defaults, `toStringArray`, `contains`, and the primitive-wrapper and assignment-compatibility table. Java objects are a closed `Value` datatype (`object_utils.dfy`).
- **DBCommandOracle** is a command object with Oracle's CONNECT BY PRIOR / START WITH, an optimizer hint and a ROWNUM row limit, and the SELECT, UPDATE and DELETE text it builds (`oracle_command.dfy`). Its fields are those of the class `OracleCommand.CommandOracle`. The statement text is the sequence of pieces appended to the `StringBuilder`: keywords, the hint, and SQL produced by expression objects, which is opaque here (`sql_text.dfy`). The text is their concatenation.

`java_text.dfy` holds the `java.lang` string operations the code relies on: `toUpperCase`, `equalsIgnoreCase`, `indexOf`/`contains`, `Integer.toString`, `parseInt` and `parseLong`. `wrappers.dfy` holds `Option` and `Result`.

Where a method stands for imperative code, its `ensures` ties the result or the new state to a specification function. Lemmas then state the source's promises about that function.

The table cites the three Java files by their path in the repository: `DBModelChecker.java`, `ObjectUtils.java` and `DBCommandOracle.java`.

## Model

| member | source | states |
|---|---|---|
| JavaText.ToUpper | empire-db/src/main/java/org/apache/empire/db/validation/DBModelChecker.java:117 | String.toUpperCase: same length, each ASCII letter upper-cased, every other character kept |
| JavaText.EqualsIgnoreCase | empire-db/src/main/java/org/apache/empire/commons/ObjectUtils.java:421 | String.equalsIgnoreCase: equal once both are upper-cased |
| JavaText.DecimalString | empire-db/src/main/java/org/apache/empire/commons/ObjectUtils.java:145 | Integer.toString and Long.toString: a minus sign exactly for a negative number, then decimal digits |
| JavaText.ParseInt | empire-db/src/main/java/org/apache/empire/commons/ObjectUtils.java:196 | Integer.parseInt: a result only within the int range, None standing for NumberFormatException |
| JavaText.ParseLong | empire-db/src/main/java/org/apache/empire/commons/ObjectUtils.java:248 | Long.parseLong: a result only within the long range, None standing for NumberFormatException |
| JavaText.DecimalParse | empire-db/src/main/java/org/apache/empire/commons/ObjectUtils.java:195-196 | parsing the decimal text of a number gives the number exactly when it is in range, and throws otherwise |
| ModelTypes.GetEmpireDataType | empire-db/src/main/java/org/apache/empire/db/validation/DBModelChecker.java:591-646 | the mapping is total, never yields AUTOINC or UNIQUEID, and yields UNKNOWN exactly for codes outside the supported java.sql.Types list |
| ModelTypes.EmpireDataTypeMapping | empire-db/src/main/java/org/apache/empire/db/validation/DBModelChecker.java:591-646 | for each Empire type, exactly which java.sql.Types codes map to it (both directions) |
| ModelTypes.RemoteColumn | empire-db/src/main/java/org/apache/empire/db/validation/DBModelChecker.java:507-589 | the column read from a metadata row keeps its name and size, is AUTOINC exactly when the row says auto-increment, and is required only when IS_NULLABLE is "NO" ignoring case |
| ModelTypes.FindColumn | empire-db/src/main/java/org/apache/empire/db/validation/DBModelChecker.java:221-224 | the column lookup finds a column whose name matches ignoring case, and finds none only when no column matches |
| ColumnChecks.TypeCheck | empire-db/src/main/java/org/apache/empire/db/validation/DBModelChecker.java:394-400 | no report exactly when the data types agree; otherwise one type mismatch carrying the remote type |
| ColumnChecks.NullableCheck | empire-db/src/main/java/org/apache/empire/db/validation/DBModelChecker.java:402-408 | a report exactly when the declared column is required and the database column is not; the reverse never reports |
| ColumnChecks.SizeCheck | empire-db/src/main/java/org/apache/empire/db/validation/DBModelChecker.java:410-416 | a report exactly when the integer sizes differ, carrying the remote size and scale 0 |
| ColumnChecks.GenericChecks | empire-db/src/main/java/org/apache/empire/db/validation/DBModelChecker.java:387-392 | type, nullable and size checks in that order: at most three reports |
| ColumnChecks.DateTypeCheck | empire-db/src/main/java/org/apache/empire/db/validation/DBModelChecker.java:440-450 | a date column's type is accepted exactly when the remote type is DATE, DATETIME or TIME |
| ColumnChecks.ScaleCheck | empire-db/src/main/java/org/apache/empire/db/validation/DBModelChecker.java:462-478 | the scale is compared only for table columns, and a report arises exactly when the scales differ |
| ColumnChecks.ColumnReports | empire-db/src/main/java/org/apache/empire/db/validation/DBModelChecker.java:339-385 | the per-type dispatch emits at most four reports for one column |
| ColumnChecks.ColumnReportsAboutColumn | empire-db/src/main/java/org/apache/empire/db/validation/DBModelChecker.java:339-385 | every report of the column check is a type, nullable or size mismatch about the declared column itself |
| ColumnChecks.TypeMismatchReports | empire-db/src/main/java/org/apache/empire/db/validation/DBModelChecker.java:339-385 | a type mismatch carries the remote type and arises exactly when the type rule of the declared type fails: never for AUTOINC, any non-date type for date columns, a different type otherwise |
| ColumnChecks.NullableMismatchReports | empire-db/src/main/java/org/apache/empire/db/validation/DBModelChecker.java:402-408 | for every data type, a nullable mismatch arises exactly for a required column over a nullable database column |
| ColumnChecks.SizeMismatchReports | empire-db/src/main/java/org/apache/empire/db/validation/DBModelChecker.java:339-385 | a size mismatch arises exactly when the type's rule compares sizes and they differ, or, for a DECIMAL table column, when the scales differ |
| ColumnChecks.DateColumnsAcceptAnyDateType | empire-db/src/main/java/org/apache/empire/db/validation/DBModelChecker.java:440-450 | a date column over a column of any of the three date types, with compatible nullability, raises no report |
| ColumnChecks.NoSizeCheckForBoolClobBlob | empire-db/src/main/java/org/apache/empire/db/validation/DBModelChecker.java:480-499 | BOOL, CLOB and BLOB columns never get a size mismatch |
| KeyChecks.MissingKeyColumns | empire-db/src/main/java/org/apache/empire/db/validation/DBModelChecker.java:251-263 | the labelled pkColLoop: in declared order, one primaryKeyColumnMissing for each declared key column whose full name equals no database key column's, ignoring case; MissingKeyColumnsSpec proves this |
| KeyChecks.PrimaryKeyReports | empire-db/src/main/java/org/apache/empire/db/validation/DBModelChecker.java:233-264 | checkPrimaryKey: nothing without a declared key, the key not found when the database table has none, the missing key columns otherwise; PrimaryKeyReportsSpec proves this |
| KeyChecks.MissingKeyColumnsSpec | empire-db/src/main/java/org/apache/empire/db/validation/DBModelChecker.java:251-263 | at most one report per declared key column; a column is reported exactly when it is declared and its full name matches no database key column ignoring case |
| KeyChecks.PrimaryKeyReportsSpec | empire-db/src/main/java/org/apache/empire/db/validation/DBModelChecker.java:233-264 | no declared key gives no report; no database key gives exactly the key not found; otherwise exactly the missing declared columns, and database key columns that are not declared are never reported |
| KeyChecks.CheckPrimaryKey | empire-db/src/main/java/org/apache/empire/db/validation/DBModelChecker.java:233-264 | the labelled loop emits exactly the reports of the primary-key specification, in order |
| KeyChecks.ScanReferences | empire-db/src/main/java/org/apache/empire/db/validation/DBModelChecker.java:279-311 | the reference loop of one relation: a reference outside the target key is skipped, a matched one continues, an unmatched one ends with not found, a target table without a key throws; ScanReferencesSpec proves this |
| KeyChecks.ScanReferencesSpec | empire-db/src/main/java/org/apache/empire/db/validation/DBModelChecker.java:279-311 | every reference before the first unsettled one is matched or skipped; the relation is found exactly when there is no unsettled reference, is not found exactly when the first one has no match, and the scan throws exactly when the first one reaches a target table without a primary key |
| KeyChecks.ForeignKeyReports | empire-db/src/main/java/org/apache/empire/db/validation/DBModelChecker.java:266-315 | checkForeignKeys over the declared relations in order: one not found per relation whose scan finds a missing reference, ending at the first throw; ForeignKeyReportsSpec proves this |
| KeyChecks.ForeignKeyReportsSpec | empire-db/src/main/java/org/apache/empire/db/validation/DBModelChecker.java:266-315 | at most one report per declared relation, each naming a relation with a missing reference; without a throw every such relation is reported; the check throws exactly when a reference reaches a target table without a primary key |
| KeyChecks.AbortStops | empire-db/src/main/java/org/apache/empire/db/validation/DBModelChecker.java:277-311 | once the foreign-key check has thrown, later relations change nothing |
| KeyChecks.FindRemoteReference | empire-db/src/main/java/org/apache/empire/db/validation/DBModelChecker.java:295-303 | the nested search succeeds exactly when some database relation has a reference joining the same columns, compared by full name ignoring case |
| KeyChecks.CheckForeignKeys | empire-db/src/main/java/org/apache/empire/db/validation/DBModelChecker.java:266-315 | the labelled loops emit exactly the reports of the foreign-key specification, and throw where it does |
| ModelValidation.TablesAfter | empire-db/src/main/java/org/apache/empire/db/validation/DBModelChecker.java:107-118 | collectTables row by row: a name with a '$' is skipped, any other puts a new empty table under its upper-cased name; TablesAfterSpec proves this |
| ModelValidation.TablesAfterSpec | empire-db/src/main/java/org/apache/empire/db/validation/DBModelChecker.java:107-118 | collecting tables keeps every key the upper-cased name of its table, with no '$'; the keys are the old ones plus the upper-cased names without '$'; new tables have no columns and no key |
| ModelValidation.ColumnsAfter | empire-db/src/main/java/org/apache/empire/db/validation/DBModelChecker.java:121-136 | collectColumns row by row: the column is appended to the table under the upper-cased table name, and a row of an unknown table is skipped; ColumnsAfterSpec proves this |
| ModelValidation.ColumnsAfterSpec | empire-db/src/main/java/org/apache/empire/db/validation/DBModelChecker.java:121-136 | collecting columns keeps keys, names and keys of tables, and appends to each table exactly the columns of the rows naming it, in row order |
| ModelValidation.ResolveColumns | empire-db/src/main/java/org/apache/empire/db/validation/DBModelChecker.java:151-156 | the names of the table's columns matching the listed key columns upper-cased, as many as listed; None when one does not resolve |
| ModelValidation.WithPrimaryKey | empire-db/src/main/java/org/apache/empire/db/validation/DBModelChecker.java:143-158 | a table with no listed key columns is left as it is; otherwise its key becomes the resolved columns, or None when one is missing; name and columns are always kept |
| ModelValidation.ResolveColumnsNoneStays | empire-db/src/main/java/org/apache/empire/db/validation/DBModelChecker.java:151-156 | once one key column cannot be resolved, the key as a whole cannot be |
| ModelValidation.ResolveColumnsSpec | empire-db/src/main/java/org/apache/empire/db/validation/DBModelChecker.java:151-156 | a resolved key lists, position by position, columns of the table matching the listed names ignoring case |
| ModelValidation.IndexOfRelation | empire-db/src/main/java/org/apache/empire/db/validation/DBModelChecker.java:180 | the relation lookup finds a relation of that name, and finds none only when no relation has the name |
| ModelValidation.AddReference | empire-db/src/main/java/org/apache/empire/db/validation/DBModelChecker.java:180-200 | one foreign-key row: a relation of a new name is appended; an existing one is removed and added again with the new reference last; AddReferenceLast, AddReferenceKeepsOthers and AddReferenceUnique prove this |
| ModelValidation.AddReferenceLast | empire-db/src/main/java/org/apache/empire/db/validation/DBModelChecker.java:180-200 | after a foreign-key row the relation of that name is last, with its earlier references in order followed by the new one |
| ModelValidation.AddReferenceKeepsOthers | empire-db/src/main/java/org/apache/empire/db/validation/DBModelChecker.java:180-200 | a foreign-key row keeps every other relation, and no other |
| ModelValidation.AddReferenceUnique | empire-db/src/main/java/org/apache/empire/db/validation/DBModelChecker.java:180-200 | relation names stay unique |
| ModelValidation.RemoveRelationAt | empire-db/src/main/java/org/apache/empire/db/validation/DBModelChecker.java:190 | removing the relation leaves exactly the relations with other names |
| ModelValidation.RelationsAfter | empire-db/src/main/java/org/apache/empire/db/validation/DBModelChecker.java:166-201 | collectForeignKeys row by row, stopping at the first row whose table or column cannot be resolved; RelationsAbortStops and RelationsAfterUnique prove this |
| ModelValidation.RelationsAbortStops | empire-db/src/main/java/org/apache/empire/db/validation/DBModelChecker.java:166-201 | after a row whose table or column cannot be resolved, later rows change nothing |
| ModelValidation.RelationsAfterUnique | empire-db/src/main/java/org/apache/empire/db/validation/DBModelChecker.java:166-201 | collecting foreign keys keeps relation names unique |
| ModelValidation.ForeignKeyRelationsOf | empire-db/src/main/java/org/apache/empire/db/validation/DBModelChecker.java:274-275 | a table's foreign-key relations are relations of the database |
| ModelValidation.ColumnsReportsSpec | empire-db/src/main/java/org/apache/empire/db/validation/DBModelChecker.java:221-230 | exactly the declared columns the database lacks are reported not found; every other report is a mismatch about a declared column the database has |
| ModelValidation.TableReports | empire-db/src/main/java/org/apache/empire/db/validation/DBModelChecker.java:204-231 | checkTable: not found when the database lacks the table; otherwise the primary key, the foreign keys and, unless they threw, the columns; MissingTableReportedAlone proves this |
| ModelValidation.MissingTableReportedAlone | empire-db/src/main/java/org/apache/empire/db/validation/DBModelChecker.java:204-231 | a table the database lacks gives exactly one report, the table not found; the table is reported not found only when the database lacks it |
| ModelValidation.ViewReportsAsWritten | empire-db/src/main/java/org/apache/empire/db/validation/DBModelChecker.java:317-337 | checkView as written: a missing view is reported as a null item, and otherwise its columns are checked |
| ModelValidation.MissingViewUnnamedAsWritten | empire-db/src/main/java/org/apache/empire/db/validation/DBModelChecker.java:321-325 | as written, a missing view is reported as a null item, never by name |
| ModelValidation.ViewReports | empire-db/src/main/java/org/apache/empire/db/validation/DBModelChecker.java:317-337 | checkView corrected: a missing view is reported by name, and otherwise its columns are checked; MissingViewNamed proves this |
| ModelValidation.MissingViewNamed | empire-db/src/main/java/org/apache/empire/db/validation/DBModelChecker.java:317-337 | corrected, the view is reported not found exactly when it is missing; otherwise the corrected and as-written checks agree |
| ModelValidation.TablesReports | empire-db/src/main/java/org/apache/empire/db/validation/DBModelChecker.java:85-91 | checkTable for each declared table in order, ending at the first throw; MissingTablesReported and TablesAbortStops prove this |
| ModelValidation.ViewsReports | empire-db/src/main/java/org/apache/empire/db/validation/DBModelChecker.java:93-96 | checkView for each declared view in order |
| ModelValidation.ModelReports | empire-db/src/main/java/org/apache/empire/db/validation/DBModelChecker.java:85-96 | the checking half of checkModel: the tables, then the views unless a table check threw |
| ModelValidation.CollectedSchema | empire-db/src/main/java/org/apache/empire/db/validation/DBModelChecker.java:74-82 | the collection half of checkModel: collectTables, collectColumns, collectPrimaryKeys, collectForeignKeys; None exactly when some table's listed key column or some foreign-key row's table or column cannot be resolved |
| ModelValidation.CollectedSchemaValid | empire-db/src/main/java/org/apache/empire/db/validation/DBModelChecker.java:104-202 | the collected table map keeps every table under its upper-cased name, with no '$', and relation names are unique |
| ModelValidation.CollectedSchemaTables | empire-db/src/main/java/org/apache/empire/db/validation/DBModelChecker.java:104-160 | the collected tables are exactly those held before plus the listed names without a '$'; each has the columns of the rows naming it, in row order, and then its listed key |
| ModelValidation.CheckModelReports | empire-db/src/main/java/org/apache/empire/db/validation/DBModelChecker.java:68-102 | checkModel: no report when collection throws; otherwise the table and view checks over the collected schema |
| ModelValidation.EmptyDatabaseReportsEverything | empire-db/src/main/java/org/apache/empire/db/validation/DBModelChecker.java:68-102 | against a database that lists nothing, checkModel does not throw and reports every declared table and view not found |
| ModelValidation.CheckModelReportsMissingTables | empire-db/src/main/java/org/apache/empire/db/validation/DBModelChecker.java:68-102 | unless a check throws, every declared table the database does not list is reported not found |
| ModelValidation.MissingTablesReported | empire-db/src/main/java/org/apache/empire/db/validation/DBModelChecker.java:85-91 | unless a check throws, every declared table the database lacks is reported |
| ModelValidation.TablesAbortStops | empire-db/src/main/java/org/apache/empire/db/validation/DBModelChecker.java:85-91 | once a table check has thrown, later tables change nothing |
| ModelValidation.ModelChecker.constructor | empire-db/src/main/java/org/apache/empire/db/validation/DBModelChecker.java:47-48 | the checker starts with an empty table map and no relations |
| ModelValidation.ModelChecker.CollectTables | empire-db/src/main/java/org/apache/empire/db/validation/DBModelChecker.java:104-119 | the table map becomes that of the table-collection specification; the map invariant is kept |
| ModelValidation.ModelChecker.CollectColumns | empire-db/src/main/java/org/apache/empire/db/validation/DBModelChecker.java:121-136 | the table map becomes that of the column-collection specification; the map invariant is kept |
| ModelValidation.ModelChecker.CollectPrimaryKeys | empire-db/src/main/java/org/apache/empire/db/validation/DBModelChecker.java:138-160 | whatever order the tables are visited in, each table ends unchanged or with its collected key; all do unless a key column cannot be resolved, and an abort names such a table |
| ModelValidation.CollectTableKey | empire-db/src/main/java/org/apache/empire/db/validation/DBModelChecker.java:143-158 | the key rows of one table, then its resolved key columns, as the key specification gives them |
| ModelValidation.ModelChecker.CollectForeignKeys | empire-db/src/main/java/org/apache/empire/db/validation/DBModelChecker.java:163-202 | the relation list and the abort flag become those of the foreign-key collection specification; names stay unique |
| ModelValidation.ExtendReferences | empire-db/src/main/java/org/apache/empire/db/validation/DBModelChecker.java:191-197 | the new reference array holds the existing references in order, then the new one |
| ModelValidation.CheckColumns | empire-db/src/main/java/org/apache/empire/db/validation/DBModelChecker.java:221-230 | the column loop emits exactly the reports of the column specification |
| ModelValidation.ModelChecker.CheckTable | empire-db/src/main/java/org/apache/empire/db/validation/DBModelChecker.java:204-231 | the table check emits the table specification's reports: missing table, or key, foreign-key and column reports in that order, stopping at a throw |
| ModelValidation.ModelChecker.CheckView | empire-db/src/main/java/org/apache/empire/db/validation/DBModelChecker.java:317-337 | the corrected view check: a missing view reported by name, else the column reports |
| ModelValidation.ModelChecker.Collect | empire-db/src/main/java/org/apache/empire/db/validation/DBModelChecker.java:74-82 | collection throws exactly when the collection specification fails (an unresolvable key column or foreign-key column); otherwise the table map and relations are exactly the collected schema |
| ModelValidation.ModelChecker.CheckTables | empire-db/src/main/java/org/apache/empire/db/validation/DBModelChecker.java:85-91 | the table loop emits the tables' reports in order and stops at the first throw |
| ModelValidation.ModelChecker.CheckViews | empire-db/src/main/java/org/apache/empire/db/validation/DBModelChecker.java:93-96 | the view loop emits the views' reports in order |
| ModelValidation.ModelChecker.CheckAll | empire-db/src/main/java/org/apache/empire/db/validation/DBModelChecker.java:85-96 | tables first, then, unless one threw, the views |
| ModelValidation.ModelChecker.CheckModel | empire-db/src/main/java/org/apache/empire/db/validation/DBModelChecker.java:68-102 | the outcome is exactly the checkModel specification over the state before: no report when collection throws, otherwise the checks over the collected schema; the view reports come from the corrected check, which names a missing view where line 323 passes a null item |
| ObjectUtils.IsEmpty | empire-db/src/main/java/org/apache/empire/commons/ObjectUtils.java:81-89 | a value is empty exactly when it is null, NO_VALUE or the empty string |
| ObjectUtils.CompareEqual | empire-db/src/main/java/org/apache/empire/commons/ObjectUtils.java:100-146 | compareEqual: true for identical values; two empty values; values of one class by value, enums by ordinal; two numbers by long value; an enum against a number's intValue or its name; otherwise equal text; the lemmas after it prove its properties |
| ObjectUtils.CompareEqualIdentical | empire-db/src/main/java/org/apache/empire/commons/ObjectUtils.java:100-104 | identical values compare equal |
| ObjectUtils.EmptyValuesCompareEqual | empire-db/src/main/java/org/apache/empire/commons/ObjectUtils.java:100-109 | any two empty values compare equal |
| ObjectUtils.EmptyNeverEqualsNonEmpty | empire-db/src/main/java/org/apache/empire/commons/ObjectUtils.java:100-109 | an empty value never equals a value that is not empty, in either order |
| ObjectUtils.CompareEqualSymmetric | empire-db/src/main/java/org/apache/empire/commons/ObjectUtils.java:100-146 | the order of the arguments does not matter |
| ObjectUtils.EqualTextConvertsBack | empire-db/src/main/java/org/apache/empire/commons/ObjectUtils.java:100-146 | a string equal to an Integer is its decimal text, which converts back to the same number |
| ObjectUtils.ElementwiseEqualReflexiveSymmetric | empire-db/src/main/java/org/apache/empire/commons/ObjectUtils.java:156-169 | element-wise equality of arrays is reflexive and symmetric |
| ObjectUtils.CompareEqualArrays | empire-db/src/main/java/org/apache/empire/commons/ObjectUtils.java:156-169 | true exactly when the arrays, a null one counting as empty, have equal lengths and every pair of elements compares equal |
| ObjectUtils.Coalesce | empire-db/src/main/java/org/apache/empire/commons/ObjectUtils.java:178-181 | the preferred value when it is not null, the alternative otherwise; null only when both are |
| ObjectUtils.IntValue | empire-db/src/main/java/org/apache/empire/commons/ObjectUtils.java:188-197 | intValue: an Integer's value, a Long's low 32 bits as a signed int, so a Long in the int range is kept |
| ObjectUtils.ToInteger | empire-db/src/main/java/org/apache/empire/commons/ObjectUtils.java:188-197 | 0 for an empty value, an Integer's own value, and a NumberFormatException for a Boolean |
| ObjectUtils.GetInteger | empire-db/src/main/java/org/apache/empire/commons/ObjectUtils.java:207-221 | getInteger: the default for an empty value or when toInteger throws, toInteger's value otherwise; GetIntegerRoundTrip, GetIntegerOverflowDefaults and GetIntegerNarrowsLong prove its properties |
| ObjectUtils.GetIntegerOverflowDefaults | empire-db/src/main/java/org/apache/empire/commons/ObjectUtils.java:207-221 | the decimal text of a long outside the int range gives getInteger's default, because parseInt rejects it, while getLong reads it back |
| ObjectUtils.GetIntegerRoundTrip | empire-db/src/main/java/org/apache/empire/commons/ObjectUtils.java:207-221 | an int's decimal text and the Integer itself both read back as that int |
| ObjectUtils.GetIntegerNarrowsLong | empire-db/src/main/java/org/apache/empire/commons/ObjectUtils.java:188-197 | for every Long, getInteger gives a value with the same low 32 bits, the Long itself when it is in the int range, and 0 for 2^32 |
| ObjectUtils.LongValue | empire-db/src/main/java/org/apache/empire/commons/ObjectUtils.java:240-249 | longValue: the value of an Integer or a Long |
| ObjectUtils.ToLong | empire-db/src/main/java/org/apache/empire/commons/ObjectUtils.java:240-249 | 0 for an empty value, a number's long value, a NumberFormatException for a Boolean |
| ObjectUtils.GetLong | empire-db/src/main/java/org/apache/empire/commons/ObjectUtils.java:259-273 | getLong: the default for an empty value or when toLong throws, toLong's value otherwise; GetLongRoundTrip and GetIntegerOverflowDefaults prove its properties |
| ObjectUtils.GetLongRoundTrip | empire-db/src/main/java/org/apache/empire/commons/ObjectUtils.java:259-273 | a long's decimal text reads back as that long; an Integer reads as its value; the empty string gives the default |
| ObjectUtils.GetBoolean | empire-db/src/main/java/org/apache/empire/commons/ObjectUtils.java:410-422 | getBoolean: false when empty, a Boolean's own value, intValue not 0 for a number, the "Y"/"true" text test otherwise; the lemmas after it prove its properties |
| ObjectUtils.GetBooleanSpellings | empire-db/src/main/java/org/apache/empire/commons/ObjectUtils.java:420-421 | the texts read as true are exactly "y", "Y" and the sixteen case spellings of "true", character by character |
| ObjectUtils.GetBooleanOfText | empire-db/src/main/java/org/apache/empire/commons/ObjectUtils.java:410-422 | a non-empty text reads as true exactly when it is "Y" or "TRUE" once upper-cased |
| ObjectUtils.GetBooleanRoundTrip | empire-db/src/main/java/org/apache/empire/commons/ObjectUtils.java:410-422 | the text of a Boolean reads back as that Boolean |
| ObjectUtils.GetBooleanNarrowsLong | empire-db/src/main/java/org/apache/empire/commons/ObjectUtils.java:410-422 | a number is tested through intValue, so a Long of 2^32 reads as false |
| ObjectUtils.ToStringArray | empire-db/src/main/java/org/apache/empire/commons/ObjectUtils.java:628-641 | null for a null array; otherwise a new array of the same length holding each element's text, and the default where the element is null |
| ObjectUtils.Contains | empire-db/src/main/java/org/apache/empire/commons/ObjectUtils.java:652-664 | false for a null array; otherwise true exactly when some element is the item |
| ObjectUtils.PrimitiveWrapper | empire-db/src/main/java/org/apache/empire/commons/ObjectUtils.java:581-604 | a wrapper exactly for the eight primitives (not void, not classes), always a non-primitive class other than Object |
| ObjectUtils.PrimitiveWrapperInjective | empire-db/src/main/java/org/apache/empire/commons/ObjectUtils.java:581-604 | no two primitives share a wrapper |
| ObjectUtils.PrimitiveWrapperNumeric | empire-db/src/main/java/org/apache/empire/commons/ObjectUtils.java:581-604 | the wrappers of the six numeric primitives extend Number; those of boolean and char do not |
| ObjectUtils.IsAssignmentCompatible | empire-db/src/main/java/org/apache/empire/commons/ObjectUtils.java:542-579 | isAssignmentCompatible step by step: assignable, then again with a primitive source and target replaced by their wrappers (void gives up), then any two numeric classes, then Character into String; AssignmentCompatibleSpec gives its closed form |
| ObjectUtils.AssignmentCompatibleSpec | empire-db/src/main/java/org/apache/empire/commons/ObjectUtils.java:542-579 | compatible exactly when the classes are equal or, both boxed, assignable, both numeric, or Character into String |
| ObjectUtils.NumbersAndCharactersCompatible | empire-db/src/main/java/org/apache/empire/commons/ObjectUtils.java:542-579 | every numeric class or primitive accepts every other; char and Character go into String, but not the reverse; boolean does not go into Integer |
| OracleCommand.HintWithIndex | empire-db/src/main/java/org/apache/empire/db/oracle/DBCommandOracle.java:77-89 | setOptimizerIndexHint's new hint: the old hint, a space and the index hint when the old hint is not empty and lacks it, the index hint alone otherwise; HintWithIndexSpec proves this |
| OracleCommand.HintWithIndexSpec | empire-db/src/main/java/org/apache/empire/db/oracle/DBCommandOracle.java:77-89 | after adding an index hint the hint contains it; a non-empty hint lacking it is kept in front, followed by a space |
| OracleCommand.RepeatedIndexHintDropsOthers | empire-db/src/main/java/org/apache/empire/db/oracle/DBCommandOracle.java:85-88 | adding an index hint that is already present replaces the whole hint with it, dropping the hints set before |
| OracleCommand.CommandOracle.constructor | empire-db/src/main/java/org/apache/empire/db/oracle/DBCommandOracle.java:48-65 | a new command has no CONNECT BY, START WITH, hint or ROWNUM expression |
| OracleCommand.CommandOracle.SetOptimizerHint | empire-db/src/main/java/org/apache/empire/db/oracle/DBCommandOracle.java:72-75 | the hint becomes the given one, nothing else changes |
| OracleCommand.CommandOracle.SetOptimizerIndexHint | empire-db/src/main/java/org/apache/empire/db/oracle/DBCommandOracle.java:77-89 | a null index or one without a table is an InvalidArgumentException that leaves the hint; otherwise the hint becomes the index-hint combination |
| OracleCommand.CommandOracle.Clear | empire-db/src/main/java/org/apache/empire/db/oracle/DBCommandOracle.java:94-101 | every clause, CONNECT BY, START WITH and the hint are cleared, and the ROWNUM expression is dropped by clearLimit |
| OracleCommand.CommandOracle.ClearConnectBy | empire-db/src/main/java/org/apache/empire/db/oracle/DBCommandOracle.java:106-109 | CONNECT BY and START WITH are cleared and nothing else changes |
| OracleCommand.CommandOracle.ConnectByPrior | empire-db/src/main/java/org/apache/empire/db/oracle/DBCommandOracle.java:111-114 | CONNECT BY becomes the given expression, nothing else changes |
| OracleCommand.CommandOracle.StartWith | empire-db/src/main/java/org/apache/empire/db/oracle/DBCommandOracle.java:116-119 | START WITH becomes the given expression, nothing else changes |
| OracleCommand.CommandOracle.LimitRows | empire-db/src/main/java/org/apache/empire/db/oracle/DBCommandOracle.java:121-128 | the ROWNUM expression is created only when there is none and reused otherwise; the limit replaces any earlier one in the where clause; at most one ROWNUM constraint is kept |
| OracleCommand.CommandOracle.ClearLimit | empire-db/src/main/java/org/apache/empire/db/oracle/DBCommandOracle.java:130-137 | the ROWNUM constraint is removed when there was an expression, and the expression is dropped |
| OracleCommand.WithRowNum | empire-db/src/main/java/org/apache/empire/db/oracle/DBCommandOracle.java:121-128 | the where list after limitRows: the first ROWNUM constraint is replaced in place by the new limit, or the limit is appended; WithRowNumSpec proves this |
| OracleCommand.WithoutRowNum | empire-db/src/main/java/org/apache/empire/db/oracle/DBCommandOracle.java:130-137 | the where list after clearLimit: every ROWNUM constraint is removed, in order otherwise; WithoutRowNumSpec proves this |
| OracleCommand.WithRowNumSpec | empire-db/src/main/java/org/apache/empire/db/oracle/DBCommandOracle.java:121-128 | after a limit the where list holds exactly one ROWNUM constraint, with the new limit |
| OracleCommand.WithoutRowNumSpec | empire-db/src/main/java/org/apache/empire/db/oracle/DBCommandOracle.java:130-137 | clearing the limit removes every ROWNUM constraint and keeps every other constraint |
| OracleCommand.LimitThenClear | empire-db/src/main/java/org/apache/empire/db/oracle/DBCommandOracle.java:121-137 | setting a limit and clearing it leaves the other constraints as they were |
| OracleCommand.SelectStatement | empire-db/src/main/java/org/apache/empire/db/oracle/DBCommandOracle.java:145-189 | getSelect: ObjectNotValidException without a select list; otherwise SELECT, the hint comment when not empty, DISTINCT, the select list, the opaque FROM and WHERE text, the CONNECT BY part, the opaque grouping and the ORDER part, in that order; the Select lemmas prove its properties |
| OracleCommand.SelectSpec | empire-db/src/main/java/org/apache/empire/db/oracle/DBCommandOracle.java:146-152 | SELECT fails with ObjectNotValidException exactly when there is no select list; otherwise its text starts with "SELECT " |
| OracleCommand.SelectHeadHint | empire-db/src/main/java/org/apache/empire/db/oracle/DBCommandOracle.java:152-158 | the head of a SELECT holds the hint exactly when it is not empty, in its comment right after SELECT, DISTINCT last |
| OracleCommand.SelectHint | empire-db/src/main/java/org/apache/empire/db/oracle/DBCommandOracle.java:152-158 | the only hint text in a SELECT is the hint, present exactly when not empty, as "/*+ hint */ " right after SELECT and before DISTINCT |
| OracleCommand.ConnectByKeywords | empire-db/src/main/java/org/apache/empire/db/oracle/DBCommandOracle.java:166-176 | the CONNECT BY part holds no hint and no ORDER keyword; CONNECT BY PRIOR exactly when connectBy is set, START WITH exactly when startWith is set as well |
| OracleCommand.OrderByKeywords | empire-db/src/main/java/org/apache/empire/db/oracle/DBCommandOracle.java:179-188 | the ORDER part holds no hint and no CONNECT keyword; ORDER SIBLINGS BY exactly with connectBy and an order list, ORDER BY exactly with an order list and no connectBy |
| OracleCommand.SelectClauseKeyword | empire-db/src/main/java/org/apache/empire/db/oracle/DBCommandOracle.java:145-188 | a clause keyword is in a SELECT exactly when it is in its CONNECT BY part or its ORDER part; the head and the select list never hold one |
| OracleCommand.SelectClauses | empire-db/src/main/java/org/apache/empire/db/oracle/DBCommandOracle.java:166-188 | CONNECT BY PRIOR exactly with connectBy; START WITH exactly with connectBy and startWith; ORDER SIBLINGS BY exactly with connectBy and an order list; ORDER BY exactly with an order list and no connectBy |
| OracleCommand.CommandOracle.GetSelect | empire-db/src/main/java/org/apache/empire/db/oracle/DBCommandOracle.java:145-189 | the appended pieces are those of the SELECT specification |
| OracleCommand.UpdateOf | empire-db/src/main/java/org/apache/empire/db/oracle/DBCommandOracle.java:195-203 | getUpdate: the simple form without joins or without SET clauses, otherwise the merge through the first join on the updated table; UpdateSelection proves this |
| OracleCommand.SimpleUpdate | empire-db/src/main/java/org/apache/empire/db/oracle/DBCommandOracle.java:205-232 | the simple UPDATE: no statement without SET clauses, IndexOutOfBoundsException for an empty list, else UPDATE, the hint comment, the table of the first SET expression, the SET list and the WHERE text; SimpleUpdateSpec proves this |
| OracleCommand.UpdateSelection | empire-db/src/main/java/org/apache/empire/db/oracle/DBCommandOracle.java:195-252 | no SET clause gives no statement; an empty SET list is an IndexOutOfBoundsException; without joins the simple form; with joins a merge through a join on the updated table, or ObjectNotValidException when no join touches it |
| OracleCommand.UpdateHeadSpec | empire-db/src/main/java/org/apache/empire/db/oracle/DBCommandOracle.java:207-221 | UPDATE, the hint exactly when not empty, then the table, with its alias exactly when the hint mentions it |
| OracleCommand.SimpleUpdateSpec | empire-db/src/main/java/org/apache/empire/db/oracle/DBCommandOracle.java:205-232 | a simple UPDATE starts with "UPDATE ", its only hint text is the hint, present exactly when not empty, and its table carries the alias exactly when the hint mentions it |
| OracleCommand.FirstJoinOn | empire-db/src/main/java/org/apache/empire/db/oracle/DBCommandOracle.java:242-250 | the join found touches the table; none is found only when no join does |
| OracleCommand.CommandOracle.GetUpdate | empire-db/src/main/java/org/apache/empire/db/oracle/DBCommandOracle.java:195-203 | the statement is that of the UPDATE specification |
| OracleCommand.CommandOracle.GetSimpleUpdate | empire-db/src/main/java/org/apache/empire/db/oracle/DBCommandOracle.java:205-232 | the appended pieces are those of the simple UPDATE specification |
| OracleCommand.CommandOracle.GetUpdateWithJoins | empire-db/src/main/java/org/apache/empire/db/oracle/DBCommandOracle.java:234-252 | the join loop finds the first join on the table, or throws ObjectNotValidException |
| OracleCommand.DeleteStatement | empire-db/src/main/java/org/apache/empire/db/oracle/DBCommandOracle.java:303-322 | getDelete: the DELETE head with hint and table, then the WHERE part; DeleteSpec and DeleteText prove its properties |
| OracleCommand.DeleteWhereSpec | empire-db/src/main/java/org/apache/empire/db/oracle/DBCommandOracle.java:315-320 | the WHERE part holds no hint, has WHERE exactly when where or having is set, and holds no SQL but the where constraints' |
| OracleCommand.DeleteWhereRender | empire-db/src/main/java/org/apache/empire/db/oracle/DBCommandOracle.java:315-320 | with a where clause the WHERE part renders as WHERE followed by the constraints joined by " AND " |
| OracleCommand.DeleteSpec | empire-db/src/main/java/org/apache/empire/db/oracle/DBCommandOracle.java:303-322 | a DELETE carries the hint whenever one is set, even empty; WHERE exactly when where or having is set; no SQL but the table's and the where constraints' |
| OracleCommand.DeleteText | empire-db/src/main/java/org/apache/empire/db/oracle/DBCommandOracle.java:303-322 | the text starts with "DELETE " and, with a where clause, ends with WHERE and the constraints joined by " AND " |
| OracleCommand.CommandOracle.GetDelete | empire-db/src/main/java/org/apache/empire/db/oracle/DBCommandOracle.java:303-322 | the appended pieces are those of the DELETE specification |

## Left out

- JDBC is not modelled: `DatabaseMetaData`, `ResultSet`, `Connection`, and the `SQLException` handling of `checkModel`. The metadata is given as sequences of rows, and the schema name is not modelled.
- Logging (slf4j) is not modelled. This includes the warning for a skipped foreign-key reference.
- Error-handler calls are modelled as a sequence of reports. The handler interface is not modelled.
- HashMap iteration order is not modelled. `collectPrimaryKeys` visits the tables in any order the model chooses, and its contract holds for every order.
- The unseen classes DBDatabase, DBTable, DBColumn, DBRelation, DBIndex, DBCommand, the expression classes, StringUtils and DataType are not part of this model. Where the code depends on them, the model assumes the following:
  - `getTable` looks a table up by its upper-cased key;
  - `getColumn` matches names ignoring case;
  - `getRelation` matches names exactly;
  - a table's foreign-key relations are those whose first reference starts in it;
  - a column's full name is its row set's name, a dot, and its name;
  - `isNotEmpty` means non-null and non-empty;
  - `DBCommand.clear` clears every clause and calls the overridable `clearLimit`, so the Oracle override drops the ROWNUM expression;
  - `where()` replaces an existing constraint on the same expression in place, and otherwise appends;
  - `isJoinOn` means the join touches the table, with tables compared by full name.
- ModelTypes.RemoteColumn: the size is the integer COLUMN_SIZE and the scale is DECIMAL_DIGITS. The source instead encodes both in a `double` built by `Double.parseDouble` (floating point). The INTEGER fallback for a DECIMAL or FLOAT column smaller than 1, and the TIMESTAMP / "CURRENT_TIMESTAMP" exception to "required", are kept in the body. The contract states only name, size, AUTOINC and one direction of "required".
- The IS_AUTOINCREMENT and TYPE_NAME "identity" detection is given as an `autoIncrement` flag on the metadata row. Regular expressions are not modelled.
- A key or foreign-key column that cannot be resolved while collecting makes the model abort the collection (`aborted`). `checkModel` then returns no report at all. The source often goes on instead, so in those cases the model loses every report the source would still emit:
  - `collectPrimaryKeys` (DBModelChecker.java:151-157) stores a null column and hands the key to the unseen `DBTable.setPrimaryKey`, which may or may not dereference it. If it does not, the null is reached only when `checkPrimaryKey` compares that column. That may never happen: a declared table without a key returns at 235-238, the inner loop stops at its first match at 253-259, and a database table that no declared table names is never checked.
  - In `collectForeignKeys`, a missing table throws at once at 177-178. So does a missing source column of a new relation (`c1.referenceOn` at 183). A missing target column, or a missing source column of an existing relation (193), is stored as null and the loop goes on.
- In `checkForeignKeys`, a target table without a primary key throws a NullPointerException. The model records this as `aborted`, which ends the checks.
- ColumnChecks.GenericChecks and ColumnChecks.ColumnReports state only a bound on the number of reports. The lemmas after them state which reports arise and when.
- ObjectUtils: the following are not modelled:
  - `toDouble`, `getDouble`, `toDecimal`, `getDecimal` and the `doubleValue` comparison of numbers (floating point and BigDecimal); between an Integer and a Long that comparison is exact, and the model compares the values directly;
  - `getDate` and `formatDate`;
  - the reflection-based `convert`.
  
  The values are a closed datatype, so Comparable, equals and toString are those of String, Integer, Long, Boolean and one enum type. Object identity is value equality.
- Case folding and digits are ASCII only. Java's Unicode `toUpperCase` and `Character.digit` are not modelled.
- ObjectUtils.IsAssignmentCompatible: interfaces are not part of the class universe.
- OracleCommand.CommandOracle.GetUpdateWithJoins: the MERGE text is not built. The result is the updated table and the chosen join; the clone-and-rewrite of the inner command is not modelled.
- The SQL of expression objects (`addFrom`, `addWhere`, `addGrouping`, `addSQL`, the items of `addListExpr`) is opaque text. Two stand-ins are used: a table written with its alias is "name alias", and the ROWNUM limit renders as `rownum<=n`.
- `synchronized` and `resetParamUsage` are not modelled, and neither is the HTML link control of the Struts extension.

## Findings

| source | as written | input that shows it | evidently intended | confidence | as-written member | corrected member |
|---|---|---|---|---|---|---|
| empire-db/src/main/java/org/apache/empire/db/validation/DBModelChecker.java:321-325 | when a view is missing from the database, `checkView` calls `itemNotFound(remoteView)` with `remoteView`, which is null at that point | a declared view V with no table-map entry for "V": the handler receives a null item and cannot tell which view is missing | report the declared view, `itemNotFound(view)`, as `checkTable` does for tables | not executed | ModelValidation.MissingViewUnnamedAsWritten | ModelValidation.MissingViewNamed |
