/**
 * DBCommandOracle: a command with Oracle's CONNECT BY PRIOR / START WITH clauses, an
 * optimizer hint and a ROWNUM row limit, and the SELECT, UPDATE and DELETE text it
 * builds. The clauses inherited from DBCommand are held as one value; the SQL of
 * expression objects is opaque text.
 */
module OracleCommand {
  import opened Wrappers
  import opened JavaText
  import opened SqlText

  /** The exceptions the command throws. */
  datatype CommandError = InvalidArgument | ObjectNotValid | IndexOutOfBounds

  /** A where constraint: opaque SQL, or the ROWNUM limit that limitRows adds. */
  datatype Constraint = Condition(sql: string) | RowNumAtMost(limit: int)

  /** The table an UPDATE writes to: its full name and its alias. */
  datatype UpdateTable = UpdateTable(fullName: string, alias: string)

  /** A SET expression: the table of its column, and its SQL. */
  datatype SetExpr = SetExpr(table: UpdateTable, sql: string)

  /** A join: the full names of the two tables it joins, and its SQL. */
  datatype JoinExpr = JoinExpr(leftTable: string, rightTable: string, sql: string)

  /** An index: its name and the alias of its table (None: the index has no table). */
  datatype Index = Index(name: string, tableAlias: Option<string>)

  /** The clauses DBCommand holds; None is a clause never set. */
  datatype Clauses = Clauses(
    select: Option<seq<string>>,
    selectDistinct: bool,
    joins: Option<seq<JoinExpr>>,
    where: Option<seq<Constraint>>,
    having: Option<seq<string>>,
    orderBy: Option<seq<string>>,
    sets: Option<seq<SetExpr>>)

  /** StringUtils.isNotEmpty: present and not the empty string. */
  predicate IsNotEmpty(s: Option<string>) {
    s.Some? && s.value != ""
  }

  // ---------------------------------------------------------------- optimizer hint

  /** The hint text for an index: INDEX (alias name). */
  function IndexHint(alias: string, indexName: string): string {
    "INDEX (" + alias + " " + indexName + ")"
  }

  /**
   * setOptimizerIndexHint: the index hint is appended after a space to a non-empty
   * hint that lacks it; otherwise it becomes the whole hint.
   */
  function HintWithIndex(hint: Option<string>, indexHint: string): string {
    if IsNotEmpty(hint) && !ContainsSubstring(hint.value, indexHint) then hint.value + " " + indexHint
    else indexHint
  }

  /**
   * After setOptimizerIndexHint the hint always holds the index hint; a non-empty hint
   * lacking it is kept in front.
   */
  lemma HintWithIndexSpec(hint: Option<string>, indexHint: string)
    ensures ContainsSubstring(HintWithIndex(hint, indexHint), indexHint)
    ensures IsNotEmpty(hint) && !ContainsSubstring(hint.value, indexHint)
      ==> HintWithIndex(hint, indexHint)[..|hint.value| + 1] == hint.value + " "
  {
    if IsNotEmpty(hint) && !ContainsSubstring(hint.value, indexHint) {
      ContainsSuffix(hint.value + " ", indexHint);
      assert hint.value + " " + indexHint == (hint.value + " ") + indexHint;
    } else {
      ContainsItself(indexHint);
    }
  }

  /**
   * Setting an index hint that is already there replaces the whole hint by it: any
   * other hints set before are dropped.
   */
  lemma RepeatedIndexHintDropsOthers(other: string, indexHint: string)
    requires other != "" && indexHint != ""
    ensures var once := HintWithIndex(Some(other), indexHint);
      (!ContainsSubstring(other, indexHint) ==> once == other + " " + indexHint)
      && HintWithIndex(Some(once), indexHint) == indexHint
  {
    var once := HintWithIndex(Some(other), indexHint);
    HintWithIndexSpec(Some(other), indexHint);
  }

  // ---------------------------------------------------------------- row limit

  predicate IsRowNum(c: Constraint) {
    c.RowNumAtMost?
  }

  /** How many ROWNUM constraints a where list holds. */
  function RowNumCount(w: seq<Constraint>): nat {
    if w == [] then 0 else (if IsRowNum(w[0]) then 1 else 0) + RowNumCount(w[1..])
  }

  /** The where list after limitRows: the ROWNUM constraint replaced in place, or appended. */
  function WithRowNum(w: seq<Constraint>, n: int): seq<Constraint> {
    if w == [] then [RowNumAtMost(n)]
    else if IsRowNum(w[0]) then [RowNumAtMost(n)] + w[1..]
    else [w[0]] + WithRowNum(w[1..], n)
  }

  /** The where list after clearLimit: the ROWNUM constraints removed. */
  function WithoutRowNum(w: seq<Constraint>): seq<Constraint> {
    if w == [] then []
    else (if IsRowNum(w[0]) then [] else [w[0]]) + WithoutRowNum(w[1..])
  }

  /** limitRows leaves exactly one ROWNUM constraint, with the new limit. */
  lemma {:induction false} WithRowNumSpec(w: seq<Constraint>, n: int)
    requires RowNumCount(w) <= 1
    ensures RowNumCount(WithRowNum(w, n)) == 1 && RowNumAtMost(n) in WithRowNum(w, n)
  {
    if w != [] {
      if IsRowNum(w[0]) {
        assert ([RowNumAtMost(n)] + w[1..])[1..] == w[1..];
      } else {
        WithRowNumSpec(w[1..], n);
        assert ([w[0]] + WithRowNum(w[1..], n))[1..] == WithRowNum(w[1..], n);
      }
    }
  }

  /** clearLimit removes every ROWNUM constraint and keeps every other one, in order. */
  lemma {:induction false} WithoutRowNumSpec(w: seq<Constraint>)
    ensures RowNumCount(WithoutRowNum(w)) == 0
    ensures forall c :: c in WithoutRowNum(w) <==> c in w && !IsRowNum(c)
  {
    if w != [] {
      WithoutRowNumSpec(w[1..]);
      var rest := WithoutRowNum(w[1..]);
      if !IsRowNum(w[0]) {
        assert ([w[0]] + rest)[1..] == rest;
      } else {
        assert [] + rest == rest;
      }
      assert w == [w[0]] + w[1..];
    }
  }

  /** limitRows then clearLimit gives back the other constraints unchanged. */
  lemma {:induction false} LimitThenClear(w: seq<Constraint>, n: int)
    ensures WithoutRowNum(WithRowNum(w, n)) == WithoutRowNum(w)
  {
    if w != [] {
      if IsRowNum(w[0]) {
        assert ([RowNumAtMost(n)] + w[1..])[1..] == w[1..];
      } else {
        LimitThenClear(w[1..], n);
        assert ([w[0]] + WithRowNum(w[1..], n))[1..] == WithRowNum(w[1..], n);
      }
    }
  }

  /** The constraints of a where clause that may be null. */
  function WhereItems(w: Option<seq<Constraint>>): seq<Constraint> {
    if w.Some? then w.value else []
  }

  // ---------------------------------------------------------------- statements

  /** The optimizer-hint comment: /*+ hint */ */
  function HintComment(hint: string): seq<Fragment> {
    [Keyword("/*+ "), HintText(hint), Keyword(" */ ")]
  }

  /** The SQL of a where constraint; the ROWNUM limit as rownum<=n. */
  function ConstraintSql(c: Constraint): string {
    match c
    case Condition(sql) => sql
    case RowNumAtMost(n) => "rownum<=" + DecimalString(n)
  }

  function ConstraintsSql(w: seq<Constraint>): (r: seq<string>)
    ensures |r| == |w| && forall i :: 0 <= i < |w| ==> r[i] == ConstraintSql(w[i])
  {
    seq(|w|, i requires 0 <= i < |w| => ConstraintSql(w[i]))
  }

  function SetSql(sets: seq<SetExpr>): (r: seq<string>)
    ensures |r| == |sets| && forall i :: 0 <= i < |sets| ==> r[i] == sets[i].sql
  {
    seq(|sets|, i requires 0 <= i < |sets| => sets[i].sql)
  }

  /** A list of SQL items holds no hint and no keyword but its separator. */
  lemma SqlListNoKeyword(items: seq<string>, sep: string, k: string)
    requires k != sep
    ensures forall h :: HintText(h) !in SqlList(items, sep)
    ensures Keyword(k) !in SqlList(items, sep)
  {
    SqlListParts(items, sep);
  }

  /** SELECT, the hint comment when the hint is not empty, and DISTINCT. */
  function SelectHead(distinct: bool, hint: Option<string>): seq<Fragment> {
    [Keyword("SELECT ")]
    + (if IsNotEmpty(hint) then HintComment(hint.value) else [])
    + (if distinct then [Keyword("DISTINCT ")] else [])
  }

  /** The select list, then the FROM and WHERE text. */
  function SelectListPart(select: seq<string>, fromSql: string, whereSql: string): seq<Fragment> {
    SqlList(select, ", ") + [Sql(fromSql), Sql(whereSql)]
  }

  /** CONNECT BY PRIOR, and START WITH within it. */
  function ConnectByPart(connectBy: Option<string>, startWith: Option<string>): seq<Fragment> {
    if connectBy.None? then []
    else [Keyword("\r\nCONNECT BY PRIOR "), Sql(connectBy.value)]
         + (if startWith.Some? then [Keyword("\r\nSTART WITH "), Sql(startWith.value)] else [])
  }

  /** ORDER SIBLINGS BY under CONNECT BY, else ORDER BY, and the order list. */
  function OrderByPart(orderBy: Option<seq<string>>, connectBy: Option<string>): seq<Fragment> {
    if orderBy.None? then []
    else [Keyword(if connectBy.Some? then "\r\nORDER SIBLINGS BY " else "\r\nORDER BY ")]
         + SqlList(orderBy.value, ", ")
  }

  /**
   * getSelect: no select list is an ObjectNotValidException; otherwise SELECT, the hint
   * comment when the hint is not empty, DISTINCT, the select list, FROM and WHERE (opaque),
   * CONNECT BY PRIOR and START WITH, the grouping (opaque), and ORDER SIBLINGS BY under
   * CONNECT BY, else ORDER BY.
   */
  function SelectStatement(
    c: Clauses, connectBy: Option<string>, startWith: Option<string>, hint: Option<string>,
    fromSql: string, whereSql: string, groupingSql: string): Result<seq<Fragment>, CommandError>
  {
    if c.select.None? then Err(ObjectNotValid)
    else
      Ok(SelectHead(c.selectDistinct, hint) + SelectRest(c.select.value, c.orderBy, connectBy, startWith, fromSql, whereSql, groupingSql))
  }

  /** Everything after the head of a SELECT, from the select list to ORDER BY. */
  function SelectRest(
    select: seq<string>, orderBy: Option<seq<string>>, connectBy: Option<string>, startWith: Option<string>,
    fromSql: string, whereSql: string, groupingSql: string): seq<Fragment>
  {
    SelectListPart(select, fromSql, whereSql) + ConnectByPart(connectBy, startWith)
    + [Sql(groupingSql)] + OrderByPart(orderBy, connectBy)
  }

  /** An UPDATE: none (no SET clause), its text, or a MERGE INTO the table with the join. */
  datatype UpdateStatement = NoStatement | Statement(frags: seq<Fragment>) | Merge(target: UpdateTable, join: JoinExpr)

  /** The table written with its full name, then its alias when `withAlias`. */
  function TableSql(table: UpdateTable, withAlias: bool): string {
    if withAlias then table.fullName + " " + table.alias else table.fullName
  }

  /** UPDATE, the hint comment when the hint is not empty, and the table. */
  function UpdateHead(table: UpdateTable, hint: Option<string>): seq<Fragment> {
    [Keyword("UPDATE ")]
    + (if IsNotEmpty(hint) then HintComment(hint.value) else [])
    + [Sql(TableSql(table, IsNotEmpty(hint) && ContainsSubstring(hint.value, table.alias)))]
  }

  /**
   * getSimpleUpdate: no SET clause gives no statement; the table is that of the first
   * SET expression (none: IndexOutOfBounds); the hint comment when the hint is not
   * empty, and the alias when the hint mentions it.
   */
  function SimpleUpdate(c: Clauses, hint: Option<string>, whereSql: string): Result<UpdateStatement, CommandError>
  {
    if c.sets.None? then Ok(NoStatement)
    else if c.sets.value == [] then Err(IndexOutOfBounds)
    else
      Ok(Statement(UpdateHead(c.sets.value[0].table, hint) + UpdateRest(c.sets.value, whereSql)))
  }

  /** SET, the SET expressions separated by commas, and the WHERE text. */
  function UpdateRest(sets: seq<SetExpr>, whereSql: string): seq<Fragment> {
    [Keyword("\r\nSET ")] + SqlList(SetSql(sets), ", ") + [Sql(whereSql)]
  }

  /** DBJoinExpr.isJoinOn: the join touches the table. */
  predicate JoinOn(j: JoinExpr, table: UpdateTable) {
    j.leftTable == table.fullName || j.rightTable == table.fullName
  }

  /** The first join on the table. */
  function FirstJoinOn(joins: seq<JoinExpr>, table: UpdateTable): (r: Option<JoinExpr>)
    ensures r.Some? ==> r.value in joins && JoinOn(r.value, table)
    ensures r.None? ==> forall j :: j in joins ==> !JoinOn(j, table)
  {
    if joins == [] then None
    else if JoinOn(joins[0], table) then Some(joins[0])
    else FirstJoinOn(joins[1..], table)
  }

  /**
   * getUpdateWithJoins up to its statement text: the table of the first SET expression,
   * merged through the first join on it; no such join is an ObjectNotValidException.
   */
  function UpdateWithJoins(sets: seq<SetExpr>, joins: seq<JoinExpr>): Result<UpdateStatement, CommandError>
  {
    if sets == [] then Err(IndexOutOfBounds)
    else match FirstJoinOn(joins, sets[0].table)
      case None => Err(ObjectNotValid)
      case Some(j) => Ok(Merge(sets[0].table, j))
  }

  /** getUpdate: the simple form without joins or without a SET clause, else the merge. */
  function UpdateOf(c: Clauses, hint: Option<string>, whereSql: string): Result<UpdateStatement, CommandError>
  {
    if c.joins.None? || c.sets.None? then SimpleUpdate(c, hint, whereSql)
    else UpdateWithJoins(c.sets.value, c.joins.value)
  }

  /** DELETE, the hint comment whenever a hint is set, FROM and the table. */
  function DeleteHead(hint: Option<string>, tableSql: string): seq<Fragment> {
    [Keyword("DELETE ")]
    + (if hint.Some? then HintComment(hint.value) else [])
    + [Keyword("FROM "), Sql(tableSql)]
  }

  /** WHERE when a where or having clause is set, then the where constraints joined by AND. */
  function DeleteWhere(where: Option<seq<Constraint>>, having: Option<seq<string>>): seq<Fragment> {
    if where.Some? || having.Some? then
      [Keyword("\r\nWHERE ")] + (if where.Some? then SqlList(ConstraintsSql(where.value), " AND ") else [])
    else []
  }

  /**
   * getDelete: DELETE, the hint comment whenever a hint is set (even empty), FROM and the
   * table, then WHERE when a where or having clause is set, followed by the where
   * constraints joined by AND.
   */
  function DeleteStatement(c: Clauses, hint: Option<string>, tableSql: string): seq<Fragment>
  {
    DeleteHead(hint, tableSql) + DeleteWhere(c.where, c.having)
  }

  // ---------------------------------------------------------------- statement properties

  /** A SELECT is built exactly when there is a select list, and its text starts with SELECT. */
  lemma SelectSpec(
    c: Clauses, connectBy: Option<string>, startWith: Option<string>, hint: Option<string>,
    fromSql: string, whereSql: string, groupingSql: string)
    ensures var r := SelectStatement(c, connectBy, startWith, hint, fromSql, whereSql, groupingSql);
      && (r.Err? <==> c.select.None?)
      && (r.Err? ==> r.error == ObjectNotValid)
      && (r.Ok? ==> |Render(r.value)| >= 7 && Render(r.value)[..7] == "SELECT ")
  {
    if c.select.Some? {
      var head := SelectHead(c.selectDistinct, hint);
      var f := SelectStatement(c, connectBy, startWith, hint, fromSql, whereSql, groupingSql).value;
      assert f[0] == head[0];
      RenderStartsWith(f, "SELECT ");
    }
  }

  /** The head holds the hint exactly when it is not empty, in its comment right after SELECT. */
  lemma SelectHeadHint(distinct: bool, hint: Option<string>)
    ensures var head := SelectHead(distinct, hint);
      && (forall h :: HintText(h) in head <==> IsNotEmpty(hint) && h == hint.value)
      && (IsNotEmpty(hint) ==> |head| >= 4 && head[1..4] == HintComment(hint.value))
      && (distinct ==> |head| >= 2 && head[|head| - 1] == Keyword("DISTINCT "))
      && |head| == 1 + (if IsNotEmpty(hint) then 3 else 0) + (if distinct then 1 else 0)
  {
    var head := SelectHead(distinct, hint);
    if IsNotEmpty(hint) {
      var h := hint.value;
      if distinct {
        assert head == [Keyword("SELECT "), Keyword("/*+ "), HintText(h), Keyword(" */ "), Keyword("DISTINCT ")];
      } else {
        assert head == [Keyword("SELECT "), Keyword("/*+ "), HintText(h), Keyword(" */ ")];
      }
    }
  }

  /** The select list, FROM and WHERE hold no hint and no clause keyword. */
  lemma SelectListPartNoKeyword(select: seq<string>, fromSql: string, whereSql: string, k: string)
    requires k != ", "
    ensures forall h :: HintText(h) !in SelectListPart(select, fromSql, whereSql)
    ensures Keyword(k) !in SelectListPart(select, fromSql, whereSql)
  {
    SqlListNoKeyword(select, ", ", k);
  }

  /** The CONNECT BY part: its two keywords, each exactly when its expression is set. */
  lemma ConnectByKeywords(connectBy: Option<string>, startWith: Option<string>)
    ensures forall h :: HintText(h) !in ConnectByPart(connectBy, startWith)
    ensures Keyword("\r\nCONNECT BY PRIOR ") in ConnectByPart(connectBy, startWith) <==> connectBy.Some?
    ensures Keyword("\r\nSTART WITH ") in ConnectByPart(connectBy, startWith)
      <==> connectBy.Some? && startWith.Some?
    ensures Keyword("\r\nORDER SIBLINGS BY ") !in ConnectByPart(connectBy, startWith)
    ensures Keyword("\r\nORDER BY ") !in ConnectByPart(connectBy, startWith)
  {
  }

  /** The ORDER BY part: ORDER SIBLINGS BY under CONNECT BY, else ORDER BY. */
  lemma OrderByKeywords(orderBy: Option<seq<string>>, connectBy: Option<string>)
    ensures forall h :: HintText(h) !in OrderByPart(orderBy, connectBy)
    ensures Keyword("\r\nCONNECT BY PRIOR ") !in OrderByPart(orderBy, connectBy)
    ensures Keyword("\r\nSTART WITH ") !in OrderByPart(orderBy, connectBy)
    ensures Keyword("\r\nORDER SIBLINGS BY ") in OrderByPart(orderBy, connectBy)
      <==> connectBy.Some? && orderBy.Some?
    ensures Keyword("\r\nORDER BY ") in OrderByPart(orderBy, connectBy)
      <==> connectBy.None? && orderBy.Some?
  {
    if orderBy.Some? {
      var list := SqlList(orderBy.value, ", ");
      assert OrderByPart(orderBy, connectBy)
        == [Keyword(if connectBy.Some? then "\r\nORDER SIBLINGS BY " else "\r\nORDER BY ")] + list;
      SqlListNoKeyword(orderBy.value, ", ", "\r\nCONNECT BY PRIOR ");
      SqlListNoKeyword(orderBy.value, ", ", "\r\nSTART WITH ");
      SqlListNoKeyword(orderBy.value, ", ", "\r\nORDER SIBLINGS BY ");
      SqlListNoKeyword(orderBy.value, ", ", "\r\nORDER BY ");
    }
  }

  /** Everything after the head of a SELECT holds no hint. */
  lemma SelectRestNoHint(
    c: Clauses, connectBy: Option<string>, startWith: Option<string>,
    fromSql: string, whereSql: string, groupingSql: string, h: string)
    requires c.select.Some?
    ensures HintText(h) !in SelectRest(c.select.value, c.orderBy, connectBy, startWith, fromSql, whereSql, groupingSql)
  {
    SelectListPartNoKeyword(c.select.value, fromSql, whereSql, "");
    ConnectByKeywords(connectBy, startWith);
    OrderByKeywords(c.orderBy, connectBy);
  }

  /**
   * In a SELECT the hint comment appears exactly when the hint is not empty, right
   * after SELECT and so before DISTINCT, and it is the only hint text.
   */
  lemma SelectHint(
    c: Clauses, connectBy: Option<string>, startWith: Option<string>, hint: Option<string>,
    fromSql: string, whereSql: string, groupingSql: string)
    requires c.select.Some?
    ensures var f := SelectStatement(c, connectBy, startWith, hint, fromSql, whereSql, groupingSql).value;
      && (forall h :: HintText(h) in f <==> IsNotEmpty(hint) && h == hint.value)
      && (IsNotEmpty(hint) ==> f[1..4] == HintComment(hint.value))
      && (c.selectDistinct ==> f[if IsNotEmpty(hint) then 4 else 1] == Keyword("DISTINCT "))
  {
    var f := SelectStatement(c, connectBy, startWith, hint, fromSql, whereSql, groupingSql).value;
    var head := SelectHead(c.selectDistinct, hint);
    var rest := SelectRest(c.select.value, c.orderBy, connectBy, startWith, fromSql, whereSql, groupingSql);
    SelectHeadHint(c.selectDistinct, hint);
    forall h
      ensures HintText(h) in f <==> IsNotEmpty(hint) && h == hint.value
    {
      SelectRestNoHint(c, connectBy, startWith, fromSql, whereSql, groupingSql, h);
    }
    if IsNotEmpty(hint) {
      AppendSlice(head, rest, 1, 4);
    }
  }

  /** The clause keywords of a SELECT: none in the head or in a list. */
  predicate ClauseKeyword(k: string) {
    k in {"\r\nCONNECT BY PRIOR ", "\r\nSTART WITH ", "\r\nORDER SIBLINGS BY ", "\r\nORDER BY "}
  }

  /** The head of a SELECT holds no clause keyword. */
  lemma HeadNoClauseKeyword(distinct: bool, hint: Option<string>, k: string)
    requires ClauseKeyword(k)
    ensures Keyword(k) !in SelectHead(distinct, hint)
  {
    SelectHeadHint(distinct, hint);
  }

  /** A clause keyword is in a SELECT exactly when it is in its CONNECT BY or ORDER BY part. */
  lemma SelectClauseKeyword(
    c: Clauses, connectBy: Option<string>, startWith: Option<string>, hint: Option<string>,
    fromSql: string, whereSql: string, groupingSql: string, k: string)
    requires c.select.Some? && ClauseKeyword(k)
    ensures var f := SelectStatement(c, connectBy, startWith, hint, fromSql, whereSql, groupingSql).value;
      Keyword(k) in f <==> Keyword(k) in ConnectByPart(connectBy, startWith) || Keyword(k) in OrderByPart(c.orderBy, connectBy)
  {
    var head := SelectHead(c.selectDistinct, hint);
    SelectListPartNoKeyword(c.select.value, fromSql, whereSql, k);
    HeadNoClauseKeyword(c.selectDistinct, hint, k);
  }

  /**
   * CONNECT BY PRIOR appears exactly when connectBy is set, START WITH exactly when
   * startWith is set as well; ORDER SIBLINGS BY replaces ORDER BY exactly under
   * CONNECT BY, and either appears only with an order-by list.
   */
  lemma SelectClauses(
    c: Clauses, connectBy: Option<string>, startWith: Option<string>, hint: Option<string>,
    fromSql: string, whereSql: string, groupingSql: string)
    requires c.select.Some?
    ensures var f := SelectStatement(c, connectBy, startWith, hint, fromSql, whereSql, groupingSql).value;
      && (Keyword("\r\nCONNECT BY PRIOR ") in f <==> connectBy.Some?)
      && (Keyword("\r\nSTART WITH ") in f <==> connectBy.Some? && startWith.Some?)
      && (Keyword("\r\nORDER SIBLINGS BY ") in f <==> connectBy.Some? && c.orderBy.Some?)
      && (Keyword("\r\nORDER BY ") in f <==> connectBy.None? && c.orderBy.Some?)
  {
    ConnectByKeywords(connectBy, startWith);
    OrderByKeywords(c.orderBy, connectBy);
    SelectClauseKeyword(c, connectBy, startWith, hint, fromSql, whereSql, groupingSql, "\r\nCONNECT BY PRIOR ");
    SelectClauseKeyword(c, connectBy, startWith, hint, fromSql, whereSql, groupingSql, "\r\nSTART WITH ");
    SelectClauseKeyword(c, connectBy, startWith, hint, fromSql, whereSql, groupingSql, "\r\nORDER SIBLINGS BY ");
    SelectClauseKeyword(c, connectBy, startWith, hint, fromSql, whereSql, groupingSql, "\r\nORDER BY ");
  }

  /**
   * getUpdate: no SET clause gives no statement; the simple form is used without joins;
   * with joins, the merge goes through the first join on the table of the first SET
   * expression, and no such join is an ObjectNotValidException.
   */
  lemma UpdateSelection(c: Clauses, hint: Option<string>, whereSql: string)
    ensures c.sets.None? ==> UpdateOf(c, hint, whereSql) == Ok(NoStatement)
    ensures c.sets.Some? && c.sets.value == [] ==> UpdateOf(c, hint, whereSql) == Err(IndexOutOfBounds)
    ensures c.sets.Some? && c.sets.value != [] && c.joins.None?
      ==> UpdateOf(c, hint, whereSql).Ok? && UpdateOf(c, hint, whereSql).value.Statement?
    ensures c.sets.Some? && c.sets.value != [] && c.joins.Some? ==>
      match UpdateOf(c, hint, whereSql)
      case Ok(u) => u.Merge? && u.target == c.sets.value[0].table
                    && u.join in c.joins.value && JoinOn(u.join, u.target)
      case Err(e) => e == ObjectNotValid && forall j :: j in c.joins.value ==> !JoinOn(j, c.sets.value[0].table)
  {
  }

  /** The head of an UPDATE: its hint, and the table right after it. */
  lemma UpdateHeadSpec(table: UpdateTable, hint: Option<string>)
    ensures var head := UpdateHead(table, hint);
      && (forall h :: HintText(h) in head <==> IsNotEmpty(hint) && h == hint.value)
      && |head| == (if IsNotEmpty(hint) then 5 else 2)
      && head[0] == Keyword("UPDATE ")
      && head[|head| - 1] == Sql(TableSql(table, IsNotEmpty(hint) && ContainsSubstring(hint.value, table.alias)))
  {
    var head := UpdateHead(table, hint);
    if IsNotEmpty(hint) {
      var h := hint.value;
      assert head == [Keyword("UPDATE "), Keyword("/*+ "), HintText(h), Keyword(" */ "), head[4]];
    }
  }

  /**
   * A simple UPDATE starts with UPDATE, carries the hint comment exactly when the hint
   * is not empty, and writes the table's alias exactly when the hint mentions it.
   */
  lemma SimpleUpdateSpec(c: Clauses, hint: Option<string>, whereSql: string)
    requires c.sets.Some? && c.sets.value != []
    ensures var f := SimpleUpdate(c, hint, whereSql).value.frags;
      var table := c.sets.value[0].table;
      && |Render(f)| >= 7 && Render(f)[..7] == "UPDATE "
      && (forall h :: HintText(h) in f <==> IsNotEmpty(hint) && h == hint.value)
      && f[if IsNotEmpty(hint) then 4 else 1]
         == Sql(TableSql(table, IsNotEmpty(hint) && ContainsSubstring(hint.value, table.alias)))
  {
    var f := SimpleUpdate(c, hint, whereSql).value.frags;
    var table := c.sets.value[0].table;
    var head := UpdateHead(table, hint);
    UpdateHeadSpec(table, hint);
    assert f[0] == head[0] && f[|head| - 1] == head[|head| - 1];
    RenderStartsWith(f, "UPDATE ");
    SqlListNoKeyword(SetSql(c.sets.value), ", ", "");
  }

  /** The WHERE part of a DELETE: no hint, and only the where constraints' SQL. */
  lemma DeleteWhereSpec(where: Option<seq<Constraint>>, having: Option<seq<string>>)
    ensures var tail := DeleteWhere(where, having);
      && (forall h :: HintText(h) !in tail)
      && (Keyword("\r\nWHERE ") in tail <==> where.Some? || having.Some?)
      && (forall s :: Sql(s) in tail ==> s in ConstraintsSql(WhereItems(where)))
  {
    var tail := DeleteWhere(where, having);
    if where.Some? {
      var items := ConstraintsSql(where.value);
      var list := SqlList(items, " AND ");
      assert tail == [Keyword("\r\nWHERE ")] + list;
      SqlListParts(items, " AND ");
      SqlListNoKeyword(items, " AND ", "\r\nWHERE ");
    } else if having.Some? {
      assert tail == [Keyword("\r\nWHERE ")];
    } else {
      assert tail == [];
    }
  }

  /** With a where clause, the WHERE part renders as WHERE and the constraints joined by AND. */
  lemma DeleteWhereRender(where: seq<Constraint>, having: Option<seq<string>>)
    ensures Render(DeleteWhere(Some(where), having))
      == "\r\nWHERE " + JoinWith(ConstraintsSql(where), " AND ")
  {
    var items := ConstraintsSql(where);
    RenderAppend([Keyword("\r\nWHERE ")], SqlList(items, " AND "));
    SqlListRender(items, " AND ");
    assert Render([Keyword("\r\nWHERE ")]) == "\r\nWHERE ";
  }

  /**
   * A DELETE carries the hint comment whenever a hint is set, even an empty one; WHERE
   * appears exactly when a where or having clause is set, and the having clause itself
   * is never written: the only SQL is the table's and the where constraints'.
   */
  lemma DeleteSpec(c: Clauses, hint: Option<string>, tableSql: string)
    ensures var f := DeleteStatement(c, hint, tableSql);
      && (forall h :: HintText(h) in f <==> hint.Some? && h == hint.value)
      && (Keyword("\r\nWHERE ") in f <==> c.where.Some? || c.having.Some?)
      && (forall s :: Sql(s) in f ==> s == tableSql || s in ConstraintsSql(WhereItems(c.where)))
  {
    var head := DeleteHead(hint, tableSql);
    DeleteWhereSpec(c.where, c.having);
    if hint.Some? {
      var h := hint.value;
      assert head == [Keyword("DELETE "), Keyword("/*+ "), HintText(h), Keyword(" */ "), Keyword("FROM "), Sql(tableSql)];
    } else {
      assert head == [Keyword("DELETE "), Keyword("FROM "), Sql(tableSql)];
    }
  }

  /** The text of a DELETE starts with DELETE and ends with the where constraints joined by AND. */
  lemma DeleteText(c: Clauses, hint: Option<string>, tableSql: string)
    ensures var f := DeleteStatement(c, hint, tableSql);
      && |Render(f)| >= 7 && Render(f)[..7] == "DELETE "
      && (c.where.Some? ==>
            Render(f) == Render(DeleteHead(hint, tableSql)) + "\r\nWHERE " + JoinWith(ConstraintsSql(c.where.value), " AND "))
  {
    var f := DeleteStatement(c, hint, tableSql);
    assert f[0] == DeleteHead(hint, tableSql)[0];
    RenderStartsWith(f, "DELETE ");
    if c.where.Some? {
      DeleteWhereRender(c.where.value, c.having);
      RenderAppend(DeleteHead(hint, tableSql), DeleteWhere(c.where, c.having));
    }
  }

  // ---------------------------------------------------------------- the command

  /** Every where list holds at most one ROWNUM constraint, and one only with a ROWNUM expression. */
  predicate RowNumConsistent(where: Option<seq<Constraint>>, hasRowNumExpr: bool) {
    RowNumCount(WhereItems(where)) <= (if hasRowNumExpr then 1 else 0)
  }

  /** OracleRowNumExpr: the ROWNUM pseudo column, created once and then reused. */
  class RowNumExpr {
    constructor ()
    {
    }
  }

  /** The clauses after DBCommand.clear: none set. */
  const NoClauses: Clauses := Clauses(None, false, None, None, None, None, None)

  class CommandOracle {
    /** The clauses held by DBCommand. */
    var clauses: Clauses
    var connectBy: Option<string>
    var startWith: Option<string>
    var optimizerHint: Option<string>
    /** The ROWNUM expression; null until limitRows creates it. */
    var rowNumExpr: RowNumExpr?

    ghost predicate Valid()
      reads this
    {
      RowNumConsistent(clauses.where, rowNumExpr != null)
    }

    /** A command over the clauses DBCommand's own methods built, without a ROWNUM limit. */
    constructor (initial: Clauses)
      requires RowNumCount(WhereItems(initial.where)) == 0
      ensures Valid()
      ensures clauses == initial && connectBy.None? && startWith.None? && optimizerHint.None? && rowNumExpr == null
    {
      clauses := initial;
      connectBy := None;
      startWith := None;
      optimizerHint := None;
      rowNumExpr := null;
    }

    /** setOptimizerHint. */
    method SetOptimizerHint(hint: Option<string>)
      modifies this`optimizerHint
      ensures optimizerHint == hint
    {
      optimizerHint := hint;
    }

    /** setOptimizerIndexHint: an index without a table is an InvalidArgumentException. */
    method SetOptimizerIndexHint(index: Option<Index>) returns (error: Option<CommandError>)
      modifies this`optimizerHint
      ensures index.None? || index.value.tableAlias.None? ==>
        error == Some(InvalidArgument) && optimizerHint == old(optimizerHint)
      ensures index.Some? && index.value.tableAlias.Some? ==>
        error.None?
        && optimizerHint == Some(HintWithIndex(old(optimizerHint), IndexHint(index.value.tableAlias.value, index.value.name)))
    {
      if index.None? || index.value.tableAlias.None? {
        return Some(InvalidArgument);
      }
      var indexHint := "INDEX (" + index.value.tableAlias.value + " " + index.value.name + ")";
      if IsNotEmpty(optimizerHint) && !ContainsSubstring(optimizerHint.value, indexHint) {
        optimizerHint := Some(optimizerHint.value + " " + indexHint);
      } else {
        optimizerHint := Some(indexHint);
      }
      return None;
    }

    /**
     * clear: DBCommand.clear clears every clause and calls clearLimit, whose override
     * drops the ROWNUM expression; then CONNECT BY, START WITH and the hint are cleared.
     */
    method Clear()
      requires Valid()
      modifies this
      ensures Valid()
      ensures clauses == NoClauses && connectBy.None? && startWith.None? && optimizerHint.None?
      ensures rowNumExpr == null
    {
      ClearLimit();
      clauses := NoClauses;
      ClearConnectBy();
      optimizerHint := None;
    }

    /** clearConnectBy: CONNECT BY and START WITH are cleared, nothing else. */
    method ClearConnectBy()
      modifies this`connectBy, this`startWith
      ensures connectBy.None? && startWith.None?
    {
      connectBy, startWith := None, None;
    }

    /** connectByPrior. */
    method ConnectByPrior(expr: Option<string>)
      modifies this`connectBy
      ensures connectBy == expr
    {
      connectBy := expr;
    }

    /** startWith. */
    method StartWith(expr: Option<string>)
      modifies this`startWith
      ensures startWith == expr
    {
      startWith := expr;
    }

    /**
     * limitRows: the ROWNUM expression is created if needed, and the where clause
     * gets the limit in place of any earlier one.
     */
    method LimitRows(numRows: int)
      requires Valid() && MinInt <= numRows <= MaxInt
      modifies this`rowNumExpr, this`clauses
      ensures Valid() && rowNumExpr != null
      ensures old(rowNumExpr) != null ==> rowNumExpr == old(rowNumExpr)
      ensures old(rowNumExpr) == null ==> fresh(rowNumExpr)
      ensures clauses == old(clauses).(where := Some(WithRowNum(WhereItems(old(clauses.where)), numRows)))
    {
      if rowNumExpr == null {
        rowNumExpr := new RowNumExpr();
      }
      WithRowNumSpec(WhereItems(clauses.where), numRows);
      clauses := clauses.(where := Some(WithRowNum(WhereItems(clauses.where), numRows)));
    }

    /** clearLimit: the ROWNUM constraint is removed and the expression dropped. */
    method ClearLimit()
      requires Valid()
      modifies this`rowNumExpr, this`clauses
      ensures Valid() && rowNumExpr == null
      ensures clauses == if old(rowNumExpr) != null && old(clauses.where).Some?
        then old(clauses).(where := Some(WithoutRowNum(old(clauses.where).value)))
        else old(clauses)
    {
      if rowNumExpr != null && clauses.where.Some? {
        WithoutRowNumSpec(clauses.where.value);
        clauses := clauses.(where := Some(WithoutRowNum(clauses.where.value)));
      }
      rowNumExpr := null;
    }

    /** getSelect, with the opaque FROM, WHERE and grouping text. */
    method GetSelect(fromSql: string, whereSql: string, groupingSql: string) returns (r: Result<seq<Fragment>, CommandError>)
      ensures r == SelectStatement(clauses, connectBy, startWith, optimizerHint, fromSql, whereSql, groupingSql)
    {
      if clauses.select.None? {
        return Err(ObjectNotValid);
      }
      var buf := [Keyword("SELECT ")];
      if IsNotEmpty(optimizerHint) {
        buf := buf + [Keyword("/*+ "), HintText(optimizerHint.value), Keyword(" */ ")];
      }
      if clauses.selectDistinct {
        buf := buf + [Keyword("DISTINCT ")];
      }
      assert buf == SelectHead(clauses.selectDistinct, optimizerHint);
      ghost var beforeList := buf;
      buf := buf + SqlList(clauses.select.value, ", ");
      buf := buf + [Sql(fromSql)];
      buf := buf + [Sql(whereSql)];
      assert buf == beforeList + SelectListPart(clauses.select.value, fromSql, whereSql);
      ghost var beforeConnect := buf;
      if connectBy.Some? {
        buf := buf + [Keyword("\r\nCONNECT BY PRIOR "), Sql(connectBy.value)];
        if startWith.Some? {
          buf := buf + [Keyword("\r\nSTART WITH "), Sql(startWith.value)];
        }
      }
      assert buf == beforeConnect + ConnectByPart(connectBy, startWith);
      buf := buf + [Sql(groupingSql)];
      ghost var beforeOrder := buf;
      if clauses.orderBy.Some? {
        if connectBy.Some? {
          buf := buf + [Keyword("\r\nORDER SIBLINGS BY ")];
        } else {
          buf := buf + [Keyword("\r\nORDER BY ")];
        }
        buf := buf + SqlList(clauses.orderBy.value, ", ");
      }
      assert buf == beforeOrder + OrderByPart(clauses.orderBy, connectBy);
      Regroup(beforeList, SelectListPart(clauses.select.value, fromSql, whereSql),
        ConnectByPart(connectBy, startWith), [Sql(groupingSql)], OrderByPart(clauses.orderBy, connectBy));
      return Ok(buf);
    }

    /** getUpdate. */
    method GetUpdate(whereSql: string) returns (r: Result<UpdateStatement, CommandError>)
      ensures r == UpdateOf(clauses, optimizerHint, whereSql)
    {
      if clauses.joins.None? || clauses.sets.None? {
        r := GetSimpleUpdate(whereSql);
      } else {
        r := GetUpdateWithJoins();
      }
    }

    /** getSimpleUpdate, with the opaque WHERE text. */
    method GetSimpleUpdate(whereSql: string) returns (r: Result<UpdateStatement, CommandError>)
      ensures r == SimpleUpdate(clauses, optimizerHint, whereSql)
    {
      if clauses.sets.None? {
        return Ok(NoStatement);
      }
      if clauses.sets.value == [] {
        return Err(IndexOutOfBounds);
      }
      var buf := [Keyword("UPDATE ")];
      var table := clauses.sets.value[0].table;
      var withAlias := false;
      if IsNotEmpty(optimizerHint) {
        buf := buf + [Keyword("/*+ "), HintText(optimizerHint.value), Keyword(" */ ")];
        if ContainsSubstring(optimizerHint.value, table.alias) {
          withAlias := true;
        }
      }
      buf := buf + [Sql(TableSql(table, withAlias))];
      assert buf == UpdateHead(table, optimizerHint);
      ghost var head := buf;
      buf := buf + [Keyword("\r\nSET ")];
      buf := buf + SqlList(SetSql(clauses.sets.value), ", ");
      buf := buf + [Sql(whereSql)];
      assert buf == head + UpdateRest(clauses.sets.value, whereSql);
      return Ok(Statement(buf));
    }

    /** getUpdateWithJoins up to the choice of the join. */
    method GetUpdateWithJoins() returns (r: Result<UpdateStatement, CommandError>)
      requires clauses.joins.Some? && clauses.sets.Some?
      ensures r == UpdateWithJoins(clauses.sets.value, clauses.joins.value)
    {
      var sets := clauses.sets.value;
      var joins := clauses.joins.value;
      if sets == [] {
        return Err(IndexOutOfBounds);
      }
      var table := sets[0].table;
      var updateJoin: Option<JoinExpr> := None;
      for i := 0 to |joins|
        invariant updateJoin.None? ==> FirstJoinOn(joins, table) == FirstJoinOn(joins[i..], table)
        invariant updateJoin.Some? ==> updateJoin == FirstJoinOn(joins, table)
      {
        assert joins[i..][1..] == joins[i + 1..];
        if !JoinOn(joins[i], table) {
          continue;
        }
        updateJoin := Some(joins[i]);
        break;
      }
      if updateJoin.None? {
        assert joins[|joins|..] == [];
        return Err(ObjectNotValid);
      }
      return Ok(Merge(table, updateJoin.value));
    }

    /** getDelete, with the table's opaque SQL. */
    method GetDelete(tableSql: string) returns (frags: seq<Fragment>)
      ensures frags == DeleteStatement(clauses, optimizerHint, tableSql)
    {
      var buf := [Keyword("DELETE ")];
      if optimizerHint.Some? {
        buf := buf + [Keyword("/*+ "), HintText(optimizerHint.value), Keyword(" */ ")];
      }
      buf := buf + [Keyword("FROM ")];
      buf := buf + [Sql(tableSql)];
      if clauses.where.Some? || clauses.having.Some? {
        buf := buf + [Keyword("\r\nWHERE ")];
        if clauses.where.Some? {
          buf := buf + SqlList(ConstraintsSql(clauses.where.value), " AND ");
        }
      }
      return buf;
    }
  }
}
