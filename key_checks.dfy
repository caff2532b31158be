/**
 * DBModelChecker's key checks: checkPrimaryKey and checkForeignKeys, each a method
 * with the source's labelled loops, proved equal to a specification function, and
 * lemmas saying what those functions report.
 */
module KeyChecks {
  import opened Wrappers
  import opened JavaText
  import opened ModelTypes

  // ---------------------------------------------------------------- primary key

  /** Some column of the remote key has `fullName` as its full name, ignoring case. */
  predicate InRemoteKey(fullName: string, remoteTable: string, remotePk: seq<string>) {
    exists j :: 0 <= j < |remotePk| && EqualsIgnoreCase(fullName, FullName(ColumnRef(remoteTable, remotePk[j])))
  }

  /** The declared key columns, in order, missing from the remote key. */
  function MissingKeyColumns(table: string, pk: seq<string>, remoteTable: string, remotePk: seq<string>): seq<Report>
  {
    if pk == [] then []
    else
      var last := pk[|pk| - 1];
      MissingKeyColumns(table, pk[..|pk| - 1], remoteTable, remotePk)
      + (if InRemoteKey(FullName(ColumnRef(table, last)), remoteTable, remotePk) then []
         else [PrimaryKeyColumnMissing(table, last)])
  }

  /**
   * checkPrimaryKey: nothing without a declared key; the key itself is not found when
   * the database table has none; otherwise each declared key column missing from the
   * database key.
   */
  function PrimaryKeyReports(table: Table, remote: RemoteTable): seq<Report>
  {
    match (table.primaryKey, remote.primaryKey)
    case (None, _) => []
    case (Some(_), None) => [ItemNotFound(PrimaryKeyItem(table.name))]
    case (Some(pk), Some(remotePk)) => MissingKeyColumns(table.name, pk, remote.name, remotePk)
  }

  lemma {:induction false} MissingKeyColumnsSpec(table: string, pk: seq<string>, remoteTable: string, remotePk: seq<string>)
    ensures var r := MissingKeyColumns(table, pk, remoteTable, remotePk);
      && |r| <= |pk|
      && (forall rep :: rep in r ==> rep.PrimaryKeyColumnMissing? && rep.table == table)
      && (forall c :: PrimaryKeyColumnMissing(table, c) in r
            <==> c in pk && !InRemoteKey(FullName(ColumnRef(table, c)), remoteTable, remotePk))
  {
    if pk != [] {
      MissingKeyColumnsSpec(table, pk[..|pk| - 1], remoteTable, remotePk);
      assert pk == pk[..|pk| - 1] + [pk[|pk| - 1]];
    }
  }

  /**
   * What checkPrimaryKey reports: nothing when no key is declared; only the missing
   * key when the database has none; otherwise exactly the declared key columns whose
   * full names are not among the database key's, ignoring case, at most one report
   * per declared column, and never a database key column that is not declared.
   */
  lemma PrimaryKeyReportsSpec(table: Table, remote: RemoteTable)
    ensures table.primaryKey.None? ==> PrimaryKeyReports(table, remote) == []
    ensures table.primaryKey.Some? && remote.primaryKey.None?
      ==> PrimaryKeyReports(table, remote) == [ItemNotFound(PrimaryKeyItem(table.name))]
    ensures table.primaryKey.Some? && remote.primaryKey.Some? ==>
      var r := PrimaryKeyReports(table, remote);
      && |r| <= |table.primaryKey.value|
      && (forall rep :: rep in r ==> rep.PrimaryKeyColumnMissing? && rep.table == table.name)
      && (forall c :: PrimaryKeyColumnMissing(table.name, c) in r
            <==> c in table.primaryKey.value
                 && !InRemoteKey(FullName(ColumnRef(table.name, c)), remote.name, remote.primaryKey.value))
  {
    if table.primaryKey.Some? && remote.primaryKey.Some? {
      MissingKeyColumnsSpec(table.name, table.primaryKey.value, remote.name, remote.primaryKey.value);
    }
  }

  /** checkPrimaryKey, with its labelled loop. */
  method CheckPrimaryKey(table: Table, remote: RemoteTable) returns (reports: seq<Report>)
    ensures reports == PrimaryKeyReports(table, remote)
  {
    if table.primaryKey.None? {
      return [];
    }
    if remote.primaryKey.None? {
      return [ItemNotFound(PrimaryKeyItem(table.name))];
    }
    var pk := table.primaryKey.value;
    var remotePk := remote.primaryKey.value;
    reports := [];
    label PkColLoop:
    for i := 0 to |pk|
      invariant reports == MissingKeyColumns(table.name, pk[..i], remote.name, remotePk)
    {
      var pkCol := pk[i];
      assert pk[..i + 1][..i] == pk[..i];
      for j := 0 to |remotePk|
        invariant forall k :: 0 <= k < j ==>
          !EqualsIgnoreCase(FullName(ColumnRef(table.name, pkCol)), FullName(ColumnRef(remote.name, remotePk[k])))
      {
        if EqualsIgnoreCase(FullName(ColumnRef(table.name, pkCol)), FullName(ColumnRef(remote.name, remotePk[j]))) {
          continue PkColLoop;
        }
      }
      reports := reports + [PrimaryKeyColumnMissing(table.name, pkCol)];
    }
    assert pk[..|pk|] == pk;
  }

  // ---------------------------------------------------------------- foreign keys

  /** Two references join the same columns, by full names compared ignoring case. */
  predicate SameReference(local: LocalReference, remote: Reference) {
    && EqualsIgnoreCase(FullName(local.source), FullName(remote.source))
    && EqualsIgnoreCase(FullName(local.target), FullName(remote.target))
  }

  /** Some reference of some database relation joins the same columns. */
  predicate RemoteHasReference(ref: LocalReference, remoteRelations: seq<Relation>) {
    exists i, j :: 0 <= i < |remoteRelations| && 0 <= j < |remoteRelations[i].references|
      && SameReference(ref, remoteRelations[i].references[j])
  }

  /**
   * How checkForeignKeys treats one declared reference. A reference to a table column
   * outside that table's primary key cannot be checked through JDBC and is skipped; a
   * target table without a primary key makes the check throw a NullPointerException.
   */
  datatype ReferenceStatus = Matched | Skipped | Unmatched | TargetKeyNull

  function Status(ref: LocalReference, remoteRelations: seq<Relation>): ReferenceStatus {
    match ref.targetRowset
    case TableTarget(None) => TargetKeyNull
    case TableTarget(Some(pk)) =>
      if ref.target.column !in pk then Skipped
      else if RemoteHasReference(ref, remoteRelations) then Matched
      else Unmatched
    case ViewTarget => if RemoteHasReference(ref, remoteRelations) then Matched else Unmatched
  }

  /** Found: every reference matched or skipped; NotFound: one is missing; KeyNull: a throw. */
  datatype RelationOutcome = AllFound | NotFound | KeyNull

  /** The loop over one relation's references stops at the first one that is not settled. */
  function ScanReferences(refs: seq<LocalReference>, remoteRelations: seq<Relation>): RelationOutcome {
    if refs == [] then AllFound
    else match Status(refs[0], remoteRelations)
      case TargetKeyNull => KeyNull
      case Unmatched => NotFound
      case _ => ScanReferences(refs[1..], remoteRelations)
  }

  /** The position of the first reference that is neither matched nor skipped, or the length. */
  function FirstUnsettled(refs: seq<LocalReference>, remoteRelations: seq<Relation>): nat {
    if refs == [] then 0
    else if Status(refs[0], remoteRelations) in {Matched, Skipped} then 1 + FirstUnsettled(refs[1..], remoteRelations)
    else 0
  }

  /**
   * The outcome of a relation is that of its first reference neither matched nor
   * skipped: found when there is none, not found when it has no match, a throw when
   * its target table has no primary key. Every reference before it is settled.
   */
  lemma {:induction false} ScanReferencesSpec(refs: seq<LocalReference>, remoteRelations: seq<Relation>)
    ensures var k := FirstUnsettled(refs, remoteRelations);
      && k <= |refs|
      && (forall m :: 0 <= m < k ==> Status(refs[m], remoteRelations) in {Matched, Skipped})
      && (ScanReferences(refs, remoteRelations) == AllFound <==> k == |refs|)
      && (ScanReferences(refs, remoteRelations) == NotFound
          <==> k < |refs| && Status(refs[k], remoteRelations) == Unmatched)
      && (ScanReferences(refs, remoteRelations) == KeyNull
          <==> k < |refs| && Status(refs[k], remoteRelations) == TargetKeyNull)
  {
    if refs != [] && Status(refs[0], remoteRelations) in {Matched, Skipped} {
      var rest := refs[1..];
      ScanReferencesSpec(rest, remoteRelations);
      assert forall m :: 1 <= m < |refs| ==> refs[m] == rest[m - 1];
    }
  }

  /**
   * checkForeignKeys: one "not found" for each relation a reference of which is
   * missing in the database, in order; a null target key ends the check there.
   */
  function ForeignKeyReports(relations: seq<LocalRelation>, remoteRelations: seq<Relation>): CheckOutcome
  {
    if relations == [] then CheckOutcome([], false)
    else
      var prev := ForeignKeyReports(relations[..|relations| - 1], remoteRelations);
      var last := relations[|relations| - 1];
      if prev.aborted then prev
      else match ScanReferences(last.references, remoteRelations)
        case AllFound => prev
        case NotFound => CheckOutcome(prev.reports + [ItemNotFound(RelationItem(last.name))], false)
        case KeyNull => CheckOutcome(prev.reports, true)
  }

  /** At most one report per relation, each naming a relation with a missing reference. */
  lemma {:induction false} ForeignKeyReportsNamed(relations: seq<LocalRelation>, remoteRelations: seq<Relation>)
    ensures var o := ForeignKeyReports(relations, remoteRelations);
      && |o.reports| <= |relations|
      && (forall rep :: rep in o.reports ==>
            exists i :: 0 <= i < |relations| && rep == ItemNotFound(RelationItem(relations[i].name))
                        && ScanReferences(relations[i].references, remoteRelations) == NotFound)
  {
    if relations != [] {
      var init := relations[..|relations| - 1];
      ForeignKeyReportsNamed(init, remoteRelations);
      assert forall i :: 0 <= i < |init| ==> init[i] == relations[i];
    }
  }

  /** Unless the check threw, every relation with a missing reference is reported. */
  lemma {:induction false} ForeignKeyReportsComplete(relations: seq<LocalRelation>, remoteRelations: seq<Relation>)
    ensures var o := ForeignKeyReports(relations, remoteRelations);
      !o.aborted ==>
        forall i :: 0 <= i < |relations| && ScanReferences(relations[i].references, remoteRelations) == NotFound
          ==> ItemNotFound(RelationItem(relations[i].name)) in o.reports
  {
    if relations != [] {
      var init := relations[..|relations| - 1];
      ForeignKeyReportsComplete(init, remoteRelations);
      assert forall i :: 0 <= i < |init| ==> init[i] == relations[i];
    }
  }

  /** The check throws exactly when some relation reaches a target table without a key. */
  lemma {:induction false} ForeignKeyReportsAborted(relations: seq<LocalRelation>, remoteRelations: seq<Relation>)
    ensures ForeignKeyReports(relations, remoteRelations).aborted
      <==> exists i :: 0 <= i < |relations| && ScanReferences(relations[i].references, remoteRelations) == KeyNull
  {
    if relations != [] {
      var init := relations[..|relations| - 1];
      var last := relations[|relations| - 1];
      ForeignKeyReportsAborted(init, remoteRelations);
      assert forall i :: 0 <= i < |init| ==> init[i] == relations[i];
      var prev := ForeignKeyReports(init, remoteRelations);
      if prev.aborted {
        assert ForeignKeyReports(relations, remoteRelations) == prev;
      } else if ScanReferences(last.references, remoteRelations) == KeyNull {
        assert ForeignKeyReports(relations, remoteRelations).aborted;
      } else {
        assert !ForeignKeyReports(relations, remoteRelations).aborted;
      }
    }
  }



  /**
   * What checkForeignKeys reports: at most one report per relation, each naming a
   * declared relation with a missing reference; when nothing throws, every such
   * relation is reported; it throws exactly when some relation reaches a target
   * table without a primary key.
   */
  lemma ForeignKeyReportsSpec(relations: seq<LocalRelation>, remoteRelations: seq<Relation>)
    ensures var o := ForeignKeyReports(relations, remoteRelations);
      && |o.reports| <= |relations|
      && (forall rep :: rep in o.reports ==>
            exists i :: 0 <= i < |relations| && rep == ItemNotFound(RelationItem(relations[i].name))
                        && ScanReferences(relations[i].references, remoteRelations) == NotFound)
      && (!o.aborted ==>
            forall i :: 0 <= i < |relations| && ScanReferences(relations[i].references, remoteRelations) == NotFound
              ==> ItemNotFound(RelationItem(relations[i].name)) in o.reports)
      && (o.aborted <==> exists i :: 0 <= i < |relations| && ScanReferences(relations[i].references, remoteRelations) == KeyNull)
  {
    ForeignKeyReportsNamed(relations, remoteRelations);
    ForeignKeyReportsComplete(relations, remoteRelations);
    ForeignKeyReportsAborted(relations, remoteRelations);
  }

  /** Once the check has thrown, the relations after that point change nothing. */
  lemma {:induction false} AbortStops(relations: seq<LocalRelation>, remoteRelations: seq<Relation>, n: nat)
    requires n <= |relations|
    requires ForeignKeyReports(relations[..n], remoteRelations).aborted
    ensures ForeignKeyReports(relations, remoteRelations) == ForeignKeyReports(relations[..n], remoteRelations)
  {
    if n < |relations| {
      var init := relations[..|relations| - 1];
      assert init[..n] == relations[..n];
      AbortStops(init, remoteRelations, n);
    } else {
      assert relations[..n] == relations;
    }
  }

  /**
   * The search of checkForeignKeys for a declared reference among the references of
   * the database relations.
   */
  method FindRemoteReference(reference: LocalReference, remoteRelations: seq<Relation>) returns (found: bool)
    ensures found <==> RemoteHasReference(reference, remoteRelations)
  {
    for i := 0 to |remoteRelations|
      invariant forall i', j ::
        (0 <= i' < i && 0 <= j < |remoteRelations[i'].references|)
        ==> !SameReference(reference, remoteRelations[i'].references[j])
    {
      var remoteRefs := remoteRelations[i].references;
      for j := 0 to |remoteRefs|
        invariant forall j' :: 0 <= j' < j ==> !SameReference(reference, remoteRefs[j'])
      {
        if EqualsIgnoreCase(FullName(reference.source), FullName(remoteRefs[j].source))
          && EqualsIgnoreCase(FullName(reference.target), FullName(remoteRefs[j].target))
        {
          return true;
        }
      }
    }
    return false;
  }

  /** checkForeignKeys, with its labelled loops. */
  method CheckForeignKeys(relations: seq<LocalRelation>, remoteRelations: seq<Relation>) returns (outcome: CheckOutcome)
    ensures outcome == ForeignKeyReports(relations, remoteRelations)
  {
    if relations == [] {
      return CheckOutcome([], false);
    }
    var reports := [];
    for r := 0 to |relations|
      invariant ForeignKeyReports(relations[..r], remoteRelations) == CheckOutcome(reports, false)
    {
      var relation := relations[r];
      assert relations[..r + 1][..r] == relations[..r];
      var refs := relation.references;
      label ReferenceLoop:
      for k := 0 to |refs|
        invariant ScanReferences(refs[k..], remoteRelations) == ScanReferences(refs, remoteRelations)
      {
        var reference := refs[k];
        assert refs[k..][1..] == refs[k + 1..];
        match reference.targetRowset {
          case TableTarget(targetKey) =>
            if targetKey.None? {
              // the target table's getPrimaryKey() is null
              assert ScanReferences(refs[k..], remoteRelations) == KeyNull;
              assert ForeignKeyReports(relations[..r + 1], remoteRelations) == CheckOutcome(reports, true);
              AbortStops(relations, remoteRelations, r + 1);
              assert relations[..|relations|] == relations;
              return CheckOutcome(reports, true);
            }
            if reference.target.column !in targetKey.value {
              continue ReferenceLoop;
            }
          case ViewTarget =>
        }
        var found := FindRemoteReference(reference, remoteRelations);
        if found {
          continue ReferenceLoop;
        }
        reports := reports + [ItemNotFound(RelationItem(relation.name))];
        break ReferenceLoop;
      }
    }
    assert relations[..|relations|] == relations;
    return CheckOutcome(reports, false);
  }
}
