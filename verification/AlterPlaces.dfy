/** What the clauses of an ALTER TABLE and the commands sent for them mean, said by the places of the columns before
    and after, and exactly when a clause passes. */
module AlterPlaces {
  import opened Events
  import opened TableStructures
  import opened AlterPlan
  import opened AlterCommands

  ghost predicate FirstAt(fields: seq<TableField>, i: int, name: string) {
    0 <= i < |fields| && fields[i].name == name && forall j :: 0 <= j < i ==> fields[j].name != name
  }

  ghost predicate LastAt(fields: seq<TableField>, i: int, name: string) {
    0 <= i < |fields| && fields[i].name == name && forall j :: i < j < |fields| ==> fields[j].name != name
  }

  /** `after` is `before` with one more field, at place i. */
  ghost predicate OneMore(before: seq<TableField>, after: seq<TableField>, i: int, field: TableField) {
    && 0 <= i <= |before| && |after| == |before| + 1 && after[i] == field
    && (forall j :: 0 <= j < i ==> after[j] == before[j])
    && (forall j :: i < j < |after| ==> after[j] == before[j - 1])
  }

  /** `after` is `before` with another field at place i. */
  ghost predicate OneOther(before: seq<TableField>, after: seq<TableField>, i: int, field: TableField) {
    && 0 <= i < |before| && |after| == |before| && after[i] == field
    && (forall j :: 0 <= j < |before| && j != i ==> after[j] == before[j])
  }

  /** The new field is the first one, or directly behind the last one of a given name. */
  ghost predicate Added(before: seq<TableField>, after: seq<TableField>, behind: Option<string>, field: TableField) {
    match behind
    case None => OneMore(before, after, 0, field)
    case Some(name) => exists i :: LastAt(before, i, name) && OneMore(before, after, i + 1, field)
  }

  /** The first field of this name is gone. */
  ghost predicate Dropped(before: seq<TableField>, after: seq<TableField>, name: string) {
    exists i :: FirstAt(before, i, name) && OneMore(after, before, i, before[i])
  }

  /** The first field of this name has become another one, in its place. */
  ghost predicate Replaced(before: seq<TableField>, after: seq<TableField>, name: string, field: TableField) {
    exists i :: FirstAt(before, i, name) && OneOther(before, after, i, field)
  }

  /** The same with a new name and the type it had. */
  ghost predicate Renamed(before: seq<TableField>, after: seq<TableField>, name: string, newName: string) {
    exists i :: FirstAt(before, i, name) && OneOther(before, after, i, TableField(newName, before[i].fieldType))
  }

  // ---- Structures

  lemma AddAfterPlaces(s: Structure, field: TableField, name: string)
    requires AddAfter(s, field, name).Some?
    ensures Added(s.fields, AddAfter(s, field, name).value.fields, Some(name), field)
  {
    assert LastAt(s.fields, LastIndexOf(s.fields, name), name);
  }

  lemma RemovePlaces(s: Structure, name: string)
    requires Remove(s, name).Some?
    ensures Dropped(s.fields, Remove(s, name).value.fields, name)
  {
    var i := IndexOf(s.fields, name);
    var r := Remove(s, name).value.fields;
    assert r == s.fields[..i] + s.fields[i + 1..];
    assert FirstAt(s.fields, i, name) && OneMore(r, s.fields, i, s.fields[i]);
  }

  lemma UpdatePlaces(s: Structure, field: TableField)
    requires Update(s, field).Some?
    ensures Replaced(s.fields, Update(s, field).value.fields, field.name, field)
  {
    assert FirstAt(s.fields, IndexOf(s.fields, field.name), field.name);
  }

  lemma RenamePlaces(s: Structure, name: string, newName: string)
    requires Rename(s, name, newName).Some?
    ensures Renamed(s.fields, Rename(s, name, newName).value.fields, name, newName)
  {
    assert FirstAt(s.fields, IndexOf(s.fields, name), name);
  }

  /** A new column is put first, behind the column named, or behind the last MySQL column, and each structure gets its
      own type. The other columns keep their order. A column of which both structures have the name stays as it is. */
  lemma AddColumnPlaces(t: Tables, op: Clause)
    requires op.AddColumn? && Execute(t, op).Some?
    ensures var r := Execute(t, op).value;
            if HasField(t.mysql.fields, op.name) && HasField(t.ch.fields, op.name) then r == t
            else
              match op.position
              case First =>
                OneMore(t.mysql.fields, r.mysql.fields, 0, TableField(op.name, op.mysqlType))
                && OneMore(t.ch.fields, r.ch.fields, 0, TableField(op.name, op.chType))
              case After(column) =>
                Added(t.mysql.fields, r.mysql.fields, Some(column), TableField(op.name, op.mysqlType))
                && Added(t.ch.fields, r.ch.fields, Some(column), TableField(op.name, op.chType))
              case Last =>
                var n := |t.mysql.fields|;
                n > 0 && OneMore(t.mysql.fields, r.mysql.fields, n, TableField(op.name, op.mysqlType))
                && Added(t.ch.fields, r.ch.fields, Some(t.mysql.fields[n - 1].name), TableField(op.name, op.chType))
  {
    if !HasField(t.mysql.fields, op.name) || !HasField(t.ch.fields, op.name) {
      var field, chField := TableField(op.name, op.mysqlType), TableField(op.name, op.chType);
      match op.position
      case First =>
      case After(column) =>
        AddAfterPlaces(t.mysql, field, column);
        AddAfterPlaces(t.ch, chField, column);
      case Last =>
        var column := t.mysql.fields[|t.mysql.fields| - 1].name;
        AddAfterPlaces(t.mysql, field, column);
        AddAfterPlaces(t.ch, chField, column);
    }
  }

  /** In structures in lockstep the new column has the same place in both. */
  lemma AddColumnInStep(t: Tables, op: Clause)
    requires op.AddColumn? && Lockstep(t) && !HasField(t.mysql.fields, op.name) && Execute(t, op).Some?
    ensures var r := Execute(t, op).value;
            exists i ::
              && OneMore(t.mysql.fields, r.mysql.fields, i, TableField(op.name, op.mysqlType))
              && OneMore(t.ch.fields, r.ch.fields, i, TableField(op.name, op.chType))
              && match op.position
                 case First => i == 0
                 case After(column) => i > 0 && t.mysql.fields[i - 1].name == column
                 case Last => i == |t.mysql.fields|
  {
    AddColumnPlaces(t, op);
    SameLookup(t.mysql.fields, t.ch.fields, op.name);
    var r := Execute(t, op).value;
    var i := match op.position
      case First => 0
      case After(column) => LastIndexOf(t.mysql.fields, column) + 1
      case Last => |t.mysql.fields|;
    assert OneMore(t.mysql.fields, r.mysql.fields, i, TableField(op.name, op.mysqlType));
    assert OneMore(t.ch.fields, r.ch.fields, i, TableField(op.name, op.chType));
  }

  /** A dropped column leaves the order of the others; a dropped column that neither structure has changes nothing. */
  lemma DropColumnPlaces(t: Tables, op: Clause)
    requires op.DropColumn? && Execute(t, op).Some?
    ensures var r := Execute(t, op).value;
            if !HasField(t.mysql.fields, op.name) && !HasField(t.ch.fields, op.name) then r == t
            else Dropped(t.mysql.fields, r.mysql.fields, op.name) && Dropped(t.ch.fields, r.ch.fields, op.name)
  {
    if HasField(t.mysql.fields, op.name) || HasField(t.ch.fields, op.name) {
      RemovePlaces(t.mysql, op.name);
      RemovePlaces(t.ch, op.name);
    }
  }

  /** A modified column stays in its place and gets its type in each structure. */
  lemma ModifyColumnPlaces(t: Tables, op: Clause)
    requires op.ModifyColumn? && Execute(t, op).Some?
    ensures var r := Execute(t, op).value;
            && Replaced(t.mysql.fields, r.mysql.fields, op.name, TableField(op.name, op.mysqlType))
            && Replaced(t.ch.fields, r.ch.fields, op.name, TableField(op.name, op.chType))
  {
    UpdatePlaces(t.mysql, TableField(op.name, op.mysqlType));
    UpdatePlaces(t.ch, TableField(op.name, op.chType));
  }

  /** A renamed column stays in its place and keeps its types; if only the new name is there nothing is done. */
  lemma RenameColumnPlaces(t: Tables, op: Clause)
    requires op.RenameColumn? && Execute(t, op).Some?
    ensures var r := Execute(t, op).value;
            if op.oldName == op.newName || !HasField(t.mysql.fields, op.oldName) then
              r == t && HasField(t.mysql.fields, op.newName) && HasField(t.ch.fields, op.newName)
            else
              && Renamed(t.mysql.fields, r.mysql.fields, op.oldName, op.newName)
              && Renamed(t.ch.fields, r.ch.fields, op.oldName, op.newName)
  {
    if op.oldName != op.newName && HasField(t.mysql.fields, op.oldName) {
      RenamePlaces(t.mysql, op.oldName, op.newName);
      RenamePlaces(t.ch, op.oldName, op.newName);
    }
  }

  /** A changed column stays in its place, gets its new name, and gets its types unless ClickHouse has its already. */
  lemma ChangeColumnPlaces(t: Tables, op: Clause)
    requires op.ChangeColumn? && Execute(t, op).Some?
    ensures var r := Execute(t, op).value;
            var name := if HasField(t.mysql.fields, op.oldName) then op.oldName else op.newName;
            exists i, k ::
              && FirstAt(t.mysql.fields, i, name) && FirstAt(t.ch.fields, k, name)
              && OneOther(t.ch.fields, r.ch.fields, k, TableField(op.newName, op.chType))
              && OneOther(t.mysql.fields, r.mysql.fields, i,
                          TableField(op.newName,
                                     if t.ch.fields[k].fieldType == op.chType then t.mysql.fields[i].fieldType
                                     else op.mysqlType))
  {
    var name := CurrentName(t, op.oldName, op.newName).value;
    var r, updated := Execute(t, op).value, RetypeIfNeeded(t, name, op.mysqlType, op.chType).value;
    var i, k := IndexOf(t.mysql.fields, name), IndexOf(t.ch.fields, name);
    RetypePlaces(t, name, op.mysqlType, op.chType);
    RenameIfNeededPlaces(updated, name, op.newName, i, k);
    assert FirstAt(t.mysql.fields, i, name) && FirstAt(t.ch.fields, k, name);
    assert OneOther(t.ch.fields, r.ch.fields, k, TableField(op.newName, op.chType));
  }

  lemma RetypePlaces(t: Tables, name: string, mysqlType: string, chType: string)
    requires HasField(t.mysql.fields, name) && HasField(t.ch.fields, name)
    requires RetypeIfNeeded(t, name, mysqlType, chType).Some?
    ensures var r, i, k := RetypeIfNeeded(t, name, mysqlType, chType).value,
                IndexOf(t.mysql.fields, name), IndexOf(t.ch.fields, name);
            && FirstAt(r.mysql.fields, i, name) && FirstAt(r.ch.fields, k, name)
            && OneOther(t.ch.fields, r.ch.fields, k, TableField(name, chType))
            && OneOther(t.mysql.fields, r.mysql.fields, i,
                        if t.ch.fields[k].fieldType == chType then t.mysql.fields[i] else TableField(name, mysqlType))
  {
  }

  lemma RenameIfNeededPlaces(t: Tables, name: string, newName: string, i: nat, k: nat)
    requires FirstAt(t.mysql.fields, i, name) && FirstAt(t.ch.fields, k, name)
    requires RenameIfNeeded(t, name, newName).Some?
    ensures var r := RenameIfNeeded(t, name, newName).value;
            && OneOther(t.mysql.fields, r.mysql.fields, i, t.mysql.fields[i].(name := newName))
            && OneOther(t.ch.fields, r.ch.fields, k, t.ch.fields[k].(name := newName))
  {
    assert HasField(t.mysql.fields, name) && HasField(t.ch.fields, name);
    assert IndexOf(t.mysql.fields, name) == i && IndexOf(t.ch.fields, name) == k;
  }

  /** The key columns stay, under their new names if they are renamed, and are found where they now are. */
  lemma KeyPlaces(t: Tables, op: Clause)
    requires Lockstep(t) && Execute(t, op).Some?
    ensures var r, keys := Execute(t, op).value, t.mysql.primaryKeys;
            && |r.mysql.primaryKeys| == |r.mysql.primaryKeyIds| == |keys| && r.ch.primaryKeys == r.mysql.primaryKeys
            && r.ch.primaryKeyIds == r.mysql.primaryKeyIds
            && forall i :: 0 <= i < |keys| ==>
                 && r.mysql.primaryKeys[i] ==
                    (if (op.ChangeColumn? || op.RenameColumn?) && keys[i] == op.oldName then op.newName else keys[i])
                 && r.mysql.primaryKeyIds[i] < |r.mysql.fields| == |r.ch.fields|
                 && r.mysql.fields[r.mysql.primaryKeyIds[i]].name == r.mysql.primaryKeys[i]
                 && r.ch.fields[r.ch.primaryKeyIds[i]].name == r.ch.primaryKeys[i]
  {
    ExecuteKeepsLockstep(t, op);
    KeysOnlyRenamed(t, op);
  }

  // ---- When a clause passes

  /** What a clause needs of the table: the column to put it behind, a column that is no key, the column to modify, or
      exactly one of the two names. */
  predicate Possible(fields: seq<TableField>, keys: seq<string>, op: Clause) {
    match op
    case AddColumn(name, _, _, position) =>
      HasField(fields, name) ||
      (match position
       case First => true
       case After(column) => HasField(fields, column)
       case Last => |fields| > 0)
    case DropColumn(name) => name !in keys
    case ModifyColumn(name, _, _) => HasField(fields, name)
    case ChangeColumn(oldName, newName, _, _) => OneOfThem(fields, oldName, newName)
    case RenameColumn(oldName, newName) => OneOfThem(fields, oldName, newName)
    case SafeNoop => true
    case _ => false
  }

  predicate OneOfThem(fields: seq<TableField>, oldName: string, newName: string) {
    if oldName == newName then HasField(fields, oldName) else HasField(fields, oldName) != HasField(fields, newName)
  }

  lemma AddPasses(s: Structure, field: TableField, after: string)
    requires WellFormed(s)
    ensures AddFirst(s, field).Some? && (AddAfter(s, field, after).Some? <==> HasField(s.fields, after))
  {
    forall i | 0 <= i < |s.primaryKeys| ensures HasField([field] + s.fields, s.primaryKeys[i]) {
      var j := IndexOf(s.fields, s.primaryKeys[i]);
      assert ([field] + s.fields)[j + 1] == s.fields[j];
    }
    if HasField(s.fields, after) {
      var k := LastIndexOf(s.fields, after) + 1;
      var r := InsertAt(s.fields, k, field);
      forall i | 0 <= i < |s.primaryKeys| ensures HasField(r, s.primaryKeys[i]) {
        var j := IndexOf(s.fields, s.primaryKeys[i]);
        assert r[if j < k then j else j + 1] == s.fields[j];
      }
    }
  }

  lemma RenamePasses(s: Structure, name: string, newName: string)
    requires WellFormed(s)
    ensures Rename(s, name, newName).Some? <==> HasField(s.fields, name)
  {
    if HasField(s.fields, name) {
      var k := IndexOf(s.fields, name);
      var r := s.fields[k := s.fields[k].(name := newName)];
      var keys := RenamedKeys(s.primaryKeys, name, newName);
      forall i | 0 <= i < |keys| ensures HasField(r, keys[i]) {
        var j := IndexOf(s.fields, s.primaryKeys[i]);
        assert r[j].name == keys[i];
      }
    }
  }

  lemma AddColumnPassesIff(t: Tables, op: Clause)
    requires Lockstep(t) && op.AddColumn?
    ensures Execute(t, op).Some? <==> Possible(t.mysql.fields, t.mysql.primaryKeys, op)
  {
    SameLookup(t.mysql.fields, t.ch.fields, op.name);
    var field := TableField(op.name, op.mysqlType);
    AddFirstAlike(t.mysql, t.ch, field, TableField(op.name, op.chType));
    var column := match op.position
      case After(column) => column
      case _ => if t.mysql.fields == [] then "" else t.mysql.fields[|t.mysql.fields| - 1].name;
    AddPasses(t.mysql, field, column);
    AddAfterAlike(t.mysql, t.ch, field, TableField(op.name, op.chType), column);
  }

  lemma RenameIfNeededPasses(t: Tables, name: string, newName: string)
    requires Lockstep(t) && HasField(t.mysql.fields, name)
    ensures RenameIfNeeded(t, name, newName).Some?
  {
    RenamePasses(t.mysql, name, newName);
    RenameAlike(t.mysql, t.ch, name, newName);
  }

  lemma RenameColumnPassesIff(t: Tables, op: Clause)
    requires Lockstep(t) && (op.RenameColumn? || op.ChangeColumn?)
    ensures Execute(t, op).Some? <==> OneOfThem(t.mysql.fields, op.oldName, op.newName)
  {
    SameLookup(t.mysql.fields, t.ch.fields, op.oldName);
    SameLookup(t.mysql.fields, t.ch.fields, op.newName);
    var current := CurrentName(t, op.oldName, op.newName);
    if current.Some? {
      if op.RenameColumn? {
        RenameIfNeededPasses(t, current.value, op.newName);
      } else {
        RetypeMirrors(t, t, current.value, op.mysqlType, op.chType);
        RetypedThere(t, current.value, op.mysqlType, op.chType);
        var updated := RetypeIfNeeded(t, current.value, op.mysqlType, op.chType).value;
        SameLookup(t.mysql.fields, updated.mysql.fields, current.value);
        RenameIfNeededPasses(updated, current.value, op.newName);
      }
    }
  }

  /** For structures in lockstep a clause passes exactly when what it needs is there. */
  lemma PassesIff(t: Tables, op: Clause)
    requires Lockstep(t)
    ensures Execute(t, op).Some? <==> Possible(t.mysql.fields, t.mysql.primaryKeys, op)
    ensures Validate(t, op).Some? <==> Possible(t.mysql.fields, t.mysql.primaryKeys, op)
  {
    ValidateIffExecute(t, op);
    match op
    case AddColumn(_, _, _, _) => AddColumnPassesIff(t, op);
    case DropColumn(name) => DropRaisesIff(t, name);
    case ModifyColumn(name, _, _) => SameLookup(t.mysql.fields, t.ch.fields, name);
    case ChangeColumn(_, _, _, _) => RenameColumnPassesIff(t, op);
    case RenameColumn(_, _) => RenameColumnPassesIff(t, op);
    case _ =>
  }

  // ---- Commands

  /** What a command does to the columns of a table, and when it cannot succeed. */
  lemma EffectMeans(columns: seq<TableField>, command: Command)
    ensures Effect(columns, command).None? <==>
            match command
            case AddCommand(field, after) =>
              !HasField(columns, field.name) && after.Some? && !HasField(columns, after.value)
            case RenameCommand(oldName, newName) => HasField(columns, oldName) && HasField(columns, newName)
            case _ => false
    ensures Effect(columns, command).Some? ==>
              var r := Effect(columns, command).value;
              match command
              case AddCommand(field, after) =>
                if HasField(columns, field.name) then r == columns else Added(columns, r, after, field)
              case DropCommand(name) => if HasField(columns, name) then Dropped(columns, r, name) else r == columns
              case ModifyCommand(field) =>
                if HasField(columns, field.name) then Replaced(columns, r, field.name, field) else r == columns
              case RenameCommand(oldName, newName) =>
                if HasField(columns, oldName) then Renamed(columns, r, oldName, newName) else r == columns
  {
    match command
    case AddCommand(field, after) =>
      if after.Some? && HasField(columns, after.value) {
        assert LastAt(columns, LastIndexOf(columns, after.value), after.value);
      }
    case DropCommand(name) =>
      if HasField(columns, name) {
        var i := IndexOf(columns, name);
        assert FirstAt(columns, i, name) && OneMore(RemoveAt(columns, i), columns, i, columns[i]);
      }
    case ModifyCommand(field) =>
      if HasField(columns, field.name) {
        assert FirstAt(columns, IndexOf(columns, field.name), field.name);
      }
    case RenameCommand(oldName, newName) =>
      if HasField(columns, oldName) {
        assert FirstAt(columns, IndexOf(columns, oldName), oldName);
      }
  }
}
