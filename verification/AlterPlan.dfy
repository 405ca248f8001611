/** ALTER TABLE plans: a dry run on a copy, then commands to ClickHouse, each mirrored in two structures. */
module AlterPlan {
  import opened Events
  import opened TableStructures

  datatype Position = First | After(column: string) | Last

  /** A clause as classified and parsed; `Malformed` is one whose parsing raises. */
  datatype Clause =
    | AddColumn(name: string, mysqlType: string, chType: string, position: Position)
    | DropColumn(name: string)
    | ModifyColumn(name: string, mysqlType: string, chType: string)
    | ChangeColumn(oldName: string, newName: string, mysqlType: string, chType: string)
    | RenameColumn(oldName: string, newName: string)
    | SafeNoop
    | Malformed
    | Unsupported

  /** The two recorded structures of a table. */
  datatype Tables = Tables(mysql: Structure, ch: Structure)

  function Both(mysql: Option<Structure>, ch: Option<Structure>): Option<Tables> {
    if mysql.Some? && ch.Some? then Some(Tables(mysql.value, ch.value)) else None
  }

  function AddBoth(t: Tables, name: string, mysqlType: string, chType: string, position: Position): Option<Tables> {
    match position
    case First => Both(AddFirst(t.mysql, TableField(name, mysqlType)), AddFirst(t.ch, TableField(name, chType)))
    case After(column) => Both(AddAfter(t.mysql, TableField(name, mysqlType), column),
                               AddAfter(t.ch, TableField(name, chType), column))
    case Last =>
      if t.mysql.fields == [] then None
      else
        var column := t.mysql.fields[|t.mysql.fields| - 1].name;
        Both(AddAfter(t.mysql, TableField(name, mysqlType), column), AddAfter(t.ch, TableField(name, chType), column))
  }

  function UpdateBoth(t: Tables, name: string, mysqlType: string, chType: string): Option<Tables> {
    Both(Update(t.mysql, TableField(name, mysqlType)), Update(t.ch, TableField(name, chType)))
  }

  function RenameBoth(t: Tables, oldName: string, newName: string): Option<Tables> {
    Both(Rename(t.mysql, oldName, newName), Rename(t.ch, oldName, newName))
  }

  /** The name under which a column to be renamed is found: the old one, or the new one when that has been done
      already. */
  function CurrentName(t: Tables, oldName: string, newName: string): (r: Option<string>)
    ensures r.Some? ==>
              HasField(t.mysql.fields, r.value) && HasField(t.ch.fields, r.value)
              && (r.value == oldName || r.value == newName)
    ensures r.Some? && r.value != newName ==> !HasField(t.mysql.fields, newName) && !HasField(t.ch.fields, newName)
  {
    var mysqlOld, chOld := HasField(t.mysql.fields, oldName), HasField(t.ch.fields, oldName);
    var mysqlNew, chNew := HasField(t.mysql.fields, newName), HasField(t.ch.fields, newName);
    if mysqlOld && chOld && (oldName == newName || (!mysqlNew && !chNew)) then Some(oldName)
    else if oldName != newName && mysqlNew && chNew && !mysqlOld && !chOld then Some(newName)
    else None
  }

  function RenameIfNeeded(t: Tables, current: string, newName: string): Option<Tables> {
    if current == newName then Some(t) else RenameBoth(t, current, newName)
  }

  /** One clause of the dry run; None if it raises. */
  function Validate(t: Tables, op: Clause): Option<Tables> {
    match op
    case AddColumn(name, mysqlType, chType, position) =>
      if HasField(t.mysql.fields, name) != HasField(t.ch.fields, name) then None
      else if HasField(t.mysql.fields, name) then Some(t)
      else AddBoth(t, name, mysqlType, chType, position)
    case DropColumn(name) =>
      if HasField(t.mysql.fields, name) != HasField(t.ch.fields, name) then None
      else if !HasField(t.mysql.fields, name) then Some(t)
      else Both(Remove(t.mysql, name), Remove(t.ch, name))
    case ModifyColumn(name, mysqlType, chType) =>
      if !HasField(t.mysql.fields, name) || !HasField(t.ch.fields, name) then None
      else UpdateBoth(t, name, mysqlType, chType)
    case ChangeColumn(oldName, newName, mysqlType, chType) =>
      var current := CurrentName(t, oldName, newName);
      if current.None? then None
      else
        var updated := UpdateBoth(t, current.value, mysqlType, chType);
        if updated.None? then None else RenameIfNeeded(updated.value, current.value, newName)
    case RenameColumn(oldName, newName) =>
      var current := CurrentName(t, oldName, newName);
      if current.None? then None else RenameIfNeeded(t, current.value, newName)
    case SafeNoop => Some(t)
    case Malformed => None
    case Unsupported => None
  }

  /** One clause of the execution, when every command to ClickHouse succeeds; None if it raises all the same. */
  function Execute(t: Tables, op: Clause): Option<Tables> {
    match op
    case AddColumn(name, mysqlType, chType, position) =>
      if HasField(t.mysql.fields, name) && HasField(t.ch.fields, name) then Some(t)
      else AddBoth(t, name, mysqlType, chType, position)
    case DropColumn(name) =>
      if !HasField(t.mysql.fields, name) && !HasField(t.ch.fields, name) then Some(t)
      else Both(Remove(t.mysql, name), Remove(t.ch, name))
    case ModifyColumn(name, mysqlType, chType) => UpdateBoth(t, name, mysqlType, chType)
    case ChangeColumn(oldName, newName, mysqlType, chType) =>
      var current := CurrentName(t, oldName, newName);
      if current.None? then None
      else
        var updated := RetypeIfNeeded(t, current.value, mysqlType, chType);
        if updated.None? then None else RenameIfNeeded(updated.value, current.value, newName)
    case RenameColumn(oldName, newName) =>
      var current := CurrentName(t, oldName, newName);
      if current.None? then None else RenameIfNeeded(t, current.value, newName)
    case SafeNoop => Some(t)
    case Malformed => None
    case Unsupported => None
  }

  /** CHANGE COLUMN leaves both types alone when the ClickHouse type stays. */
  function RetypeIfNeeded(t: Tables, name: string, mysqlType: string, chType: string): Option<Tables>
    requires HasField(t.ch.fields, name)
  {
    if t.ch.fields[IndexOf(t.ch.fields, name)].fieldType == chType then Some(t)
        else UpdateBoth(t, name, mysqlType, chType)
  }

  function DryRun(t: Tables, ops: seq<Clause>): Option<Tables>
    decreases |ops|
  {
    if ops == [] then Some(t)
    else
      var next := Validate(t, ops[0]);
      if next.None? then None else DryRun(next.value, ops[1..])
  }

  function ExecuteAll(t: Tables, ops: seq<Clause>): Option<Tables>
    decreases |ops|
  {
    if ops == [] then Some(t)
    else
      var next := Execute(t, ops[0]);
      if next.None? then None else ExecuteAll(next.value, ops[1..])
  }

  // ---- The dry run decides what the execution does

  ghost predicate SameNames(a: seq<TableField>, b: seq<TableField>) {
    |a| == |b| && forall i :: 0 <= i < |a| ==> a[i].name == b[i].name
  }

  /** The same names in the same order, and the same keys in the same places. */
  ghost predicate SameShape(a: Structure, b: Structure) {
    SameNames(a.fields, b.fields) && a.primaryKeys == b.primaryKeys && a.primaryKeyIds == b.primaryKeyIds
  }

  /** Equal up to the MySQL types. */
  ghost predicate Mirrors(v: Tables, t: Tables) {
    SameShape(v.mysql, t.mysql) && v.ch == t.ch
  }

  lemma SameLookup(a: seq<TableField>, b: seq<TableField>, name: string)
    requires SameNames(a, b)
    ensures HasField(a, name) <==> HasField(b, name)
    ensures HasField(a, name) ==> IndexOf(a, name) == IndexOf(b, name) && LastIndexOf(a, name) == LastIndexOf(b, name)
  {
  }

  lemma SamePreprocess(a: seq<TableField>, b: seq<TableField>, keys: seq<string>)
    requires SameNames(a, b)
    ensures Preprocess(a, keys).Some? <==> Preprocess(b, keys).Some?
    ensures Preprocess(a, keys).Some? ==> SameShape(Preprocess(a, keys).value, Preprocess(b, keys).value)
  {
  }

  /** Two optional structures exist or not together, and have the same shape if they do. */
  ghost predicate Alike(a: Option<Structure>, b: Option<Structure>) {
    (a.Some? <==> b.Some?) && (a.Some? ==> SameShape(a.value, b.value))
  }

  // What an operation does to names and keys, and whether it raises, does not depend on types.

  lemma AddFirstAlike(a: Structure, b: Structure, x: TableField, y: TableField)
    requires SameShape(a, b) && x.name == y.name
    ensures Alike(AddFirst(a, x), AddFirst(b, y))
  {
  }

  lemma AddAfterAlike(a: Structure, b: Structure, x: TableField, y: TableField, after: string)
    requires SameShape(a, b) && x.name == y.name
    ensures Alike(AddAfter(a, x, after), AddAfter(b, y, after))
  {
    SameLookup(a.fields, b.fields, after);
    if HasField(a.fields, after) {
      var i := LastIndexOf(a.fields, after) + 1;
      SamePreprocess(InsertAt(a.fields, i, x), InsertAt(b.fields, i, y), a.primaryKeys);
    }
  }

  lemma RemoveAlike(a: Structure, b: Structure, name: string)
    requires SameShape(a, b)
    ensures Alike(Remove(a, name), Remove(b, name))
  {
    SameLookup(a.fields, b.fields, name);
    if HasField(a.fields, name) {
      var i := IndexOf(a.fields, name);
      SamePreprocess(RemoveAt(a.fields, i), RemoveAt(b.fields, i), a.primaryKeys);
    }
  }

  lemma UpdateAlike(a: Structure, b: Structure, x: TableField, y: TableField)
    requires SameShape(a, b) && x.name == y.name
    ensures Alike(Update(a, x), Update(b, y))
  {
  }

  lemma RenameAlike(a: Structure, b: Structure, oldName: string, newName: string)
    requires SameShape(a, b)
    ensures Alike(Rename(a, oldName, newName), Rename(b, oldName, newName))
  {
    SameLookup(a.fields, b.fields, oldName);
    if HasField(a.fields, oldName) {
      var i := IndexOf(a.fields, oldName);
      SamePreprocess(a.fields[i := a.fields[i].(name := newName)], b.fields[i := b.fields[i].(name := newName)],
                     RenamedKeys(a.primaryKeys, oldName, newName));
    }
  }

  ghost predicate Mirrored(v: Option<Tables>, t: Option<Tables>) {
    (v.Some? <==> t.Some?) && (v.Some? ==> Mirrors(v.value, t.value))
  }

  lemma AddBothMirrored(v: Tables, t: Tables, name: string, mysqlType: string, chType: string, position: Position)
    requires Mirrors(v, t)
    ensures Mirrored(AddBoth(v, name, mysqlType, chType, position), AddBoth(t, name, mysqlType, chType, position))
  {
    var field := TableField(name, mysqlType);
    AddFirstAlike(v.mysql, t.mysql, field, field);
    match position
    case First =>
    case After(column) => AddAfterAlike(v.mysql, t.mysql, field, field, column);
    case Last =>
      if v.mysql.fields != [] {
        AddAfterAlike(v.mysql, t.mysql, field, field, v.mysql.fields[|v.mysql.fields| - 1].name);
      }
  }

  lemma RenameMirrored(v: Tables, t: Tables, current: string, newName: string)
    requires Mirrors(v, t)
    ensures Mirrored(RenameIfNeeded(v, current, newName), RenameIfNeeded(t, current, newName))
  {
    RenameAlike(v.mysql, t.mysql, current, newName);
  }

  lemma CurrentNameMirrored(v: Tables, t: Tables, oldName: string, newName: string)
    requires Mirrors(v, t)
    ensures CurrentName(v, oldName, newName) == CurrentName(t, oldName, newName)
  {
  }

  /** Execution of a clause that the dry run lets pass does not raise, and keeps mirroring the dry run. */
  lemma ExecuteMirrorsValidate(v: Tables, t: Tables, op: Clause)
    requires Mirrors(v, t) && Validate(v, op).Some?
    ensures Execute(t, op).Some? && Mirrors(Validate(v, op).value, Execute(t, op).value)
  {
    match op
    case AddColumn(name, mysqlType, chType, position) =>
      SameLookup(v.mysql.fields, t.mysql.fields, name);
      AddBothMirrored(v, t, name, mysqlType, chType, position);
    case DropColumn(name) =>
      SameLookup(v.mysql.fields, t.mysql.fields, name);
      RemoveAlike(v.mysql, t.mysql, name);
    case ModifyColumn(name, mysqlType, chType) =>
      UpdateAlike(v.mysql, t.mysql, TableField(name, mysqlType), TableField(name, mysqlType));
    case ChangeColumn(oldName, newName, mysqlType, chType) =>
      ChangeMirrors(v, t, oldName, newName, mysqlType, chType);
    case RenameColumn(oldName, newName) =>
      CurrentNameMirrored(v, t, oldName, newName);
      RenameMirrored(v, t, CurrentName(v, oldName, newName).value, newName);
    case SafeNoop =>
  }

  lemma ChangeMirrors(v: Tables, t: Tables, oldName: string, newName: string, mysqlType: string, chType: string)
    requires Mirrors(v, t) && Validate(v, ChangeColumn(oldName, newName, mysqlType, chType)).Some?
    ensures var op := ChangeColumn(oldName, newName, mysqlType, chType);
            Execute(t, op).Some? && Mirrors(Validate(v, op).value, Execute(t, op).value)
  {
    CurrentNameMirrored(v, t, oldName, newName);
    var current := CurrentName(v, oldName, newName).value;
    RetypeMirrors(v, t, current, mysqlType, chType);
    RenameMirrored(UpdateBoth(v, current, mysqlType, chType).value, RetypeIfNeeded(t, current, mysqlType, chType).value,
                   current, newName);
  }

  /** Setting a type that is there already changes nothing. */
  lemma RetypeMirrors(v: Tables, t: Tables, name: string, mysqlType: string, chType: string)
    requires Mirrors(v, t) && HasField(v.mysql.fields, name) && HasField(v.ch.fields, name)
    ensures UpdateBoth(v, name, mysqlType, chType).Some? && RetypeIfNeeded(t, name, mysqlType, chType).Some?
    ensures Mirrors(UpdateBoth(v, name, mysqlType, chType).value, RetypeIfNeeded(t, name, mysqlType, chType).value)
  {
  }

  /** A plan that passes the dry run cannot raise when it is executed, except in a ClickHouse command, and ends with
      the names, order, key positions and ClickHouse types of the dry run. */
  lemma {:induction false} ExecutionMirrorsDryRun(v: Tables, t: Tables, ops: seq<Clause>)
    requires Mirrors(v, t) && DryRun(v, ops).Some?
    ensures ExecuteAll(t, ops).Some? && Mirrors(DryRun(v, ops).value, ExecuteAll(t, ops).value)
    decreases |ops|
  {
    if ops != [] {
      ExecuteMirrorsValidate(v, t, ops[0]);
      ExecutionMirrorsDryRun(Validate(v, ops[0]).value, Execute(t, ops[0]).value, ops[1..]);
    }
  }

  // ---- What every executed plan keeps

  ghost predicate Unique(fields: seq<TableField>) {
    forall i, j :: 0 <= i < j < |fields| ==> fields[i].name != fields[j].name
  }

  /** Unique names, and key indices that point at the key columns. */
  ghost predicate WellFormed(s: Structure) {
    Unique(s.fields) && KeysPresent(s.fields, s.primaryKeys) && s.primaryKeyIds == KeyIds(s.fields, s.primaryKeys)
  }

  /** Both structures are well formed and in lockstep. */
  ghost predicate Lockstep(t: Tables) {
    WellFormed(t.mysql) && SameShape(t.mysql, t.ch)
  }

  lemma AddedWellFormed(s: Structure, field: TableField, after: string)
    requires WellFormed(s) && !HasField(s.fields, field.name)
    ensures AddFirst(s, field).Some? ==> WellFormed(AddFirst(s, field).value)
    ensures AddAfter(s, field, after).Some? ==> WellFormed(AddAfter(s, field, after).value)
  {
  }

  lemma RemovedWellFormed(s: Structure, name: string)
    requires WellFormed(s) && Remove(s, name).Some?
    ensures WellFormed(Remove(s, name).value)
  {
  }

  lemma UpdatedWellFormed(s: Structure, field: TableField)
    requires WellFormed(s) && Update(s, field).Some?
    ensures WellFormed(Update(s, field).value)
  {
    SamePreprocess(s.fields, Update(s, field).value.fields, s.primaryKeys);
  }

  lemma AddBothLockstep(t: Tables, name: string, mysqlType: string, chType: string, position: Position)
    requires Lockstep(t) && !HasField(t.mysql.fields, name)
    requires AddBoth(t, name, mysqlType, chType, position).Some?
    ensures Lockstep(AddBoth(t, name, mysqlType, chType, position).value)
  {
    var field, chField := TableField(name, mysqlType), TableField(name, chType);
    match position
    case First =>
      AddedWellFormed(t.mysql, field, name);
      AddFirstAlike(t.mysql, t.ch, field, chField);
    case After(column) =>
      AddedWellFormed(t.mysql, field, column);
      AddAfterAlike(t.mysql, t.ch, field, chField, column);
    case Last =>
      var column := t.mysql.fields[|t.mysql.fields| - 1].name;
      AddedWellFormed(t.mysql, field, column);
      AddAfterAlike(t.mysql, t.ch, field, chField, column);
  }

  lemma UpdateBothLockstep(t: Tables, name: string, mysqlType: string, chType: string)
    requires Lockstep(t) && UpdateBoth(t, name, mysqlType, chType).Some?
    ensures Lockstep(UpdateBoth(t, name, mysqlType, chType).value)
  {
    UpdatedWellFormed(t.mysql, TableField(name, mysqlType));
    UpdateAlike(t.mysql, t.ch, TableField(name, mysqlType), TableField(name, chType));
  }

  lemma RenameLockstep(t: Tables, current: string, newName: string)
    requires Lockstep(t) && (current != newName ==> !HasField(t.mysql.fields, newName))
             && RenameIfNeeded(t, current, newName).Some?
    ensures Lockstep(RenameIfNeeded(t, current, newName).value)
  {
  }

  /** Every executed clause keeps the structures well formed and in lockstep. */
  lemma ExecuteKeepsLockstep(t: Tables, op: Clause)
    requires Lockstep(t) && Execute(t, op).Some?
    ensures Lockstep(Execute(t, op).value)
  {
    match op
    case AddColumn(name, mysqlType, chType, position) =>
      SameLookup(t.mysql.fields, t.ch.fields, name);
      if !HasField(t.mysql.fields, name) {
        AddBothLockstep(t, name, mysqlType, chType, position);
      }
    case DropColumn(name) =>
      SameLookup(t.mysql.fields, t.ch.fields, name);
      if HasField(t.mysql.fields, name) {
        RemovedWellFormed(t.mysql, name);
        RemoveAlike(t.mysql, t.ch, name);
      }
    case ModifyColumn(name, mysqlType, chType) => UpdateBothLockstep(t, name, mysqlType, chType);
    case ChangeColumn(oldName, newName, mysqlType, chType) => ChangeKeepsLockstep(t, oldName, newName, mysqlType,
        chType);
    case RenameColumn(oldName, newName) => RenameLockstep(t, CurrentName(t, oldName, newName).value, newName);
    case SafeNoop =>
  }

  lemma ChangeKeepsLockstep(t: Tables, oldName: string, newName: string, mysqlType: string, chType: string)
    requires Lockstep(t) && Execute(t, ChangeColumn(oldName, newName, mysqlType, chType)).Some?
    ensures Lockstep(Execute(t, ChangeColumn(oldName, newName, mysqlType, chType)).value)
  {
    var current := CurrentName(t, oldName, newName).value;
    var updated := RetypeIfNeeded(t, current, mysqlType, chType).value;
    if updated != t {
      UpdateBothLockstep(t, current, mysqlType, chType);
      SameLookup(t.mysql.fields, updated.mysql.fields, newName);
    }
    RenameLockstep(updated, current, newName);
  }

  lemma {:induction false} PlanKeepsLockstep(t: Tables, ops: seq<Clause>)
    requires Lockstep(t) && ExecuteAll(t, ops).Some?
    ensures Lockstep(ExecuteAll(t, ops).value)
    decreases |ops|
  {
    if ops != [] {
      ExecuteKeepsLockstep(t, ops[0]);
      PlanKeepsLockstep(Execute(t, ops[0]).value, ops[1..]);
    }
  }

  /** Dropping a column raises exactly when it is a key column. */
  lemma DropRaisesIff(t: Tables, name: string)
    requires Lockstep(t)
    ensures Validate(t, DropColumn(name)).None? <==> name in t.mysql.primaryKeys
    ensures Execute(t, DropColumn(name)).None? <==> name in t.mysql.primaryKeys
  {
    SameLookup(t.mysql.fields, t.ch.fields, name);
    RemoveAlike(t.mysql, t.ch, name);
    if HasField(t.mysql.fields, name) {
      RemoveRaisesIff(t.mysql, name);
    }
  }

  lemma RemoveRaisesIff(s: Structure, name: string)
    requires WellFormed(s) && HasField(s.fields, name)
    ensures Remove(s, name).None? <==> name in s.primaryKeys
  {
    var i := IndexOf(s.fields, name);
    var r := RemoveAt(s.fields, i);
    assert forall j :: 0 <= j < |r| ==> r[j] == s.fields[if j < i then j else j + 1];
    forall k | 0 <= k < |s.primaryKeys| ensures HasField(r, s.primaryKeys[k]) <==> s.primaryKeys[k] != name {
      var key := s.primaryKeys[k];
      assert HasField(s.fields, key);
      var j := IndexOf(s.fields, key);
      if key != name {
        assert r[if j < i then j else j - 1].name == key;
      }
    }
  }

  /** The key columns stay the same columns, under their new names if they are renamed. */
  lemma KeysOnlyRenamed(t: Tables, op: Clause)
    requires Execute(t, op).Some?
    ensures var keys := Execute(t, op).value.mysql.primaryKeys;
            keys == t.mysql.primaryKeys ||
            ((op.ChangeColumn? || op.RenameColumn?) && keys == RenamedKeys(t.mysql.primaryKeys, op.oldName, op.newName))
  {
  }

  // ---- Replaying a plan

  /** The columns a clause is about. */
  function Touches(op: Clause): set<string> {
    match op
    case AddColumn(name, _, _, _) => {name}
    case DropColumn(name) => {name}
    case ModifyColumn(name, _, _) => {name}
    case ChangeColumn(oldName, newName, _, _) => {oldName, newName}
    case RenameColumn(oldName, newName) => {oldName, newName}
    case SafeNoop => {}
    case Malformed => {}
    case Unsupported => {}
  }

  ghost predicate PairwiseApart(ops: seq<Clause>) {
    forall i, j :: 0 <= i < j < |ops| ==> Touches(ops[i]) !! Touches(ops[j])
  }

  ghost predicate RenameDone(t: Tables, oldName: string, newName: string) {
    && HasField(t.mysql.fields, newName) && HasField(t.ch.fields, newName)
    && (oldName != newName ==> !HasField(t.mysql.fields, oldName) && !HasField(t.ch.fields, oldName))
  }

  /** The effect of a clause is there. */
  ghost predicate Done(t: Tables, op: Clause) {
    match op
    case AddColumn(name, _, _, _) => HasField(t.mysql.fields, name) && HasField(t.ch.fields, name)
    case DropColumn(name) => !HasField(t.mysql.fields, name) && !HasField(t.ch.fields, name)
    case ModifyColumn(name, mysqlType, chType) => TableField(name, mysqlType) in t.mysql.fields
        && TableField(name, chType) in t.ch.fields
    case ChangeColumn(oldName, newName, _, chType) => RenameDone(t, oldName, newName)
        && TableField(newName, chType) in t.ch.fields
    case RenameColumn(oldName, newName) => RenameDone(t, oldName, newName)
    case SafeNoop => true
    case Malformed => false
    case Unsupported => false
  }

  /** A structure holds the same fields of all names but some. */
  ghost predicate SameApartFrom(a: Structure, b: Structure, names: set<string>) {
    forall f: TableField :: f.name !in names ==> (f in a.fields <==> f in b.fields)
  }

  lemma ReplaceApart(fields: seq<TableField>, i: nat, field: TableField, f: TableField)
    requires i < |fields| && f.name != fields[i].name && f.name != field.name
    ensures f in fields[i := field] <==> f in fields
  {
    if f in fields {
      var j :| 0 <= j < |fields| && fields[j] == f;
      assert fields[i := field][j] == f;
    }
  }

  lemma AddApart(s: Structure, field: TableField, after: string)
    ensures AddFirst(s, field).Some? ==> SameApartFrom(s, AddFirst(s, field).value, {field.name})
    ensures AddAfter(s, field, after).Some? ==> SameApartFrom(s, AddAfter(s, field, after).value, {field.name})
  {
  }

  lemma RemoveFieldApart(s: Structure, name: string)
    requires Remove(s, name).Some?
    ensures SameApartFrom(s, Remove(s, name).value, {name})
  {
  }

  lemma UpdateApart(s: Structure, field: TableField)
    requires Update(s, field).Some?
    ensures SameApartFrom(s, Update(s, field).value, {field.name})
  {
    var i := IndexOf(s.fields, field.name);
    forall f: TableField | f.name != field.name ensures f in s.fields <==> f in s.fields[i := field] {
      ReplaceApart(s.fields, i, field, f);
    }
  }

  lemma RenameApart(s: Structure, oldName: string, newName: string)
    requires Rename(s, oldName, newName).Some?
    ensures SameApartFrom(s, Rename(s, oldName, newName).value, {oldName, newName})
  {
    var i := IndexOf(s.fields, oldName);
    var field := s.fields[i].(name := newName);
    forall f: TableField | f.name !in {oldName, newName} ensures f in s.fields <==> f in s.fields[i := field] {
      ReplaceApart(s.fields, i, field, f);
    }
  }

  ghost predicate TablesSameApartFrom(a: Tables, b: Tables, names: set<string>) {
    SameApartFrom(a.mysql, b.mysql, names) && SameApartFrom(a.ch, b.ch, names)
  }

  /** A clause leaves the columns it is not about alone. */
  lemma ExecuteApart(t: Tables, op: Clause)
    requires Execute(t, op).Some?
    ensures TablesSameApartFrom(t, Execute(t, op).value, Touches(op))
  {
    match op
    case AddColumn(name, mysqlType, chType, position) =>
      var column := match position
        case After(after) => after
        case _ => if t.mysql.fields == [] then name else t.mysql.fields[|t.mysql.fields| - 1].name;
      AddApart(t.mysql, TableField(name, mysqlType), column);
      AddApart(t.ch, TableField(name, chType), column);
    case DropColumn(name) =>
      if HasField(t.mysql.fields, name) || HasField(t.ch.fields, name) {
        RemoveFieldApart(t.mysql, name);
        RemoveFieldApart(t.ch, name);
      }
    case ModifyColumn(name, mysqlType, chType) =>
      UpdateApart(t.mysql, TableField(name, mysqlType));
      UpdateApart(t.ch, TableField(name, chType));
    case ChangeColumn(oldName, newName, mysqlType, chType) =>
      var current := CurrentName(t, oldName, newName).value;
      var updated := RetypeIfNeeded(t, current, mysqlType, chType).value;
      RetypeApart(t, current, mysqlType, chType);
      RenameIfNeededApart(updated, current, newName);
    case RenameColumn(oldName, newName) => RenameIfNeededApart(t, CurrentName(t, oldName, newName).value, newName);
    case SafeNoop =>
  }

  lemma RetypeApart(t: Tables, name: string, mysqlType: string, chType: string)
    requires HasField(t.ch.fields, name) && RetypeIfNeeded(t, name, mysqlType, chType).Some?
    ensures TablesSameApartFrom(t, RetypeIfNeeded(t, name, mysqlType, chType).value, {name})
  {
    if UpdateBoth(t, name, mysqlType, chType).Some? {
      UpdateApart(t.mysql, TableField(name, mysqlType));
      UpdateApart(t.ch, TableField(name, chType));
    }
  }

  lemma RenameIfNeededApart(t: Tables, current: string, newName: string)
    requires RenameIfNeeded(t, current, newName).Some?
    ensures TablesSameApartFrom(t, RenameIfNeeded(t, current, newName).value, {current, newName})
  {
    if current != newName {
      RenameApart(t.mysql, current, newName);
      RenameApart(t.ch, current, newName);
    }
  }

  /** An effect that is there stays there while clauses about other columns are executed. */
  lemma DoneKept(a: Tables, b: Tables, op: Clause, names: set<string>)
    requires Done(a, op) && TablesSameApartFrom(a, b, names) && Touches(op) !! names
    ensures Done(b, op)
  {
  }

  lemma AddedThere(s: Structure, field: TableField, after: string)
    ensures AddFirst(s, field).Some? ==> HasField(AddFirst(s, field).value.fields, field.name)
    ensures AddAfter(s, field, after).Some? ==> HasField(AddAfter(s, field, after).value.fields, field.name)
  {
    assert ([field] + s.fields)[0] == field;
    if HasField(s.fields, after) {
      var i := LastIndexOf(s.fields, after) + 1;
      assert InsertAt(s.fields, i, field)[i] == field;
    }
  }

  lemma RemovedGone(s: Structure, name: string)
    requires Unique(s.fields) && Remove(s, name).Some?
    ensures !HasField(Remove(s, name).value.fields, name)
  {
  }

  lemma UpdatedThere(s: Structure, field: TableField)
    requires Update(s, field).Some?
    ensures field in Update(s, field).value.fields
  {
    assert Update(s, field).value.fields[IndexOf(s.fields, field.name)] == field;
  }

  lemma RenamedThere(s: Structure, oldName: string, newName: string)
    requires Unique(s.fields) && oldName != newName && Rename(s, oldName, newName).Some?
    ensures var r := Rename(s, oldName, newName).value.fields;
            && HasField(r, newName) && !HasField(r, oldName)
            && forall fieldType :: TableField(oldName, fieldType) in s.fields ==> TableField(newName, fieldType) in r
  {
    var i := IndexOf(s.fields, oldName);
    var r := Rename(s, oldName, newName).value.fields;
    assert r[i].name == newName;
    forall fieldType | TableField(oldName, fieldType) in s.fields ensures TableField(newName, fieldType) in r {
      var j :| 0 <= j < |s.fields| && s.fields[j] == TableField(oldName, fieldType);
      assert r[j] == TableField(newName, fieldType);
    }
  }

  lemma RenameIsDone(t: Tables, oldName: string, newName: string)
    requires Lockstep(t) && Unique(t.ch.fields) && CurrentName(t, oldName, newName).Some?
    requires RenameIfNeeded(t, CurrentName(t, oldName, newName).value, newName).Some?
    ensures var r := RenameIfNeeded(t, CurrentName(t, oldName, newName).value, newName).value;
            && RenameDone(r, oldName, newName)
            && forall fieldType :: TableField(CurrentName(t, oldName, newName).value, fieldType) in t.ch.fields ==>
                 TableField(newName, fieldType) in r.ch.fields
  {
    var current := CurrentName(t, oldName, newName).value;
    if current != newName {
      RenamedThere(t.mysql, current, newName);
      RenamedThere(t.ch, current, newName);
    }
  }

  /** A clause that has been executed is done. */
  lemma ExecutedIsDone(t: Tables, op: Clause)
    requires Lockstep(t) && Execute(t, op).Some?
    ensures Done(Execute(t, op).value, op)
  {
    assert Unique(t.ch.fields);
    match op
    case AddColumn(name, mysqlType, chType, position) =>
      var column := match position
        case After(after) => after
        case _ => if t.mysql.fields == [] then name else t.mysql.fields[|t.mysql.fields| - 1].name;
      AddedThere(t.mysql, TableField(name, mysqlType), column);
      AddedThere(t.ch, TableField(name, chType), column);
    case DropColumn(name) =>
      if HasField(t.mysql.fields, name) || HasField(t.ch.fields, name) {
        RemovedGone(t.mysql, name);
        RemovedGone(t.ch, name);
      }
    case ModifyColumn(name, mysqlType, chType) =>
      UpdatedThere(t.mysql, TableField(name, mysqlType));
      UpdatedThere(t.ch, TableField(name, chType));
    case ChangeColumn(oldName, newName, mysqlType, chType) => ChangedIsDone(t, oldName, newName, mysqlType, chType);
    case RenameColumn(oldName, newName) => RenameIsDone(t, oldName, newName);
    case SafeNoop =>
  }

  lemma RetypedThere(t: Tables, name: string, mysqlType: string, chType: string)
    requires Lockstep(t) && HasField(t.ch.fields, name) && RetypeIfNeeded(t, name, mysqlType, chType).Some?
    ensures var r := RetypeIfNeeded(t, name, mysqlType, chType).value;
            && Lockstep(r) && TableField(name, chType) in r.ch.fields
            && SameNames(t.mysql.fields, r.mysql.fields) && SameNames(t.ch.fields, r.ch.fields)
  {
    var i := IndexOf(t.ch.fields, name);
    if t.ch.fields[i].fieldType == chType {
      assert t.ch.fields[i] == TableField(name, chType);
    } else {
      UpdatedThere(t.ch, TableField(name, chType));
      UpdateBothLockstep(t, name, mysqlType, chType);
    }
  }

  lemma SameCurrentName(t: Tables, r: Tables, oldName: string, newName: string)
    requires SameNames(t.mysql.fields, r.mysql.fields) && SameNames(t.ch.fields, r.ch.fields)
    ensures CurrentName(t, oldName, newName) == CurrentName(r, oldName, newName)
  {
  }

  lemma ChangedIsDone(t: Tables, oldName: string, newName: string, mysqlType: string, chType: string)
    requires Lockstep(t) && Execute(t, ChangeColumn(oldName, newName, mysqlType, chType)).Some?
    ensures var op := ChangeColumn(oldName, newName, mysqlType, chType); Done(Execute(t, op).value, op)
  {
    var current := CurrentName(t, oldName, newName).value;
    RetypedThere(t, current, mysqlType, chType);
    var updated := RetypeIfNeeded(t, current, mysqlType, chType).value;
    SameCurrentName(t, updated, oldName, newName);
    assert Unique(updated.ch.fields);
    RenameIsDone(updated, oldName, newName);
  }

  lemma UpdateAgain(s: Structure, field: TableField)
    requires Unique(s.fields) && field in s.fields
    ensures HasField(s.fields, field.name) && s.fields[IndexOf(s.fields, field.name)] == field
            && Update(s, field) == Some(s)
  {
    var j :| 0 <= j < |s.fields| && s.fields[j] == field;
    assert HasField(s.fields, field.name);
    assert IndexOf(s.fields, field.name) == j;
    assert s.fields[j := field] == s.fields;
  }

  /** Executing a clause that is done changes nothing. */
  lemma DoneAgain(t: Tables, op: Clause)
    requires Lockstep(t) && Done(t, op)
    ensures Execute(t, op) == Some(t)
  {
    assert Unique(t.ch.fields);
    match op
    case AddColumn(name, mysqlType, chType, position) =>
    case DropColumn(name) =>
    case ModifyColumn(name, mysqlType, chType) =>
      UpdateAgain(t.mysql, TableField(name, mysqlType));
      UpdateAgain(t.ch, TableField(name, chType));
    case ChangeColumn(oldName, newName, mysqlType, chType) => UpdateAgain(t.ch, TableField(newName, chType));
    case RenameColumn(oldName, newName) =>
    case SafeNoop =>
  }

  lemma {:induction false} DoneKeptByPlan(t: Tables, op: Clause, ops: seq<Clause>)
    requires Done(t, op) && ExecuteAll(t, ops).Some?
    requires forall i :: 0 <= i < |ops| ==> Touches(op) !! Touches(ops[i])
    ensures Done(ExecuteAll(t, ops).value, op)
    decreases |ops|
  {
    if ops != [] {
      var next := Execute(t, ops[0]).value;
      ExecuteApart(t, ops[0]);
      DoneKept(t, next, op, Touches(ops[0]));
      DoneKeptByPlan(next, op, ops[1..]);
    }
  }

  lemma {:induction false} PlanIsDone(t: Tables, ops: seq<Clause>)
    requires Lockstep(t) && PairwiseApart(ops) && ExecuteAll(t, ops).Some?
    ensures forall i :: 0 <= i < |ops| ==> Done(ExecuteAll(t, ops).value, ops[i])
    decreases |ops|
  {
    if ops != [] {
      var next := Execute(t, ops[0]).value;
      ExecutedIsDone(t, ops[0]);
      ExecuteKeepsLockstep(t, ops[0]);
      DoneKeptByPlan(next, ops[0], ops[1..]);
      PlanIsDone(next, ops[1..]);
      forall i | 0 <= i < |ops| ensures Done(ExecuteAll(t, ops).value, ops[i]) {
        assert i > 0 ==> ops[i] == ops[1..][i - 1];
      }
    }
  }

  lemma {:induction false} DonePlanAgain(t: Tables, ops: seq<Clause>)
    requires Lockstep(t) && forall i :: 0 <= i < |ops| ==> Done(t, ops[i])
    ensures ExecuteAll(t, ops) == Some(t)
    decreases |ops|
  {
    if ops != [] {
      DoneAgain(t, ops[0]);
      DonePlanAgain(t, ops[1..]);
    }
  }

  /** Executing a plan a second time leaves both structures as they are. */
  lemma ReplayChangesNothing(t: Tables, ops: seq<Clause>)
    requires Lockstep(t) && PairwiseApart(ops) && ExecuteAll(t, ops).Some?
    ensures var r := ExecuteAll(t, ops).value; ExecuteAll(r, ops) == Some(r)
  {
    PlanIsDone(t, ops);
    PlanKeepsLockstep(t, ops);
    DonePlanAgain(ExecuteAll(t, ops).value, ops);
  }

  lemma {:induction false} ExecuteConcat(t: Tables, first: seq<Clause>, later: seq<Clause>)
    requires ExecuteAll(t, first).Some?
    ensures ExecuteAll(t, first + later) == ExecuteAll(ExecuteAll(t, first).value, later)
    decreases |first|
  {
    if first == [] {
      assert first + later == later;
    } else {
      assert (first + later)[1..] == first[1..] + later;
      ExecuteConcat(Execute(t, first[0]).value, first[1..], later);
    }
  }

  /** For structures in lockstep the dry run raises exactly when the execution would. */
  lemma ValidateIffExecute(t: Tables, op: Clause)
    requires Lockstep(t)
    ensures Validate(t, op).Some? <==> Execute(t, op).Some?
  {
    if Validate(t, op).Some? {
      ExecuteMirrorsValidate(t, t, op);
    }
    match op
    case AddColumn(name, mysqlType, chType, position) => SameLookup(t.mysql.fields, t.ch.fields, name);
    case DropColumn(name) => SameLookup(t.mysql.fields, t.ch.fields, name);
    case ChangeColumn(oldName, newName, mysqlType, chType) =>
      if Execute(t, op).Some? {
        ChangeValidates(t, oldName, newName, mysqlType, chType);
      }
    case _ =>
  }

  lemma ChangeValidates(t: Tables, oldName: string, newName: string, mysqlType: string, chType: string)
    requires Execute(t, ChangeColumn(oldName, newName, mysqlType, chType)).Some?
    ensures Validate(t, ChangeColumn(oldName, newName, mysqlType, chType)).Some?
  {
    var current := CurrentName(t, oldName, newName).value;
    RetypeMirrors(t, t, current, mysqlType, chType);
    RenameMirrored(UpdateBoth(t, current, mysqlType, chType).value, RetypeIfNeeded(t, current, mysqlType, chType).value,
                   current, newName);
  }

  lemma ValidateMirrored(v: Tables, t: Tables, op: Clause)
    requires Mirrors(v, t)
    ensures Mirrored(Validate(v, op), Validate(t, op))
  {
    match op
    case AddColumn(name, mysqlType, chType, position) =>
      SameLookup(v.mysql.fields, t.mysql.fields, name);
      AddBothMirrored(v, t, name, mysqlType, chType, position);
    case DropColumn(name) =>
      SameLookup(v.mysql.fields, t.mysql.fields, name);
      RemoveAlike(v.mysql, t.mysql, name);
    case ModifyColumn(name, mysqlType, chType) =>
      SameLookup(v.mysql.fields, t.mysql.fields, name);
      UpdateAlike(v.mysql, t.mysql, TableField(name, mysqlType), TableField(name, mysqlType));
    case ChangeColumn(oldName, newName, mysqlType, chType) =>
      CurrentNameMirrored(v, t, oldName, newName);
      var current := CurrentName(v, oldName, newName);
      if current.Some? {
        var field := TableField(current.value, mysqlType);
        UpdateAlike(v.mysql, t.mysql, field, field);
        RenameMirrored(UpdateBoth(v, current.value, mysqlType, chType).value,
                       UpdateBoth(t, current.value, mysqlType, chType).value, current.value, newName);
      }
    case RenameColumn(oldName, newName) =>
      CurrentNameMirrored(v, t, oldName, newName);
      var current := CurrentName(v, oldName, newName);
      if current.Some? {
        RenameMirrored(v, t, current.value, newName);
      }
    case _ =>
  }

  /** For structures in lockstep a plan passes the dry run exactly when it can be executed. */
  lemma {:induction false} DryRunIffExecutable(v: Tables, t: Tables, ops: seq<Clause>)
    requires Mirrors(v, t) && Lockstep(t)
    ensures DryRun(v, ops).Some? <==> ExecuteAll(t, ops).Some?
    decreases |ops|
  {
    if ops != [] {
      ValidateMirrored(v, t, ops[0]);
      ValidateIffExecute(t, ops[0]);
      if Validate(v, ops[0]).Some? {
        ExecuteMirrorsValidate(v, t, ops[0]);
        ExecuteKeepsLockstep(t, ops[0]);
        DryRunIffExecutable(Validate(v, ops[0]).value, Execute(t, ops[0]).value, ops[1..]);
      }
    }
  }
}
