/** The commands an ALTER TABLE plan sends to ClickHouse, and what they do to a table that may be ahead of the
    recorded structures. */
module AlterCommands {
  import opened Events
  import opened TableStructures
  import opened AlterPlan

  /** The commands sent to ClickHouse; every one carries IF EXISTS or IF NOT EXISTS. */
  datatype Command =
    | AddCommand(field: TableField, after: Option<string>)
    | DropCommand(name: string)
    | ModifyCommand(field: TableField)
    | RenameCommand(oldName: string, newName: string)

  /** What a command does to the columns of a table; None if it cannot succeed. */
  function Effect(columns: seq<TableField>, command: Command): Option<seq<TableField>> {
    match command
    case AddCommand(field, after) =>
      if HasField(columns, field.name) then Some(columns)
      else if after.None? then Some([field] + columns)
      else if !HasField(columns, after.value) then None
      else Some(InsertAt(columns, LastIndexOf(columns, after.value) + 1, field))
    case DropCommand(name) =>
      if !HasField(columns, name) then Some(columns) else Some(RemoveAt(columns, IndexOf(columns, name)))
    case ModifyCommand(field) =>
      if !HasField(columns, field.name) then Some(columns) else Some(columns[IndexOf(columns, field.name) := field])
    case RenameCommand(oldName, newName) =>
      if !HasField(columns, oldName) then Some(columns)
      else if HasField(columns, newName) then None
      else
        var i := IndexOf(columns, oldName);
        Some(columns[i := columns[i].(name := newName)])
  }

  lemma AddTwice(columns: seq<TableField>, field: TableField, i: nat)
    requires Unique(columns) && i <= |columns| && !HasField(columns, field.name)
    ensures Unique(InsertAt(columns, i, field)) && HasField(InsertAt(columns, i, field), field.name)
  {
    var r := InsertAt(columns, i, field);
    assert r[i] == field;
    forall j, k | 0 <= j < k < |r| ensures r[j].name != r[k].name {
      assert j != i ==> r[j] == columns[if j < i then j else j - 1];
      assert k != i ==> r[k] == columns[if k < i then k else k - 1];
    }
  }

  lemma DropTwice(columns: seq<TableField>, name: string)
    requires Unique(columns) && HasField(columns, name)
    ensures Unique(RemoveAt(columns, IndexOf(columns, name)))
            && !HasField(RemoveAt(columns, IndexOf(columns, name)), name)
  {
    var i := IndexOf(columns, name);
    var r := RemoveAt(columns, i);
    assert forall j :: 0 <= j < |r| ==> r[j] == columns[if j < i then j else j + 1];
  }

  lemma ModifyTwice(columns: seq<TableField>, field: TableField)
    requires Unique(columns) && HasField(columns, field.name)
    ensures var i := IndexOf(columns, field.name);
            var r := columns[i := field];
            Unique(r) && HasField(r, field.name) && IndexOf(r, field.name) == i && r[i := field] == r
  {
    var i := IndexOf(columns, field.name);
    SameLookup(columns, columns[i := field], field.name);
  }

  lemma RenameTwice(columns: seq<TableField>, oldName: string, newName: string)
    requires Unique(columns) && HasField(columns, oldName) && !HasField(columns, newName)
    ensures var i := IndexOf(columns, oldName);
            var r := columns[i := columns[i].(name := newName)];
            Unique(r) && !HasField(r, oldName) && HasField(r, newName)
  {
    var i := IndexOf(columns, oldName);
    var r := columns[i := columns[i].(name := newName)];
    assert r[i].name == newName;
  }

  /** A command that has taken effect takes effect again without changing anything, so it may be repeated. */
  lemma EffectTwice(columns: seq<TableField>, command: Command)
    requires Unique(columns) && Effect(columns, command).Some?
    ensures Unique(Effect(columns, command).value)
    ensures Effect(Effect(columns, command).value, command) == Effect(columns, command)
  {
    match command
    case AddCommand(field, after) =>
      if !HasField(columns, field.name) {
        var i := if after.None? then 0 else LastIndexOf(columns, after.value) + 1;
        AddTwice(columns, field, i);
        assert InsertAt(columns, 0, field) == [field] + columns;
      }
    case DropCommand(name) =>
      if HasField(columns, name) {
        DropTwice(columns, name);
      }
    case ModifyCommand(field) =>
      if HasField(columns, field.name) {
        ModifyTwice(columns, field);
      }
    case RenameCommand(oldName, newName) =>
      if HasField(columns, oldName) {
        RenameTwice(columns, oldName, newName);
      }
  }

  function RunCommands(columns: seq<TableField>, commands: seq<Command>): Option<seq<TableField>> {
    if commands == [] then Some(columns)
    else
      var r := RunCommands(columns, commands[..|commands| - 1]);
      if r.None? then None else Effect(r.value, commands[|commands| - 1])
  }

  /** Where ADD COLUMN puts the column: behind another one, or first. */
  function AfterOf(t: Tables, position: Position): Option<string>
    requires position.Last? ==> t.mysql.fields != []
  {
    match position
    case First => None
    case After(column) => Some(column)
    case Last => Some(t.mysql.fields[|t.mysql.fields| - 1].name)
  }

  /** CHANGE COLUMN sets the type if ClickHouse's is another one, and then the name if it is another one. */
  function RetypeCommands(t: Tables, name: string, chType: string): seq<Command>
    requires HasField(t.ch.fields, name)
  {
    if t.ch.fields[IndexOf(t.ch.fields, name)].fieldType == chType then []
        else [ModifyCommand(TableField(name, chType))]
  }

  function RenameCommands(current: string, newName: string): seq<Command> {
    if current == newName then [] else [RenameCommand(current, newName)]
  }

  /** The commands a clause sends, given the recorded structures. */
  function Commands(t: Tables, op: Clause): seq<Command> {
    match op
    case AddColumn(name, _, chType, position) =>
      if (HasField(t.mysql.fields, name) && HasField(t.ch.fields, name))
          || (position.Last? && t.mysql.fields == []) then []
      else [AddCommand(TableField(name, chType), AfterOf(t, position))]
    case DropColumn(name) =>
      if !HasField(t.mysql.fields, name) && !HasField(t.ch.fields, name) then [] else [DropCommand(name)]
    case ModifyColumn(name, _, chType) => [ModifyCommand(TableField(name, chType))]
    case ChangeColumn(oldName, newName, _, chType) =>
      var current := CurrentName(t, oldName, newName);
      if current.None? then []
      else RetypeCommands(t, current.value, chType) + RenameCommands(current.value, newName)
    case RenameColumn(oldName, newName) =>
      var current := CurrentName(t, oldName, newName);
      if current.None? then [] else RenameCommands(current.value, newName)
    case SafeNoop => []
    case Malformed => []
    case Unsupported => []
  }

  lemma RunOne(columns: seq<TableField>, command: Command)
    ensures RunCommands(columns, [command]) == Effect(columns, command)
  {
    assert [command][..0] == [];
    assert RunCommands(columns, []) == Some(columns);
  }

  lemma {:induction false} RunConcat(columns: seq<TableField>, a: seq<Command>, b: seq<Command>)
    ensures RunCommands(columns, a + b) ==
            if RunCommands(columns, a).None? then None else RunCommands(RunCommands(columns, a).value, b)
  {
    if b == [] {
      assert a + b == a;
    } else {
      assert (a + b)[..|a + b| - 1] == a + b[..|b| - 1];
      RunConcat(columns, a, b[..|b| - 1]);
    }
  }

  /** On a table as recorded, the commands of a clause that passes the dry run can succeed, and do to the table what
      the execution does to its record. */
  lemma CommandsAreMirrored(t: Tables, op: Clause)
    requires Validate(t, op).Some?
    ensures Execute(t, op).Some? && RunCommands(t.ch.fields, Commands(t, op)) == Some(Execute(t, op).value.ch.fields)
  {
    ExecuteMirrorsValidate(t, t, op);
    var columns := t.ch.fields;
    match op
    case AddColumn(name, mysqlType, chType, position) =>
      if !HasField(columns, name) {
        RunOne(columns, AddCommand(TableField(name, chType), AfterOf(t, position)));
      }
    case DropColumn(name) => RunOne(columns, DropCommand(name));
    case ModifyColumn(name, mysqlType, chType) => RunOne(columns, ModifyCommand(TableField(name, chType)));
    case ChangeColumn(oldName, newName, mysqlType, chType) => ChangeIsMirrored(t, oldName, newName, mysqlType, chType);
    case RenameColumn(oldName, newName) =>
      RunOne(columns, RenameCommand(CurrentName(t, oldName, newName).value, newName));
    case SafeNoop =>
  }

  lemma ChangeIsMirrored(t: Tables, oldName: string, newName: string, mysqlType: string, chType: string)
    requires var op := ChangeColumn(oldName, newName, mysqlType, chType); Validate(t, op).Some? && Execute(t, op).Some?
    ensures var op := ChangeColumn(oldName, newName, mysqlType, chType);
            RunCommands(t.ch.fields, Commands(t, op)) == Some(Execute(t, op).value.ch.fields)
  {
    var current := CurrentName(t, oldName, newName).value;
    var updated := RetypeIfNeeded(t, current, mysqlType, chType).value;
    RunConcat(t.ch.fields, RetypeCommands(t, current, chType), RenameCommands(current, newName));
    RetypeIsMirrored(t, current, mysqlType, chType);
    SameLookup(t.ch.fields, updated.ch.fields, newName);
    RenameIsMirrored(updated, current, newName);
  }

  lemma RetypeIsMirrored(t: Tables, name: string, mysqlType: string, chType: string)
    requires HasField(t.ch.fields, name) && RetypeIfNeeded(t, name, mysqlType, chType).Some?
    ensures var columns := RetypeIfNeeded(t, name, mysqlType, chType).value.ch.fields;
            RunCommands(t.ch.fields, RetypeCommands(t, name, chType)) == Some(columns)
                && SameNames(t.ch.fields, columns)
  {
    RunOne(t.ch.fields, ModifyCommand(TableField(name, chType)));
  }

  lemma RenameIsMirrored(t: Tables, current: string, newName: string)
    requires RenameIfNeeded(t, current, newName).Some? && (current != newName ==> !HasField(t.ch.fields, newName))
    ensures RunCommands(t.ch.fields, RenameCommands(current, newName)) ==
            Some(RenameIfNeeded(t, current, newName).value.ch.fields)
  {
    RunOne(t.ch.fields, RenameCommand(current, newName));
  }

  // ---- Whole plans, on a table that may be ahead

  /** The columns after all commands of a plan executed from the structures `t`; None if one cannot succeed. */
  function RunPlan(t: Tables, columns: seq<TableField>, ops: seq<Clause>): Option<seq<TableField>>
    decreases |ops|
  {
    if ops == [] then Some(columns)
    else
      var next, r := Execute(t, ops[0]), RunCommands(columns, Commands(t, ops[0]));
      if next.None? || r.None? then None else RunPlan(next.value, r.value, ops[1..])
  }

  lemma {:induction false} RunPlanConcat(t: Tables, columns: seq<TableField>, a: seq<Clause>, b: seq<Clause>)
    requires ExecuteAll(t, a).Some? && RunPlan(t, columns, a).Some?
    ensures RunPlan(t, columns, a + b) == RunPlan(ExecuteAll(t, a).value, RunPlan(t, columns, a).value, b)
    decreases |a|
  {
    if a == [] {
      assert a + b == b;
    } else {
      assert (a + b)[1..] == a[1..] + b;
      RunPlanConcat(Execute(t, a[0]).value, RunCommands(columns, Commands(t, a[0])).value, a[1..], b);
    }
  }

  /** On a table as recorded, a plan that passes the dry run can succeed and leaves the table as recorded. */
  lemma {:induction false} PlanIsMirrored(v: Tables, t: Tables, ops: seq<Clause>)
    requires Mirrors(v, t) && DryRun(v, ops).Some?
    ensures ExecuteAll(t, ops).Some? && RunPlan(t, t.ch.fields, ops) == Some(ExecuteAll(t, ops).value.ch.fields)
    decreases |ops|
  {
    if ops != [] {
      ValidateMirrored(v, t, ops[0]);
      CommandsAreMirrored(t, ops[0]);
      ExecuteMirrorsValidate(v, t, ops[0]);
      PlanIsMirrored(Validate(v, ops[0]).value, Execute(t, ops[0]).value, ops[1..]);
    }
  }

  /** The columns when the clauses before ops[k], and then j commands of ops[k], have taken effect. */
  function Partial(t: Tables, columns: seq<TableField>, ops: seq<Clause>, k: nat, j: nat): Option<seq<TableField>>
    requires k <= |ops|
  {
    var before, r := ExecuteAll(t, ops[..k]), RunPlan(t, columns, ops[..k]);
    if before.None? || r.None? then None
    else if k == |ops| then r
    else
      var commands := Commands(before.value, ops[k]);
      if j > |commands| then None else RunCommands(r.value, commands[..j])
  }
}
