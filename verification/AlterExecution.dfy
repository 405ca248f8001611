/** Executing ALTER TABLE plans against ClickHouse. */
module AlterExecution {
  import opened Events
  import opened TableStructures
  import opened AlterPlan
  import opened AlterCommands
  import opened AlterReplay
  import ClickHouse
  import opened Sequences

  /** A table in ClickHouse. */
  class ClickhouseTable {
    var columns: seq<TableField>
    /** The commands it was sent. */
    var sent: seq<Command>
    /** Attempts that failed, for reasons of their own and not because the command cannot succeed. */
    ghost var failures: nat

    ghost predicate Valid()
      reads this
    {
      Unique(columns)
    }

    /** A command that is repeated until it reports success, at most five times; a failed attempt may have taken
        effect. It is given up after five failures, or because it cannot succeed. */
    method ExecuteCommand(command: Command) returns (ok: bool, ghost executed: bool)
      requires Valid()
      modifies this
      ensures Valid() && sent == old(sent) + [command] && (ok ==> executed)
      ensures if executed then Effect(old(columns), command) == Some(columns) else columns == old(columns)
      ensures old(failures) <= failures <= old(failures) + 5
      ensures ok <==> failures < old(failures) + 5 && Effect(old(columns), command).Some?
    {
      sent := sent + [command];
      ok, executed := false, false;
      var attempt := 0;
      while attempt < ClickHouse.ClickhouseApi.MAX_RETRIES && !ok
        invariant Valid() && sent == old(sent) + [command] && (ok ==> executed)
        invariant if executed then Effect(old(columns), command) == Some(columns) else columns == old(columns)
        invariant old(failures) <= failures <= old(failures) + attempt <= old(failures) + 5
        invariant executed ==> Effect(columns, command).Some?
        invariant if ok then failures < old(failures) + 5 && Effect(old(columns), command).Some?
                  else failures == old(failures) + attempt || Effect(old(columns), command).None?
        decreases ClickHouse.ClickhouseApi.MAX_RETRIES - attempt
      {
        var failed: bool := *;
        var effective: bool := *;
        failures := failures + if failed then 1 else 0;
        var effect := Effect(columns, command);
        if effect.Some? && (effective || !failed) {
          EffectTwice(old(columns), command);
          columns := effect.value;
          executed := true;
          ok := !failed;
        }
        attempt := attempt + 1;
      }
    }
  }

  /** How far the commands of a clause got when one of them failed: which one, and how many have taken effect. */
  datatype Stop = Stop(command: Command, effective: nat)

  /** Completed; an exception from a ClickHouse command; any other exception. */
  datatype Result = Completed | CommandFailed | Raised

  /** The replicator's side of a table. */
  class Converter {
    const mysql: TableStructure
    const ch: TableStructure
    const clickhouse: ClickhouseTable

    constructor (mysql: TableStructure, ch: TableStructure, clickhouse: ClickhouseTable)
      requires mysql != ch
      ensures this.mysql == mysql && this.ch == ch && this.clickhouse == clickhouse
    {
      this.mysql := mysql;
      this.ch := ch;
      this.clickhouse := clickhouse;
    }

    function Value(): Tables
      reads mysql, ch
    {
      Tables(mysql.Value(), ch.Value())
    }

    /** The recorded ClickHouse columns are the actual ones. */
    predicate Accurate()
      reads ch, clickhouse
    {
      ch.fields == clickhouse.columns
    }

    /** The clause has been executed: on the structures, and by its commands on whatever the columns were. */
    ghost predicate CarriedOut(t: Tables, columns: seq<TableField>, op: Clause)
      reads mysql, ch, clickhouse
    {
      Some(Value()) == Execute(t, op) && Some(clickhouse.columns) == RunCommands(columns, Commands(t, op))
    }

    /** A command of the clause has failed: some of the commands have taken effect, perhaps the failed one too. */
    ghost predicate Stopped(t: Tables, columns: seq<TableField>, op: Clause, stop: Stop)
      reads clickhouse
    {
      StoppedAt(columns, Commands(t, op), stop)
    }

    /** A command fails after five failures of its attempts, or because it cannot succeed. */
    twostate predicate GivesUpFor(result: Result, impossible: bool)
      reads clickhouse
    {
      && old(clickhouse.failures) <= clickhouse.failures
      && (result.CommandFailed? ==> impossible || clickhouse.failures >= old(clickhouse.failures) + 5)
    }

    /** ALTER TABLE ... ADD COLUMN. */
    method ConvertAddColumn(op: Clause) returns (result: Result, ghost stop: Stop)
      requires op.AddColumn? && mysql != ch && clickhouse.Valid() && Validate(Value(), op).Some?
      modifies mysql, ch, clickhouse
      ensures clickhouse.Valid() && result != Raised
      ensures result.Completed? ==>
                CarriedOut(old(Value()), old(clickhouse.columns), op)
                && clickhouse.sent == old(clickhouse.sent) + Commands(old(Value()), op)
      ensures result.CommandFailed? ==> Stopped(old(Value()), old(clickhouse.columns), op, stop)
      ensures GivesUpFor(result, RunCommands(old(clickhouse.columns), Commands(old(Value()), op)).None?)
      ensures result.CommandFailed? && old(Accurate()) ==>
                Accurate() || Some(clickhouse.columns) == Effect(ch.fields, stop.command)
    {
      var inMysql := mysql.HasFieldNamed(op.name);
      var inCh := ch.HasFieldNamed(op.name);
      stop := Stop(DropCommand(""), 0);
      if inMysql && inCh {
        return Completed, stop;
      }
      ghost var t, columns := Value(), clickhouse.columns;
      ExecuteMirrorsValidate(t, t, op);
      var after := AfterOf(Value(), op.position);
      var command := AddCommand(TableField(op.name, op.chType), after);
      var ok;
      ghost var executed;
      ok, executed := clickhouse.ExecuteCommand(command);
      stop := StopOf(columns, command, executed);
      if !ok {
        return CommandFailed, stop;
      }
      ok := AddToBoth(op.name, op.mysqlType, op.chType, after);
      return if ok then Completed else Raised, stop;
    }

    method AddToBoth(name: string, mysqlType: string, chType: string, after: Option<string>) returns (ok: bool)
      requires mysql != ch
      modifies mysql, ch
      ensures var position := if after.None? then First else After(after.value);
              var added := AddBoth(old(Value()), name, mysqlType, chType, position);
              (ok <==> added.Some?) && (ok ==> Some(Value()) == added)
    {
      if after.None? {
        ok := mysql.AddFieldFirst(TableField(name, mysqlType));
        if ok {
          ok := ch.AddFieldFirst(TableField(name, chType));
        }
      } else {
        ok := mysql.AddFieldAfter(TableField(name, mysqlType), after.value);
        if ok {
          ok := ch.AddFieldAfter(TableField(name, chType), after.value);
        }
      }
    }

    /** ALTER TABLE ... DROP COLUMN. */
    method ConvertDropColumn(op: Clause) returns (result: Result, ghost stop: Stop)
      requires op.DropColumn? && mysql != ch && clickhouse.Valid() && Validate(Value(), op).Some?
      modifies mysql, ch, clickhouse
      ensures clickhouse.Valid() && result != Raised
      ensures result.Completed? ==>
                CarriedOut(old(Value()), old(clickhouse.columns), op)
                && clickhouse.sent == old(clickhouse.sent) + Commands(old(Value()), op)
      ensures result.CommandFailed? ==> Stopped(old(Value()), old(clickhouse.columns), op, stop)
      ensures GivesUpFor(result, RunCommands(old(clickhouse.columns), Commands(old(Value()), op)).None?)
      ensures result.CommandFailed? && old(Accurate()) ==>
                Accurate() || Some(clickhouse.columns) == Effect(ch.fields, stop.command)
    {
      var inMysql := mysql.HasFieldNamed(op.name);
      var inCh := ch.HasFieldNamed(op.name);
      stop := Stop(DropCommand(""), 0);
      if !inMysql && !inCh {
        return Completed, stop;
      }
      ghost var t, columns := Value(), clickhouse.columns;
      ExecuteMirrorsValidate(t, t, op);
      var ok;
      ghost var executed;
      ok, executed := clickhouse.ExecuteCommand(DropCommand(op.name));
      stop := StopOf(columns, DropCommand(op.name), executed);
      if !ok {
        return CommandFailed, stop;
      }
      ok := mysql.RemoveField(op.name);
      if ok {
        ok := ch.RemoveField(op.name);
      }
      return if ok then Completed else Raised, stop;
    }

    /** ALTER TABLE ... MODIFY COLUMN. */
    method ConvertModifyColumn(op: Clause) returns (result: Result, ghost stop: Stop)
      requires op.ModifyColumn? && mysql != ch && clickhouse.Valid() && Validate(Value(), op).Some?
      modifies mysql, ch, clickhouse
      ensures clickhouse.Valid() && result != Raised
      ensures result.Completed? ==>
                CarriedOut(old(Value()), old(clickhouse.columns), op)
                && clickhouse.sent == old(clickhouse.sent) + Commands(old(Value()), op)
      ensures result.CommandFailed? ==> Stopped(old(Value()), old(clickhouse.columns), op, stop)
      ensures GivesUpFor(result, RunCommands(old(clickhouse.columns), Commands(old(Value()), op)).None?)
      ensures result.CommandFailed? && old(Accurate()) ==>
                Accurate() || Some(clickhouse.columns) == Effect(ch.fields, stop.command)
    {
      ghost var columns := clickhouse.columns;
      ghost var executed;
      result, executed := Retype(op.name, op.mysqlType, op.chType);
      stop := StopOf(columns, ModifyCommand(TableField(op.name, op.chType)), executed);
    }

    /** Changes the type of a column. */
    method Retype(name: string, mysqlType: string, chType: string) returns (result: Result, ghost executed: bool)
      requires mysql != ch && clickhouse.Valid() && HasField(mysql.fields, name) && HasField(ch.fields, name)
      modifies mysql, ch, clickhouse
      ensures clickhouse.Valid() && result != Raised
              && clickhouse.sent == old(clickhouse.sent) + [ModifyCommand(TableField(name, chType))]
      ensures if executed then Effect(old(clickhouse.columns), ModifyCommand(TableField(name, chType))) ==
              Some(clickhouse.columns)
              else clickhouse.columns == old(clickhouse.columns)
      ensures result.Completed? ==> executed && Some(Value()) == UpdateBoth(old(Value()), name, mysqlType, chType)
      ensures result.CommandFailed? ==> Value() == old(Value())
      ensures GivesUpFor(result, Effect(old(clickhouse.columns), ModifyCommand(TableField(name, chType))).None?)
    {
      var ok;
      ok, executed := clickhouse.ExecuteCommand(ModifyCommand(TableField(name, chType)));
      if !ok {
        return CommandFailed, executed;
      }
      ok := UpdateInBoth(name, mysqlType, chType);
      return if ok then Completed else Raised, executed;
    }

    /** Changes the name of a column. */
    method Rename(current: string, newName: string) returns (result: Result, ghost executed: bool)
      requires mysql != ch && clickhouse.Valid() && RenameBoth(Value(), current, newName).Some?
      modifies mysql, ch, clickhouse
      ensures clickhouse.Valid() && result != Raised
              && clickhouse.sent == old(clickhouse.sent) + [RenameCommand(current, newName)]
      ensures if executed then Effect(old(clickhouse.columns), RenameCommand(current, newName)) ==
              Some(clickhouse.columns)
              else clickhouse.columns == old(clickhouse.columns)
      ensures result.Completed? ==> executed && Some(Value()) == RenameBoth(old(Value()), current, newName)
      ensures result.CommandFailed? ==> Value() == old(Value())
      ensures GivesUpFor(result, Effect(old(clickhouse.columns), RenameCommand(current, newName)).None?)
    {
      var ok;
      ok, executed := clickhouse.ExecuteCommand(RenameCommand(current, newName));
      if !ok {
        return CommandFailed, executed;
      }
      ok := RenameInBoth(current, newName);
      return if ok then Completed else Raised, executed;
    }

    method GetCurrentName(oldName: string, newName: string) returns (r: Option<string>)
      ensures r == CurrentName(Value(), oldName, newName)
    {
      var mysqlOld := mysql.HasFieldNamed(oldName);
      var chOld := ch.HasFieldNamed(oldName);
      var mysqlNew := mysql.HasFieldNamed(newName);
      var chNew := ch.HasFieldNamed(newName);
      if mysqlOld && chOld && (oldName == newName || (!mysqlNew && !chNew)) {
        return Some(oldName);
      }
      if oldName != newName && mysqlNew && chNew && !mysqlOld && !chOld {
        return Some(newName);
      }
      return None;
    }

    /** ALTER TABLE ... RENAME COLUMN. */
    method ConvertRenameColumn(op: Clause) returns (result: Result, ghost stop: Stop)
      requires op.RenameColumn? && mysql != ch && clickhouse.Valid() && Validate(Value(), op).Some?
      modifies mysql, ch, clickhouse
      ensures clickhouse.Valid() && result != Raised
      ensures result.Completed? ==>
                CarriedOut(old(Value()), old(clickhouse.columns), op)
                && clickhouse.sent == old(clickhouse.sent) + Commands(old(Value()), op)
      ensures result.CommandFailed? ==> Stopped(old(Value()), old(clickhouse.columns), op, stop)
      ensures GivesUpFor(result, RunCommands(old(clickhouse.columns), Commands(old(Value()), op)).None?)
      ensures result.CommandFailed? && old(Accurate()) ==>
                Accurate() || Some(clickhouse.columns) == Effect(ch.fields, stop.command)
    {
      var current := GetCurrentName(op.oldName, op.newName);
      stop := Stop(DropCommand(""), 0);
      if current.value == op.newName {
        return Completed, stop;
      }
      ghost var columns := clickhouse.columns;
      ghost var executed;
      result, executed := Rename(current.value, op.newName);
      stop := StopOf(columns, RenameCommand(current.value, op.newName), executed);
    }

    /** ALTER TABLE ... CHANGE COLUMN: up to two commands, of which the second may fail after the first has
        succeeded. */
    method ConvertChangeColumn(op: Clause) returns (result: Result, ghost stop: Stop)
      requires op.ChangeColumn? && mysql != ch && clickhouse.Valid() && Validate(Value(), op).Some?
      modifies mysql, ch, clickhouse
      ensures clickhouse.Valid() && result != Raised
      ensures result.Completed? ==>
                CarriedOut(old(Value()), old(clickhouse.columns), op)
                && clickhouse.sent == old(clickhouse.sent) + Commands(old(Value()), op)
      ensures result.CommandFailed? ==> Stopped(old(Value()), old(clickhouse.columns), op, stop)
      ensures GivesUpFor(result, RunCommands(old(clickhouse.columns), Commands(old(Value()), op)).None?)
      ensures result.CommandFailed? && old(Accurate()) ==>
                Accurate() || Some(clickhouse.columns) == Effect(ch.fields, stop.command)
    {
      ghost var t, columns := Value(), clickhouse.columns;
      ExecuteMirrorsValidate(t, t, op);
      var current := GetCurrentName(op.oldName, op.newName);
      ghost var retype, rename :=
          RetypeCommands(t, current.value, op.chType), RenameCommands(current.value, op.newName);
      assert Commands(t, op) == retype + rename;
      ghost var sent := clickhouse.sent;
      result, stop := ChangeType(current.value, op.mysqlType, op.chType);
      if result.CommandFailed? {
        StoppedInFirst(columns, retype, rename, stop.effective);
        return;
      }
      result, stop := ChangeName(current.value, op.newName);
      RunConcat(columns, retype, rename);
      Associative(sent, retype, rename);
      if result.CommandFailed? {
        StoppedInLast(columns, retype, rename, stop.effective);
        stop := stop.(effective := |retype| + stop.effective);
      }
    }

    /** The first part of CHANGE COLUMN. */
    method ChangeType(name: string, mysqlType: string, chType: string) returns (result: Result, ghost stop: Stop)
      requires mysql != ch && clickhouse.Valid() && HasField(mysql.fields, name) && HasField(ch.fields, name)
      modifies mysql, ch, clickhouse
      ensures clickhouse.Valid() && result != Raised
      ensures var t, commands := old(Value()), RetypeCommands(old(Value()), name, chType);
              if result.Completed? then
                && Some(Value()) == RetypeIfNeeded(t, name, mysqlType, chType)
                   && clickhouse.sent == old(clickhouse.sent) + commands
                && Some(clickhouse.columns) == RunCommands(old(clickhouse.columns), commands)
              else Value() == t && StoppedAt(old(clickhouse.columns), commands, stop)
      ensures GivesUpFor(result, RunCommands(old(clickhouse.columns), RetypeCommands(old(Value()), name, chType)).None?)
      ensures old(Accurate()) ==>
                if result.Completed? then Accurate()
                else Accurate() || Some(clickhouse.columns) == Effect(ch.fields, stop.command)
    {
      ghost var columns := clickhouse.columns;
      stop := Stop(DropCommand(""), 0);
      var field := ch.GetField(name);
      if field.value.fieldType == chType {
        return Completed, stop;
      }
      ghost var executed;
      result, executed := Retype(name, mysqlType, chType);
      stop := StopOf(columns, ModifyCommand(TableField(name, chType)), executed);
    }

    /** The second part of CHANGE COLUMN. */
    method ChangeName(current: string, newName: string) returns (result: Result, ghost stop: Stop)
      requires mysql != ch && clickhouse.Valid() && RenameIfNeeded(Value(), current, newName).Some?
      modifies mysql, ch, clickhouse
      ensures clickhouse.Valid() && result != Raised
      ensures var t, commands := old(Value()), RenameCommands(current, newName);
              if result.Completed? then
                && Some(Value()) == RenameIfNeeded(t, current, newName)
                   && clickhouse.sent == old(clickhouse.sent) + commands
                && Some(clickhouse.columns) == RunCommands(old(clickhouse.columns), commands)
              else Value() == t && StoppedAt(old(clickhouse.columns), commands, stop)
      ensures GivesUpFor(result, RunCommands(old(clickhouse.columns), RenameCommands(current, newName)).None?)
      ensures old(Accurate()) && result.CommandFailed? ==>
                Accurate() || Some(clickhouse.columns) == Effect(ch.fields, stop.command)
    {
      ghost var columns := clickhouse.columns;
      stop := Stop(DropCommand(""), 0);
      if current == newName {
        return Completed, stop;
      }
      ghost var executed;
      result, executed := Rename(current, newName);
      stop := StopOf(columns, RenameCommand(current, newName), executed);
    }

    /** One of some commands has failed. */
    ghost predicate StoppedAt(columns: seq<TableField>, commands: seq<Command>, stop: Stop)
      reads clickhouse
    {
      && stop.command in commands && stop.effective <= |commands|
      && Some(clickhouse.columns) == RunCommands(columns, commands[..stop.effective])
    }

    /** One clause of the dry run, on copies of the structures. */
    method ValidateAlterOperation(op: Clause) returns (ok: bool)
      requires mysql != ch && !op.Unsupported?
      modifies mysql, ch
      ensures ok <==> Validate(old(Value()), op).Some?
      ensures ok ==> Some(Value()) == Validate(old(Value()), op)
    {
      match op
      case AddColumn(name, mysqlType, chType, position) =>
        var inMysql := mysql.HasFieldNamed(name);
        var inCh := ch.HasFieldNamed(name);
        if inMysql != inCh {
          return false;
        }
        if inMysql {
          return true;
        }
        if position.Last? && mysql.fields == [] {
          return false;
        }
        var after := match position
          case First => None
          case After(column) => Some(column)
          case Last => Some(mysql.fields[|mysql.fields| - 1].name);
        ok := AddToBoth(name, mysqlType, chType, after);
      case DropColumn(name) =>
        var inMysql := mysql.HasFieldNamed(name);
        var inCh := ch.HasFieldNamed(name);
        if inMysql != inCh {
          return false;
        }
        if !inMysql {
          return true;
        }
        ok := mysql.RemoveField(name);
        if ok {
          ok := ch.RemoveField(name);
        }
      case ModifyColumn(name, mysqlType, chType) =>
        ok := UpdateInBoth(name, mysqlType, chType);
      case ChangeColumn(oldName, newName, mysqlType, chType) =>
        var current := GetCurrentName(oldName, newName);
        if current.None? {
          return false;
        }
        ok := UpdateInBoth(current.value, mysqlType, chType);
        if ok && current.value != newName {
          ok := RenameInBoth(current.value, newName);
        }
      case RenameColumn(oldName, newName) =>
        var current := GetCurrentName(oldName, newName);
        if current.None? {
          return false;
        }
        ok := true;
        if current.value != newName {
          ok := RenameInBoth(current.value, newName);
        }
      case SafeNoop => ok := true;
      case Malformed => ok := false;
    }

    method UpdateInBoth(name: string, mysqlType: string, chType: string) returns (ok: bool)
      requires mysql != ch
      modifies mysql, ch
      ensures ok <==> UpdateBoth(old(Value()), name, mysqlType, chType).Some?
      ensures ok ==> Some(Value()) == UpdateBoth(old(Value()), name, mysqlType, chType)
    {
      ok := mysql.UpdateField(TableField(name, mysqlType));
      if ok {
        ok := ch.UpdateField(TableField(name, chType));
      }
    }

    method RenameInBoth(current: string, newName: string) returns (ok: bool)
      requires mysql != ch
      modifies mysql, ch
      ensures ok <==> RenameBoth(old(Value()), current, newName).Some?
      ensures ok ==> Some(Value()) == RenameBoth(old(Value()), current, newName)
    {
      ok := mysql.RenameField(current, newName);
      if ok {
        ok := ch.RenameField(current, newName);
      }
    }

    /** The dry run of a plan. */
    method ValidateAlterPlan(ops: seq<Clause>) returns (ok: bool)
      requires Unsupported !in ops
      ensures ok <==> DryRun(Value(), ops).Some?
    {
      var mysqlCopy := new TableStructure(mysql.Value());
      var chCopy := new TableStructure(ch.Value());
      var copy := new Converter(mysqlCopy, chCopy, clickhouse);
      for i := 0 to |ops|
        invariant fresh(mysqlCopy) && fresh(chCopy) && mysqlCopy != chCopy && copy.mysql == mysqlCopy
                  && copy.ch == chCopy
        invariant DryRun(Value(), ops) == DryRun(copy.Value(), ops[i..])
      {
        assert ops[i..][0] == ops[i] && ops[i..][1..] == ops[i + 1..];
        ok := copy.ValidateAlterOperation(ops[i]);
        if !ok {
          return;
        }
      }
      return true;
    }

    /** Executes one clause. */
    method ConvertOperation(op: Clause) returns (result: Result, ghost stop: Stop)
      requires mysql != ch && clickhouse.Valid() && Validate(Value(), op).Some?
      modifies mysql, ch, clickhouse
      ensures clickhouse.Valid() && result != Raised
      ensures result.Completed? ==>
                CarriedOut(old(Value()), old(clickhouse.columns), op)
                && clickhouse.sent == old(clickhouse.sent) + Commands(old(Value()), op)
      ensures result.CommandFailed? ==> Stopped(old(Value()), old(clickhouse.columns), op, stop)
      ensures GivesUpFor(result, RunCommands(old(clickhouse.columns), Commands(old(Value()), op)).None?)
      ensures result.CommandFailed? && old(Accurate()) ==>
                Accurate() || Some(clickhouse.columns) == Effect(ch.fields, stop.command)
    {
      match op
      case AddColumn(_, _, _, _) => result, stop := ConvertAddColumn(op);
      case DropColumn(_) => result, stop := ConvertDropColumn(op);
      case ModifyColumn(_, _, _) => result, stop := ConvertModifyColumn(op);
      case ChangeColumn(_, _, _, _) => result, stop := ConvertChangeColumn(op);
      case RenameColumn(_, _) => result, stop := ConvertRenameColumn(op);
      case SafeNoop => result, stop := Completed, Stop(DropCommand(""), 0);
    }

    /** These clauses have been executed: on the structures, and by their commands on whatever the columns were. */
    ghost predicate GotTo(t: Tables, columns: seq<TableField>, ops: seq<Clause>)
      reads mysql, ch, clickhouse
    {
      Some(Value()) == ExecuteAll(t, ops) && Some(clickhouse.columns) == RunPlan(t, columns, ops)
    }

    /** Executes the next clause of a plan. */
    method ConvertNext(ops: seq<Clause>, i: nat, ghost start: Tables, ghost columns: seq<TableField>)
      returns (result: Result, ghost stop: Stop)
      requires mysql != ch && clickhouse.Valid() && i < |ops| && Validate(Value(), ops[i]).Some?
               && GotTo(start, columns, ops[..i])
      modifies mysql, ch, clickhouse
      ensures clickhouse.Valid() && result != Raised
      ensures result.Completed? ==>
                GotTo(start, columns, ops[..i + 1]) && Some(Value()) == Execute(old(Value()), ops[i])
      ensures result.CommandFailed? ==> Partial(start, columns, ops, i, stop.effective) == Some(clickhouse.columns)
      ensures GivesUpFor(result, RunPlan(start, columns, ops[..i + 1]).None?)
      ensures old(Accurate()) ==>
                if result.Completed? then Accurate()
                else Accurate() || Some(clickhouse.columns) == Effect(ch.fields, stop.command)
    {
      CommandsAreMirrored(Value(), ops[i]);
      result, stop := ConvertOperation(ops[i]);
      ExecuteNext(start, ops, i);
      RunNext(start, columns, ops, i);
    }

    /** Refuses a plan with an unsupported clause, or one that fails in the dry run, before any command is sent.
        Any other plan can fail in a command only, on whatever columns there are. */
    method ConvertAlterQuery(ops: seq<Clause>) returns (result: Result, ghost at: nat, ghost stop: Stop)
      requires mysql != ch && clickhouse.Valid()
      modifies mysql, ch, clickhouse
      ensures clickhouse.Valid()
      ensures result.Raised? <==> Unsupported in ops || DryRun(old(Value()), ops).None?
      ensures result.Raised? ==>
                Value() == old(Value()) && clickhouse.columns == old(clickhouse.columns)
                && clickhouse.sent == old(clickhouse.sent)
      ensures result.Completed? ==>
                Some(Value()) == ExecuteAll(old(Value()), ops) && Mirrors(DryRun(old(Value()), ops).value, Value())
      ensures result.Completed? ==> Some(clickhouse.columns) == RunPlan(old(Value()), old(clickhouse.columns), ops)
      ensures result.CommandFailed? ==>
                at < |ops|
                && Partial(old(Value()), old(clickhouse.columns), ops, at, stop.effective) == Some(clickhouse.columns)
      ensures GivesUpFor(result, RunPlan(old(Value()), old(clickhouse.columns), ops).None?)
      ensures old(Accurate()) ==> GivesUpFor(result, false)
      ensures old(Accurate()) && !result.CommandFailed? ==> Accurate()
      ensures old(Accurate()) && result.CommandFailed? ==>
                Accurate() || Some(clickhouse.columns) == Effect(ch.fields, stop.command)
    {
      at, stop := 0, Stop(DropCommand(""), 0);
      if Unsupported in ops {
        return Raised, at, stop;
      }
      var ok := ValidateAlterPlan(ops);
      if !ok {
        return Raised, at, stop;
      }
      ghost var v, start, columns := Value(), Value(), clickhouse.columns;
      assert ops[0..] == ops && ops[..0] == [];
      for i := 0 to |ops|
        invariant clickhouse.Valid() && Mirrors(v, Value())
        invariant DryRun(start, ops) == DryRun(v, ops[i..]) && DryRun(v, ops[i..]).Some?
        invariant GotTo(start, columns, ops[..i]) && (start.ch.fields == columns ==> Accurate())
        invariant old(clickhouse.failures) <= clickhouse.failures
      {
        assert ops[i..][0] == ops[i] && ops[i..][1..] == ops[i + 1..];
        ValidateMirrored(v, Value(), ops[i]);
        ExecuteMirrorsValidate(v, Value(), ops[i]);
        result, stop := ConvertNext(ops, i, start, columns);
        if result.CommandFailed? {
          at := i;
          PrefixFails(start, columns, ops, i + 1);
          return;
        }
        v := Validate(v, ops[i]).value;
      }
      assert ops[..|ops|] == ops && ops[|ops|..] == [];
      result := Completed;
    }
  }

  /** A clause with one command has stopped in it. */
  lemma StopOf(columns: seq<TableField>, command: Command, executed: bool) returns (stop: Stop)
    ensures stop == Stop(command, if executed then 1 else 0)
    ensures RunCommands(columns, [command][..stop.effective]) == if executed then Effect(columns, command)
            else Some(columns)
    ensures RunCommands(columns, [command]) == Effect(columns, command)
  {
    stop := Stop(command, if executed then 1 else 0);
    assert [command][..0] == [] && [command][..1] == [command];
    RunOne(columns, command);
  }

  lemma StoppedInFirst(columns: seq<TableField>, first: seq<Command>, later: seq<Command>, effective: nat)
    requires effective <= |first|
    ensures RunCommands(columns, (first + later)[..effective]) == RunCommands(columns, first[..effective])
  {
    assert (first + later)[..effective] == first[..effective];
  }

  lemma StoppedInLast(columns: seq<TableField>, earlier: seq<Command>, last: seq<Command>, effective: nat)
    requires effective <= |last| && RunCommands(columns, earlier).Some?
    ensures RunCommands(columns, (earlier + last)[..|earlier| + effective]) ==
            RunCommands(RunCommands(columns, earlier).value, last[..effective])
  {
    assert (earlier + last)[..|earlier| + effective] == earlier + last[..effective];
    RunConcat(columns, earlier, last[..effective]);
  }

  lemma RunNext(t: Tables, columns: seq<TableField>, ops: seq<Clause>, i: nat)
    requires i < |ops| && ExecuteAll(t, ops[..i]).Some? && RunPlan(t, columns, ops[..i]).Some?
    requires Execute(ExecuteAll(t, ops[..i]).value, ops[i]).Some?
    ensures RunPlan(t, columns, ops[..i + 1]) ==
            RunCommands(RunPlan(t, columns, ops[..i]).value, Commands(ExecuteAll(t, ops[..i]).value, ops[i]))
  {
    assert ops[..i + 1] == ops[..i] + [ops[i]];
    RunPlanConcat(t, columns, ops[..i], [ops[i]]);
    RunPlanOne(ExecuteAll(t, ops[..i]).value, RunPlan(t, columns, ops[..i]).value, ops[i]);
  }

  /** A plan of which the first clauses cannot succeed cannot. */
  lemma RunPlanPrefix(t: Tables, columns: seq<TableField>, ops: seq<Clause>, k: nat)
    requires k <= |ops| && ExecuteAll(t, ops).Some? && RunPlan(t, columns, ops).Some?
    ensures RunPlan(t, columns, ops[..k]).Some?
    decreases k
  {
    if k > 0 {
      var next := RunCommands(columns, Commands(t, ops[0])).value;
      RunPlanPrefix(Execute(t, ops[0]).value, next, ops[1..], k - 1);
      assert ops[..k][1..] == ops[1..][..k - 1];
    }
  }

  /** If the first clauses cannot succeed on the columns there are, the plan cannot, and these are not the columns
      recorded. */
  lemma PrefixFails(t: Tables, columns: seq<TableField>, ops: seq<Clause>, k: nat)
    requires k <= |ops| && DryRun(t, ops).Some?
    ensures RunPlan(t, columns, ops[..k]).None? ==> RunPlan(t, columns, ops).None? && columns != t.ch.fields
  {
    PlanIsMirrored(t, t, ops);
    if RunPlan(t, columns, ops).Some? {
      RunPlanPrefix(t, columns, ops, k);
    }
  }

  lemma RunPlanOne(t: Tables, columns: seq<TableField>, op: Clause)
    requires Execute(t, op).Some?
    ensures RunPlan(t, columns, [op]) == RunCommands(columns, Commands(t, op))
  {
    assert [op][1..] == [];
  }

  /** A process that dies in a plan loses its structures: the next one starts from those saved before the plan, on the
      table as it was left. After any number of such deaths a plan that undoes nothing ends as if there had been
      none. */
  method ExecuteWithRestarts(saved: Tables, clickhouse: ClickhouseTable, ops: seq<Clause>, processes: nat)
    returns (done: bool, now: Tables)
    requires clickhouse.Valid() && Lockstep(saved) && Unsupported !in ops && DryRun(saved, ops).Some?
    requires UndoesNothing(saved, ops) && Underway(saved, ops, clickhouse.columns)
    modifies clickhouse
    ensures clickhouse.Valid() && Underway(saved, ops, clickhouse.columns)
    ensures done ==> Some(now) == ExecuteAll(saved, ops) && clickhouse.columns == now.ch.fields
    ensures !done ==> clickhouse.failures >= old(clickhouse.failures) + 5 * processes
  {
    DryRunIffExecutable(saved, saved, ops);
    for i := 0 to processes
      invariant clickhouse.Valid() && Underway(saved, ops, clickhouse.columns)
      invariant clickhouse.failures >= old(clickhouse.failures) + 5 * i
    {
      var mysql := new TableStructure(saved.mysql);
      var ch := new TableStructure(saved.ch);
      var converter := new Converter(mysql, ch, clickhouse);
      ghost var columns := clickhouse.columns;
      var result;
      ghost var at, stop;
      result, at, stop := converter.ConvertAlterQuery(ops);
      ReplayCatchesUp(saved, ops, columns);
      if result.Completed? {
        BeginsAndEndsUnderway(saved, ops);
        return true, converter.Value();
      }
      StaysUnderway(saved, ops, columns, at, stop.effective, clickhouse.columns);
    }
    return false, saved;
  }

  lemma ExecuteNext(t: Tables, ops: seq<Clause>, i: nat)
    requires i < |ops| && ExecuteAll(t, ops[..i]).Some?
    ensures ExecuteAll(t, ops[..i + 1]) == Execute(ExecuteAll(t, ops[..i]).value, ops[i])
  {
    assert ops[..i + 1] == ops[..i] + [ops[i]];
    ExecuteConcat(t, ops[..i], [ops[i]]);
    assert [ops[i]][1..] == [];
  }
}
