/** Executing a plan anew from the structures saved before it, on a table that is ahead of them. */
module AlterReplay {
  import opened Events
  import opened Sequences
  import opened TableStructures
  import opened AlterPlan
  import opened AlterCommands

  // ---- What one command does to what another has done

  /** The type of a column, if there is one of that name. */
  function TypeAt(columns: seq<TableField>, name: string): Option<string> {
    if HasField(columns, name) then Some(columns[IndexOf(columns, name)].fieldType) else None
  }

  /** The type a command gives to a column of that name, if it does. */
  function Gives(columns: seq<TableField>, command: Command, name: string): Option<string> {
    match command
    case AddCommand(field, _) =>
      if field.name == name && TypeAt(columns, name).None? then Some(field.fieldType) else None
    case DropCommand(_) => None
    case ModifyCommand(field) =>
      if field.name == name && TypeAt(columns, name).Some? then Some(field.fieldType) else None
    case RenameCommand(oldName, newName) => if newName == name then TypeAt(columns, oldName) else None
  }

  /** A command takes the column of that name away. */
  predicate Removes(command: Command, name: string) {
    command == DropCommand(name) || (command.RenameCommand? && command.oldName == name)
  }

  /** A later command takes back what an earlier one has done: it removes an added column, brings back one that was
      dropped or renamed, or gives another type to one whose type was set. */
  predicate Undoes(columns: seq<TableField>, earlier: Command, later: Command) {
    match earlier
    case AddCommand(field, _) => Removes(later, field.name)
    case DropCommand(name) => Gives(columns, later, name).Some?
    case ModifyCommand(field) =>
      Gives(columns, later, field.name).Some? && Gives(columns, later, field.name) != Some(field.fieldType)
    case RenameCommand(oldName, _) => Gives(columns, later, oldName).Some?
  }

  /** The command changes nothing. */
  predicate Stands(columns: seq<TableField>, command: Command) {
    Effect(columns, command) == Some(columns)
  }

  lemma LookedUp(columns: seq<TableField>, i: nat)
    requires Unique(columns) && i < |columns|
    ensures TypeAt(columns, columns[i].name) == Some(columns[i].fieldType)
  {
    assert HasField(columns, columns[i].name);
    assert IndexOf(columns, columns[i].name) == i;
  }

  lemma LookupInserted(columns: seq<TableField>, i: nat, field: TableField, name: string)
    requires Unique(columns) && i <= |columns| && TypeAt(columns, field.name).None?
    ensures var r := InsertAt(columns, i, field);
            TypeAt(r, name) == if name == field.name then Some(field.fieldType) else TypeAt(columns, name)
  {
    var r := InsertAt(columns, i, field);
    AddTwice(columns, field, i);
    if name == field.name {
      LookedUp(r, i);
    } else if HasField(columns, name) {
      var j := IndexOf(columns, name);
      var k := if j < i then j else j + 1;
      assert r[k] == columns[j];
      LookedUp(r, k);
    }
  }

  lemma LookupRemoved(columns: seq<TableField>, gone: string, name: string)
    requires Unique(columns) && HasField(columns, gone)
    ensures TypeAt(RemoveAt(columns, IndexOf(columns, gone)), name) == if name == gone then None
            else TypeAt(columns, name)
  {
    var i := IndexOf(columns, gone);
    var r := RemoveAt(columns, i);
    DropTwice(columns, gone);
    if name != gone && HasField(columns, name) {
      var j := IndexOf(columns, name);
      var k := if j < i then j else j - 1;
      assert r[k] == columns[j];
      LookedUp(r, k);
    }
  }

  lemma LookupReplaced(columns: seq<TableField>, i: nat, field: TableField, name: string)
    requires Unique(columns) && i < |columns| && Unique(columns[i := field])
    ensures TypeAt(columns[i := field], name) ==
            if name == field.name then Some(field.fieldType) else if name == columns[i].name then None
                else TypeAt(columns, name)
  {
    var r := columns[i := field];
    if name == field.name {
      LookedUp(r, i);
    } else if HasField(columns, name) && name != columns[i].name {
      var j := IndexOf(columns, name);
      assert r[j] == columns[j];
      LookedUp(r, j);
    }
  }

  /** What a command does to the column of any name. */
  lemma EffectLookup(columns: seq<TableField>, command: Command, name: string)
    requires Unique(columns) && Effect(columns, command).Some?
    ensures TypeAt(Effect(columns, command).value, name) ==
            if Gives(columns, command, name).Some? then Gives(columns, command, name)
            else if Removes(command, name) then None
            else TypeAt(columns, name)
  {
    EffectTwice(columns, command);
    match command
    case AddCommand(field, after) =>
      if !HasField(columns, field.name) {
        assert InsertAt(columns, 0, field) == [field] + columns;
        LookupInserted(columns, if after.None? then 0 else LastIndexOf(columns, after.value) + 1, field, name);
      }
    case DropCommand(gone) =>
      if HasField(columns, gone) {
        LookupRemoved(columns, gone, name);
      }
    case ModifyCommand(field) =>
      if HasField(columns, field.name) {
        LookupReplaced(columns, IndexOf(columns, field.name), field, name);
      }
    case RenameCommand(oldName, newName) =>
      if HasField(columns, oldName) {
        var i := IndexOf(columns, oldName);
        LookupReplaced(columns, i, columns[i].(name := newName), name);
      }
  }

  /** When a command changes nothing. */
  lemma StandsIff(columns: seq<TableField>, command: Command)
    requires Unique(columns)
    ensures Stands(columns, command) <==>
            match command
            case AddCommand(field, _) => TypeAt(columns, field.name).Some?
            case DropCommand(name) => TypeAt(columns, name).None?
            case ModifyCommand(field) => TypeAt(columns, field.name).Some? ==>
                  TypeAt(columns, field.name) == Some(field.fieldType)
            case RenameCommand(oldName, _) => TypeAt(columns, oldName).None?
  {
    match command
    case AddCommand(field, after) =>
    case DropCommand(name) =>
    case ModifyCommand(field) =>
      if HasField(columns, field.name) {
        var i := IndexOf(columns, field.name);
        assert columns[i := field][i] == field;
        assert columns[i] == field ==> columns[i := field] == columns;
      }
    case RenameCommand(oldName, newName) =>
      if HasField(columns, oldName) && !HasField(columns, newName) {
        var i := IndexOf(columns, oldName);
        assert columns[i := columns[i].(name := newName)][i].name == newName;
      }
  }

  /** A command that has been carried out goes on changing nothing exactly as long as it is not undone. */
  lemma StandsUnlessUndone(columns: seq<TableField>, earlier: Command, later: Command)
    requires Unique(columns) && Stands(columns, earlier) && Effect(columns, later).Some?
    ensures Stands(Effect(columns, later).value, earlier) <==> !Undoes(columns, earlier, later)
  {
    EffectTwice(columns, later);
    StandsIff(columns, earlier);
    StandsIff(Effect(columns, later).value, earlier);
    var name := match earlier
      case AddCommand(field, _) => field.name
      case DropCommand(dropped) => dropped
      case ModifyCommand(field) => field.name
      case RenameCommand(oldName, _) => oldName;
    EffectLookup(columns, later, name);
  }

  // ---- Command sequences

  /** The columns after the first n commands. */
  function ColumnsAfter(columns: seq<TableField>, commands: seq<Command>, n: nat): seq<TableField>
    requires n <= |commands|
  {
    var r := RunCommands(columns, commands[..n]);
    if r.Some? then r.value else columns
  }

  lemma ReachedRuns(columns: seq<TableField>, commands: seq<Command>, n: nat)
    requires Unique(columns) && RunCommands(columns, commands).Some? && n <= |commands|
    ensures RunCommands(columns, commands[..n]) == Some(ColumnsAfter(columns, commands, n))
            && Unique(ColumnsAfter(columns, commands, n))
  {
    RunPrefix(columns, commands, commands[..n], commands[n..]);
    RunUnique(columns, commands[..n]);
  }

  lemma RunPrefix(columns: seq<TableField>, commands: seq<Command>, a: seq<Command>, b: seq<Command>)
    requires commands == a + b && RunCommands(columns, commands).Some?
    ensures RunCommands(columns, a).Some?
  {
    RunConcat(columns, a, b);
  }

  lemma {:induction false} RunUnique(columns: seq<TableField>, commands: seq<Command>)
    requires Unique(columns) && RunCommands(columns, commands).Some?
    ensures Unique(RunCommands(columns, commands).value)
  {
    if commands != [] {
      RunUnique(columns, commands[..|commands| - 1]);
      EffectTwice(RunCommands(columns, commands[..|commands| - 1]).value, commands[|commands| - 1]);
    }
  }

  lemma ReachedNext(columns: seq<TableField>, commands: seq<Command>, n: nat)
    requires Unique(columns) && RunCommands(columns, commands).Some? && n < |commands|
    ensures Effect(ColumnsAfter(columns, commands, n), commands[n]) == Some(ColumnsAfter(columns, commands, n + 1))
  {
    ReachedRuns(columns, commands, n);
    ReachedRuns(columns, commands, n + 1);
    assert commands[..n + 1][..n] == commands[..n];
  }

  ghost predicate StandsLater(columns: seq<TableField>, commands: seq<Command>, i: nat, n: nat)
    requires i < n <= |commands|
  {
    Stands(ColumnsAfter(columns, commands, n), commands[i])
  }

  /** Wherever the sequence stops, every command before that place changes nothing when it is sent again. */
  ghost predicate AllStand(columns: seq<TableField>, commands: seq<Command>) {
    forall i, n :: 0 <= i < n <= |commands| ==> StandsLater(columns, commands, i, n)
  }

  ghost predicate UndoneBy(columns: seq<TableField>, commands: seq<Command>, i: nat, j: nat)
    requires i < j < |commands|
  {
    Undoes(ColumnsAfter(columns, commands, j), commands[i], commands[j])
  }

  /** No command undoes an earlier one. */
  ghost predicate NothingUndone(columns: seq<TableField>, commands: seq<Command>) {
    forall i, j :: 0 <= i < j < |commands| ==> !UndoneBy(columns, commands, i, j)
  }

  lemma StandsNext(columns: seq<TableField>, commands: seq<Command>, i: nat, n: nat)
    requires Unique(columns) && RunCommands(columns, commands).Some? && i < n < |commands|
    requires StandsLater(columns, commands, i, n)
    ensures StandsLater(columns, commands, i, n + 1) <==> !UndoneBy(columns, commands, i, n)
  {
    ReachedRuns(columns, commands, n);
    ReachedNext(columns, commands, n);
    StandsUnlessUndone(ColumnsAfter(columns, commands, n), commands[i], commands[n]);
  }

  lemma {:induction false} StandsFrom(columns: seq<TableField>, commands: seq<Command>, i: nat, n: nat)
    requires Unique(columns) && RunCommands(columns, commands).Some? && i < n <= |commands|
             && NothingUndone(columns, commands)
    ensures StandsLater(columns, commands, i, n)
    decreases n
  {
    if n == i + 1 {
      ReachedRuns(columns, commands, i);
      ReachedNext(columns, commands, i);
      EffectTwice(ColumnsAfter(columns, commands, i), commands[i]);
    } else {
      StandsFrom(columns, commands, i, n - 1);
      assert !UndoneBy(columns, commands, i, n - 1);
      StandsNext(columns, commands, i, n - 1);
    }
  }

  lemma StandIffNothingUndone(columns: seq<TableField>, commands: seq<Command>)
    requires Unique(columns) && RunCommands(columns, commands).Some?
    ensures AllStand(columns, commands) <==> NothingUndone(columns, commands)
  {
    if NothingUndone(columns, commands) {
      forall i, n | 0 <= i < n <= |commands| ensures StandsLater(columns, commands, i, n) {
        StandsFrom(columns, commands, i, n);
      }
    }
    if AllStand(columns, commands) {
      forall i, j | 0 <= i < j < |commands| ensures !UndoneBy(columns, commands, i, j) {
        assert StandsLater(columns, commands, i, j) && StandsLater(columns, commands, i, j + 1);
        StandsNext(columns, commands, i, j);
      }
    }
  }

  /** Stopped after n commands and sent again up to the m-th, the sequence has got as far as the further of the two. */
  ghost predicate KeptUp(columns: seq<TableField>, commands: seq<Command>, n: nat, m: nat)
    requires n <= |commands| && m <= |commands|
  {
    RunCommands(ColumnsAfter(columns, commands, n), commands[..m]) == Some(ColumnsAfter(columns, commands, Max(n, m)))
  }

  /** Wherever the sequence stops and however far it is sent again, the table is not taken back. */
  ghost predicate NeverTakenBack(columns: seq<TableField>, commands: seq<Command>) {
    forall n, m :: 0 <= n <= |commands| && 0 <= m <= |commands| ==> KeptUp(columns, commands, n, m)
  }

  lemma {:induction false} StandingDoNothing(columns: seq<TableField>, commands: seq<Command>, n: nat, m: nat)
    requires m <= n <= |commands| && forall i :: 0 <= i < n ==> StandsLater(columns, commands, i, n)
    ensures RunCommands(ColumnsAfter(columns, commands, n), commands[..m]) == Some(ColumnsAfter(columns, commands, n))
    decreases m
  {
    if m > 0 {
      StandingDoNothing(columns, commands, n, m - 1);
      assert commands[..m][..m - 1] == commands[..m - 1];
      assert StandsLater(columns, commands, m - 1, n);
    }
  }

  lemma StandingKeepUp(columns: seq<TableField>, commands: seq<Command>, n: nat, m: nat)
    requires Unique(columns) && RunCommands(columns, commands).Some? && n <= |commands| && m <= |commands|
    requires AllStand(columns, commands)
    ensures KeptUp(columns, commands, n, m)
  {
    if m <= n {
      StandingDoNothing(columns, commands, n, m);
    } else {
      StandingDoNothing(columns, commands, n, n);
      RunsFurther(columns, commands, n, m);
    }
  }

  lemma RunsFurther(columns: seq<TableField>, commands: seq<Command>, n: nat, m: nat)
    requires Unique(columns) && RunCommands(columns, commands).Some? && n <= m <= |commands|
    requires RunCommands(ColumnsAfter(columns, commands, n), commands[..n]) == Some(ColumnsAfter(columns, commands, n))
    ensures RunCommands(ColumnsAfter(columns, commands, n), commands[..m]) == Some(ColumnsAfter(columns, commands, m))
  {
    ReachedRuns(columns, commands, n);
    ReachedRuns(columns, commands, m);
    RunsOn(columns, ColumnsAfter(columns, commands, n), commands[..n], commands[n..m], commands[..m]);
  }

  lemma RunsOn(columns: seq<TableField>, now: seq<TableField>, done: seq<Command>, more: seq<Command>,
               all: seq<Command>)
    requires RunCommands(columns, done) == Some(now) == RunCommands(now, done) && all == done + more
    ensures RunCommands(now, all) == RunCommands(columns, all)
  {
    RunConcat(now, done, more);
    RunConcat(columns, done, more);
  }

  lemma KeepingUpStands(columns: seq<TableField>, commands: seq<Command>, i: nat, n: nat)
    requires NeverTakenBack(columns, commands) && i < n <= |commands|
    ensures StandsLater(columns, commands, i, n)
  {
    assert KeptUp(columns, commands, n, i) && KeptUp(columns, commands, n, i + 1);
    assert commands[..i + 1][..i] == commands[..i];
  }

  /** A sequence that stops anywhere and is sent again, as far as it may get, never takes the table back if and only if
      none of its commands undoes an earlier one. */
  lemma NeverTakenBackIff(columns: seq<TableField>, commands: seq<Command>)
    requires Unique(columns) && RunCommands(columns, commands).Some?
    ensures NeverTakenBack(columns, commands) <==> NothingUndone(columns, commands)
  {
    StandIffNothingUndone(columns, commands);
    if AllStand(columns, commands) {
      forall n, m | 0 <= n <= |commands| && 0 <= m <= |commands| ensures KeptUp(columns, commands, n, m) {
        StandingKeepUp(columns, commands, n, m);
      }
    }
    if NeverTakenBack(columns, commands) {
      forall i, n | 0 <= i < n <= |commands| ensures StandsLater(columns, commands, i, n) {
        KeepingUpStands(columns, commands, i, n);
      }
    }
  }

  // ---- Plans

  /** All the commands of a plan executed from the structures `t`. */
  function PlanCommands(t: Tables, ops: seq<Clause>): seq<Command>
    decreases |ops|
  {
    if ops == [] then []
    else
      var next := Execute(t, ops[0]);
      Commands(t, ops[0]) + if next.None? then [] else PlanCommands(next.value, ops[1..])
  }

  /** No command of the plan undoes an earlier one. Both structures and the plan are known before it is executed. */
  ghost predicate UndoesNothing(t: Tables, ops: seq<Clause>) {
    NothingUndone(t.ch.fields, PlanCommands(t, ops))
  }

  lemma {:induction false} RunPlanIs(t: Tables, columns: seq<TableField>, ops: seq<Clause>)
    requires ExecuteAll(t, ops).Some?
    ensures RunPlan(t, columns, ops) == RunCommands(columns, PlanCommands(t, ops))
    decreases |ops|
  {
    if ops != [] {
      var next, first := Execute(t, ops[0]).value, RunCommands(columns, Commands(t, ops[0]));
      RunConcat(columns, Commands(t, ops[0]), PlanCommands(next, ops[1..]));
      if first.Some? {
        RunPlanIs(next, first.value, ops[1..]);
      }
    }
  }

  lemma {:induction false} PlanCommandsConcat(t: Tables, a: seq<Clause>, b: seq<Clause>)
    requires ExecuteAll(t, a).Some?
    ensures PlanCommands(t, a + b) == PlanCommands(t, a) + PlanCommands(ExecuteAll(t, a).value, b)
    decreases |a|
  {
    if a == [] {
      assert a + b == b;
    } else {
      assert (a + b)[1..] == a[1..] + b;
      PlanCommandsConcat(Execute(t, a[0]).value, a[1..], b);
    }
  }

  lemma {:induction false} PrefixExecutes(t: Tables, a: seq<Clause>, b: seq<Clause>)
    requires ExecuteAll(t, a + b).Some?
    ensures ExecuteAll(t, a).Some?
    decreases |a|
  {
    if a != [] {
      assert (a + b)[1..] == a[1..] + b;
      PrefixExecutes(Execute(t, a[0]).value, a[1..], b);
    }
  }

  lemma CutInside(before: seq<Command>, commands: seq<Command>, later: seq<Command>, j: nat)
    requires j <= |commands|
    ensures (before + (commands + later))[..|before| + j] == before + commands[..j]
  {
  }

  lemma RunInto(columns: seq<TableField>, all: seq<Command>, before: seq<Command>, commands: seq<Command>,
                later: seq<Command>, j: nat)
    requires all == before + (commands + later) && j <= |commands| && RunCommands(columns, before).Some?
    ensures RunCommands(columns, all[..|before| + j]) == RunCommands(RunCommands(columns, before).value, commands[..j])
  {
    CutInside(before, commands, later, j);
    RunConcat(columns, before, commands[..j]);
  }

  /** The commands before those of ops[k], and those from there on. */
  lemma PlanCommandsAt(t: Tables, ops: seq<Clause>, k: nat) returns (later: seq<Command>)
    requires ExecuteAll(t, ops).Some? && k <= |ops|
    ensures ExecuteAll(t, ops[..k]).Some?
    ensures PlanCommands(t, ops) == PlanCommands(t, ops[..k]) +
            if k == |ops| then [] else Commands(ExecuteAll(t, ops[..k]).value, ops[k]) + later
  {
    assert ops == ops[..k] + ops[k..];
    PrefixExecutes(t, ops[..k], ops[k..]);
    PlanCommandsConcat(t, ops[..k], ops[k..]);
    later := [];
    if k < |ops| {
      var now := ExecuteAll(t, ops[..k]).value;
      var next := Execute(now, ops[k..][0]);
      later := if next.None? then [] else PlanCommands(next.value, ops[k..][1..]);
    }
  }

  /** A plan that stopped inside one of its clauses has sent some of its commands, up to one of them. */
  lemma PartialIsPrefix(t: Tables, columns: seq<TableField>, ops: seq<Clause>, k: nat, j: nat, now: seq<TableField>)
    returns (n: nat)
    requires ExecuteAll(t, ops).Some? && k <= |ops| && Partial(t, columns, ops, k, j) == Some(now)
    ensures n <= |PlanCommands(t, ops)| && RunCommands(columns, PlanCommands(t, ops)[..n]) == Some(now)
  {
    var later := PlanCommandsAt(t, ops, k);
    var before := PlanCommands(t, ops[..k]);
    RunPlanIs(t, columns, ops[..k]);
    if k == |ops| {
      n := |before|;
      assert PlanCommands(t, ops)[..n] == before;
    } else {
      RunInto(columns, PlanCommands(t, ops), before, Commands(ExecuteAll(t, ops[..k]).value, ops[k]), later, j);
      n := |before| + j;
    }
  }

  lemma PlanRuns(t: Tables, ops: seq<Clause>)
    requires Lockstep(t) && ExecuteAll(t, ops).Some?
    ensures Unique(t.ch.fields)
    ensures RunCommands(t.ch.fields, PlanCommands(t, ops)) == Some(ExecuteAll(t, ops).value.ch.fields)
  {
    DryRunIffExecutable(t, t, ops);
    PlanIsMirrored(t, t, ops);
    RunPlanIs(t, t.ch.fields, ops);
  }

  /** A plan executed from `t` on a table as recorded has got somewhere: before, inside or behind any of its clauses. */
  ghost predicate Underway(t: Tables, ops: seq<Clause>, columns: seq<TableField>) {
    exists n :: 0 <= n <= |PlanCommands(t, ops)| && ColumnsAfter(t.ch.fields, PlanCommands(t, ops), n) == columns
  }

  /** A process that dies in a plan loses its structures, and the plan is executed anew from those saved before it.
      Wherever that happens, and however far it then gets, the table is not taken back if and only if no command of the
      plan undoes an earlier one. */
  lemma PlanNeverTakenBackIff(t: Tables, ops: seq<Clause>)
    requires Lockstep(t) && ExecuteAll(t, ops).Some?
    ensures NeverTakenBack(t.ch.fields, PlanCommands(t, ops)) <==> UndoesNothing(t, ops)
  {
    PlanRuns(t, ops);
    NeverTakenBackIff(t.ch.fields, PlanCommands(t, ops));
  }

  /** Such a plan, executed anew on a table that it has already changed in part, can succeed and ends as if nothing had
      happened in between. */
  lemma ReplayCatchesUp(t: Tables, ops: seq<Clause>, columns: seq<TableField>)
    requires Lockstep(t) && ExecuteAll(t, ops).Some? && UndoesNothing(t, ops) && Underway(t, ops, columns)
    ensures RunPlan(t, columns, ops) == Some(ExecuteAll(t, ops).value.ch.fields)
  {
    var commands := PlanCommands(t, ops);
    var n :| 0 <= n <= |commands| && ColumnsAfter(t.ch.fields, commands, n) == columns;
    PlanNeverTakenBackIff(t, ops);
    assert KeptUp(t.ch.fields, commands, n, |commands|);
    assert commands[..|commands|] == commands;
    PlanRuns(t, ops);
    RunPlanIs(t, columns, ops);
  }

  /** And if it stops again, anywhere, the table has not fallen behind. */
  lemma StaysUnderway(t: Tables, ops: seq<Clause>, columns: seq<TableField>, k: nat, j: nat, now: seq<TableField>)
    requires Lockstep(t) && ExecuteAll(t, ops).Some? && UndoesNothing(t, ops) && Underway(t, ops, columns)
    requires k <= |ops| && Partial(t, columns, ops, k, j) == Some(now)
    ensures Underway(t, ops, now)
  {
    var commands := PlanCommands(t, ops);
    var n :| 0 <= n <= |commands| && ColumnsAfter(t.ch.fields, commands, n) == columns;
    var m := PartialIsPrefix(t, columns, ops, k, j, now);
    PlanNeverTakenBackIff(t, ops);
    assert KeptUp(t.ch.fields, commands, n, m);
    assert ColumnsAfter(t.ch.fields, commands, Max(n, m)) == now;
  }

  lemma BeginsAndEndsUnderway(t: Tables, ops: seq<Clause>)
    requires Lockstep(t) && ExecuteAll(t, ops).Some?
    ensures Underway(t, ops, t.ch.fields) && Underway(t, ops, ExecuteAll(t, ops).value.ch.fields)
  {
    var commands := PlanCommands(t, ops);
    PlanRuns(t, ops);
    assert commands[..|commands|] == commands && commands[..0] == [];
    assert ColumnsAfter(t.ch.fields, commands, 0) == t.ch.fields;
    assert ColumnsAfter(t.ch.fields, commands, |commands|) == ExecuteAll(t, ops).value.ch.fields;
  }

  // ---- Plans on different columns

  function NamesOf(command: Command): set<string> {
    match command
    case AddCommand(field, _) => {field.name}
    case DropCommand(name) => {name}
    case ModifyCommand(field) => {field.name}
    case RenameCommand(oldName, newName) => {oldName, newName}
  }

  /** All commands are about other columns. */
  ghost predicate ApartFrom(commands: seq<Command>, names: set<string>) {
    forall i :: 0 <= i < |commands| ==> NamesOf(commands[i]) !! names
  }

  lemma ClauseApart(t: Tables, op: Clause, names: set<string>)
    requires Touches(op) !! names
    ensures ApartFrom(Commands(t, op), names)
  {
  }

  lemma {:induction false} PlanApart(t: Tables, ops: seq<Clause>, names: set<string>)
    requires forall m :: 0 <= m < |ops| ==> Touches(ops[m]) !! names
    ensures ApartFrom(PlanCommands(t, ops), names)
    decreases |ops|
  {
    if ops != [] {
      ClauseApart(t, ops[0], names);
      var next := Execute(t, ops[0]);
      if next.Some? {
        PlanApart(next.value, ops[1..], names);
      }
    }
  }

  /** On no columns does a command undo an earlier one. */
  ghost predicate NeverUndo(columns: seq<TableField>, commands: seq<Command>) {
    forall i, j :: 0 <= i < j < |commands| ==> !Undoes(columns, commands[i], commands[j])
  }

  /** The two commands of a CHANGE: the type is set before the name is. */
  lemma ClauseUndoesNothing(t: Tables, op: Clause, columns: seq<TableField>)
    ensures NeverUndo(columns, Commands(t, op))
    ensures forall i :: 0 <= i < |Commands(t, op)| ==> NamesOf(Commands(t, op)[i]) <= Touches(op)
  {
  }

  lemma NamesApart(columns: seq<TableField>, a: Command, b: Command)
    requires NamesOf(a) !! NamesOf(b)
    ensures !Undoes(columns, a, b)
  {
  }

  lemma NeverUndoConcat(columns: seq<TableField>, a: seq<Command>, b: seq<Command>, names: set<string>)
    requires NeverUndo(columns, a) && NeverUndo(columns, b) && ApartFrom(b, names)
    requires forall i :: 0 <= i < |a| ==> NamesOf(a[i]) <= names
    ensures NeverUndo(columns, a + b)
  {
    forall i, j | 0 <= i < j < |a + b| ensures !Undoes(columns, (a + b)[i], (a + b)[j]) {
      if i < |a| <= j {
        NamesApart(columns, a[i], b[j - |a|]);
      }
    }
  }

  lemma {:induction false} ApartNeverUndo(t: Tables, ops: seq<Clause>, columns: seq<TableField>)
    requires PairwiseApart(ops)
    ensures NeverUndo(columns, PlanCommands(t, ops))
    decreases |ops|
  {
    if ops != [] {
      ClauseUndoesNothing(t, ops[0], columns);
      var next := Execute(t, ops[0]);
      var rest := if next.None? then [] else PlanCommands(next.value, ops[1..]);
      if next.Some? {
        ApartNeverUndo(next.value, ops[1..], columns);
        PlanApart(next.value, ops[1..], Touches(ops[0]));
      }
      NeverUndoConcat(columns, Commands(t, ops[0]), rest, Touches(ops[0]));
    }
  }

  /** Clauses about different columns undo nothing. */
  lemma ApartUndoesNothing(t: Tables, ops: seq<Clause>)
    requires PairwiseApart(ops)
    ensures UndoesNothing(t, ops)
  {
    var commands := PlanCommands(t, ops);
    forall i, j | 0 <= i < j < |commands| ensures !UndoneBy(t.ch.fields, commands, i, j) {
      ApartNeverUndo(t, ops, ColumnsAfter(t.ch.fields, commands, j));
    }
  }

  // ---- Plans that undo something

  /** A sequence may undo something and still end right when it is sent again: two types for one column, of which the
      second is there already. On the way the first one is set again, and the values are converted to and fro. */
  lemma RetypedTwice(columns: seq<TableField>, name: string, first: string, second: string)
    requires Unique(columns) && HasField(columns, name) && first != second
    ensures var commands := [ModifyCommand(TableField(name, first)), ModifyCommand(TableField(name, second))];
            var last := RunCommands(columns, commands);
            && last.Some? && RunCommands(last.value, commands) == last
            && RunCommands(last.value, commands[..1]) != last && !NothingUndone(columns, commands)
  {
    var a, b := ModifyCommand(TableField(name, first)), ModifyCommand(TableField(name, second));
    var i, commands := IndexOf(columns, name), [a, b];
    var one, two := columns[i := a.field], columns[i := b.field];
    ModifyTwice(columns, a.field);
    ModifyTwice(columns, b.field);
    assert commands == [a] + [b] && commands[..1] == [a] && commands[..0] == [] && commands[..2] == commands;
    assert one[i := b.field] == two && two[i := a.field] == one;
    assert Effect(columns, a) == Some(one) && Effect(one, b) == Some(two) && Effect(two, a) == Some(one);
    RunOne(columns, a);
    RunOne(one, b);
    RunOne(two, a);
    RunConcat(columns, [a], [b]);
    RunConcat(two, [a], [b]);
    assert two[i] != one[i];
    assert !KeptUp(columns, commands, 2, 1);
    NeverTakenBackIff(columns, commands);
  }

  const ID := TableField("id", "Int64")
  const X := TableField("x", "Int64")
  const Y := TableField("y", "String")

  /** A table with a key column and some others. */
  function KeyedTable(others: seq<TableField>): Tables {
    var s := Structure([ID] + others, ["id"], [0]);
    Tables(s, s)
  }

  lemma KeyedPreprocess(others: seq<TableField>)
    ensures Preprocess([ID] + others, ["id"]) == Some(KeyedTable(others).ch)
  {
    var fields := [ID] + others;
    assert fields[0].name == "id" && HasField(fields, "id") && IndexOf(fields, "id") == 0;
    assert KeyIds(fields, ["id"]) == [0];
  }

  lemma KeyedLookup(others: seq<TableField>, i: nat)
    requires Unique([ID] + others) && i < |others|
    ensures Lockstep(KeyedTable(others)) && others[i].name != "id"
    ensures HasField([ID] + others, others[i].name) && IndexOf([ID] + others, others[i].name) == i + 1
  {
    KeyedPreprocess(others);
    var fields := [ID] + others;
    assert fields[0] == ID && fields[i + 1] == others[i];
  }

  lemma RenamedKeyed(others: seq<TableField>, i: nat, newName: string)
    requires Unique([ID] + others) && i < |others| && !HasField([ID] + others, newName)
    ensures var t, op, after :=
            KeyedTable(others), RenameColumn(others[i].name, newName), others[i := others[i].(name := newName)];
            Execute(t, op) == Some(KeyedTable(after)) && Commands(t, op) == [RenameCommand(others[i].name, newName)]
  {
    KeyedLookup(others, i);
    var fields, after := [ID] + others, others[i := others[i].(name := newName)];
    assert fields[i + 1 := fields[i + 1].(name := newName)] == [ID] + after;
    assert RenamedKeys(["id"], others[i].name, newName) == ["id"];
    KeyedPreprocess(after);
  }

  lemma DroppedKeyed(others: seq<TableField>, i: nat)
    requires Unique([ID] + others) && i < |others|
    ensures var t, op := KeyedTable(others), DropColumn(others[i].name);
            Execute(t, op) == Some(KeyedTable(RemoveAt(others, i))) && Commands(t, op) == [DropCommand(others[i].name)]
  {
    KeyedLookup(others, i);
    var less := RemoveAt(others, i);
    assert RemoveAt([ID] + others, i + 1) == [ID] + less;
    KeyedPreprocess(less);
    assert Remove(KeyedTable(others).ch, others[i].name) == Some(KeyedTable(less).ch);
  }

  lemma AddedKeyed(others: seq<TableField>, field: TableField)
    requires Unique([ID] + others) && !HasField([ID] + others, field.name)
    ensures var t, op := KeyedTable(others), AddColumn(field.name, field.fieldType, field.fieldType, After("id"));
            Execute(t, op) == Some(KeyedTable([field] + others)) && Commands(t, op) == [AddCommand(field, Some("id"))]
  {
    var fields := [ID] + others;
    assert fields[0].name == "id";
    assert LastIndexOf(fields, "id") == 0;
    assert InsertAt(fields, 1, field) == [ID] + ([field] + others);
    KeyedPreprocess([field] + others);
  }

  lemma TwoClauses(t: Tables, next: Tables, last: Tables, a: Clause, b: Clause)
    requires Execute(t, a) == Some(next) && Execute(next, b) == Some(last)
    ensures ExecuteAll(t, [a, b]) == Some(last) && PlanCommands(t, [a, b]) == Commands(t, a) + Commands(next, b)
  {
    assert [a, b][1..] == [b] && [b][1..] == [];
    assert ExecuteAll(next, [b]) == Some(last);
    assert PlanCommands(next, [b]) == Commands(next, b) + [];
  }

  /** A refusal: a name freed by a rename and taken again by a new column keeps the rename from being repeated. */
  lemma ReusedNameBlocksReplay()
    ensures var t, ops := KeyedTable([X]), [RenameColumn("x", "z"), AddColumn("x", "Int64", "Int64", After("id"))];
            && Lockstep(t) && ExecuteAll(t, ops) == Some(KeyedTable([X, X.(name := "z")])) && !UndoesNothing(t, ops)
            && RunPlan(t, [ID, X, X.(name := "z")], ops) == None
  {
    var z := X.(name := "z");
    var t, a, b := KeyedTable([X]), RenameColumn("x", "z"), AddColumn("x", "Int64", "Int64", After("id"));
    assert "x"[0] != "z"[0] && [X][0] == X && [ID] + [X] == [ID, X] && [ID] + [z] == [ID, z];
    assert !HasField([ID, X], "z") && !HasField([ID, z], "x");
    KeyedLookup([X], 0);
    RenamedKeyed([X], 0, "z");
    assert [X][0 := z] == [z];
    AddedKeyed([z], X);
    assert [X] + [z] == [X, z];
    TwoClauses(t, KeyedTable([z]), KeyedTable([X, z]), a, b);
    RunPlanIs(t, [ID, X, z], [a, b]);
    RenameRefused(z);
    if UndoesNothing(t, [a, b]) {
      BeginsAndEndsUnderway(t, [a, b]);
      ReplayCatchesUp(t, [a, b], [ID, X, z]);
    }
  }

  lemma RenameRefused(z: TableField)
    requires z.name == "z"
    ensures RunCommands([ID, X, z], [RenameCommand("x", "z")] + [AddCommand(X, Some("id"))]) == None
  {
    var columns := [ID, X, z];
    assert columns[1].name == "x" && columns[2].name == "z";
    RunOne(columns, RenameCommand("x", "z"));
    RunConcat(columns, [RenameCommand("x", "z")], [AddCommand(X, Some("id"))]);
  }

  /** A loss: a column renamed to the name of one that was dropped before is dropped when the plan is executed again.
      The plan reports success and records the column, and the table no longer has it. */
  lemma RenamedColumnIsDropped()
    ensures var t, ops := KeyedTable([X, Y]), [DropColumn("x"), RenameColumn("y", "x")];
            && Lockstep(t) && ExecuteAll(t, ops) == Some(KeyedTable([Y.(name := "x")])) && !UndoesNothing(t, ops)
            && RunPlan(t, [ID, Y.(name := "x")], ops) == Some([ID])
  {
    var renamed := Y.(name := "x");
    var t, a, b := KeyedTable([X, Y]), DropColumn("x"), RenameColumn("y", "x");
    assert "x"[0] != "y"[0] && [X, Y][0] == X && [Y][0] == Y && [ID] + [X, Y] == [ID, X, Y] && [ID] + [Y] == [ID, Y];
    KeyedLookup([X, Y], 0);
    DroppedKeyed([X, Y], 0);
    assert RemoveAt([X, Y], 0) == [Y];
    RenamedKeyed([Y], 0, "x");
    assert [Y][0 := renamed] == [renamed];
    TwoClauses(t, KeyedTable([Y]), KeyedTable([renamed]), a, b);
    RunPlanIs(t, [ID, renamed], [a, b]);
    DroppedInstead(renamed);
    if UndoesNothing(t, [a, b]) {
      BeginsAndEndsUnderway(t, [a, b]);
      ReplayCatchesUp(t, [a, b], [ID, renamed]);
    }
  }

  lemma DroppedInstead(renamed: TableField)
    requires renamed.name == "x"
    ensures RunCommands([ID, renamed], [DropCommand("x")] + [RenameCommand("y", "x")]) == Some([ID])
  {
    var columns := [ID, renamed];
    assert columns[1].name == "x" && IndexOf(columns, "x") == 1 && RemoveAt(columns, 1) == [ID];
    assert !HasField([ID], "y");
    RunOne(columns, DropCommand("x"));
    RunOne([ID], RenameCommand("y", "x"));
    RunConcat(columns, [DropCommand("x")], [RenameCommand("y", "x")]);
  }
}
