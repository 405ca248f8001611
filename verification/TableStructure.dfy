/** The recorded structure of a table: its fields in order and where its key columns are. */
module TableStructures {
  import opened Events

  datatype TableField = TableField(name: string, fieldType: string)

  datatype Structure = Structure(fields: seq<TableField>, primaryKeys: seq<string>, primaryKeyIds: seq<nat>)

  predicate HasField(fields: seq<TableField>, name: string) {
    exists i :: 0 <= i < |fields| && fields[i].name == name
  }

  /** The first field of a name. */
  function IndexOf(fields: seq<TableField>, name: string): (r: nat)
    requires HasField(fields, name)
    ensures r < |fields| && fields[r].name == name && forall j :: 0 <= j < r ==> fields[j].name != name
  {
    if fields[0].name == name then 0
    else
      assert HasField(fields[1..], name) by {
        var i :| 0 <= i < |fields| && fields[i].name == name;
        assert fields[1..][i - 1].name == name;
      }
      1 + IndexOf(fields[1..], name)
  }

  /** The last field of a name. */
  function LastIndexOf(fields: seq<TableField>, name: string): (r: nat)
    requires HasField(fields, name)
    ensures r < |fields| && fields[r].name == name && forall j :: r < j < |fields| ==> fields[j].name != name
  {
    var last := |fields| - 1;
    if fields[last].name == name then last
    else
      assert HasField(fields[..last], name) by {
        var i :| 0 <= i < |fields| && fields[i].name == name;
        assert fields[..last][i].name == name;
      }
      LastIndexOf(fields[..last], name)
  }

  /** Every key names a field. */
  predicate KeysPresent(fields: seq<TableField>, keys: seq<string>) {
    forall i :: 0 <= i < |keys| ==> HasField(fields, keys[i])
  }

  function KeyIds(fields: seq<TableField>, keys: seq<string>): seq<nat>
    requires KeysPresent(fields, keys)
  {
    seq(|keys|, i requires 0 <= i < |keys| => IndexOf(fields, keys[i]))
  }

  /** None stands for an exception. */
  function Preprocess(fields: seq<TableField>, keys: seq<string>): Option<Structure> {
    if KeysPresent(fields, keys) then Some(Structure(fields, keys, KeyIds(fields, keys))) else None
  }

  function InsertAt(fields: seq<TableField>, i: nat, field: TableField): seq<TableField>
    requires i <= |fields|
  {
    fields[..i] + [field] + fields[i..]
  }

  function RemoveAt(fields: seq<TableField>, i: nat): seq<TableField>
    requires i < |fields|
  {
    fields[..i] + fields[i + 1..]
  }

  function AddFirst(s: Structure, field: TableField): Option<Structure> {
    Preprocess([field] + s.fields, s.primaryKeys)
  }

  function AddAfter(s: Structure, field: TableField, after: string): Option<Structure> {
    if !HasField(s.fields, after) then None
    else Preprocess(InsertAt(s.fields, LastIndexOf(s.fields, after) + 1, field), s.primaryKeys)
  }

  function Remove(s: Structure, name: string): Option<Structure> {
    if !HasField(s.fields, name) then None else Preprocess(RemoveAt(s.fields, IndexOf(s.fields, name)), s.primaryKeys)
  }

  function Update(s: Structure, field: TableField): Option<Structure> {
    if !HasField(s.fields, field.name) then None
    else Some(s.(fields := s.fields[IndexOf(s.fields, field.name) := field]))
  }

  function RenamedKeys(keys: seq<string>, oldName: string, newName: string): seq<string> {
    seq(|keys|, i requires 0 <= i < |keys| => if keys[i] == oldName then newName else keys[i])
  }

  function Rename(s: Structure, oldName: string, newName: string): Option<Structure> {
    if !HasField(s.fields, oldName) then None
    else
      var i := IndexOf(s.fields, oldName);
      Preprocess(s.fields[i := s.fields[i].(name := newName)], RenamedKeys(s.primaryKeys, oldName, newName))
  }

  /** A table structure, changed in place. Methods that return false have raised. */
  class TableStructure {
    var fields: seq<TableField>
    var primaryKeys: seq<string>
    var primaryKeyIds: seq<nat>

    constructor (value: Structure)
      ensures Value() == value
    {
      fields := value.fields;
      primaryKeys := value.primaryKeys;
      primaryKeyIds := value.primaryKeyIds;
    }

    function Value(): Structure
      reads this
    {
      Structure(fields, primaryKeys, primaryKeyIds)
    }

    method HasFieldNamed(name: string) returns (r: bool)
      ensures r <==> HasField(fields, name)
    {
      for i := 0 to |fields|
        invariant forall j :: 0 <= j < i ==> fields[j].name != name
      {
        if fields[i].name == name {
          return true;
        }
      }
      return false;
    }

    method GetField(name: string) returns (r: Option<TableField>)
      ensures r == if HasField(fields, name) then Some(fields[IndexOf(fields, name)]) else None
    {
      for i := 0 to |fields|
        invariant forall j :: 0 <= j < i ==> fields[j].name != name
      {
        if fields[i].name == name {
          return Some(fields[i]);
        }
      }
      return None;
    }

    /** Recomputes where the key columns are. */
    method PreprocessKeys() returns (ok: bool)
      modifies this`primaryKeyIds
      ensures ok <==> Preprocess(fields, primaryKeys).Some?
      ensures ok ==> Some(Value()) == Preprocess(fields, primaryKeys)
    {
      var ids: seq<nat> := [];
      for i := 0 to |primaryKeys|
        invariant |ids| == i && forall j :: 0 <= j < i ==>
                    HasField(fields, primaryKeys[j]) && ids[j] == IndexOf(fields, primaryKeys[j])
      {
        var present := HasFieldNamed(primaryKeys[i]);
        if !present {
          return false;
        }
        ids := ids + [IndexOf(fields, primaryKeys[i])];
      }
      primaryKeyIds := ids;
      assert ids == KeyIds(fields, primaryKeys);
      return true;
    }

    method AddFieldFirst(field: TableField) returns (ok: bool)
      modifies this
      ensures ok <==> AddFirst(old(Value()), field).Some?
      ensures ok ==> Some(Value()) == AddFirst(old(Value()), field)
    {
      fields := [field] + fields;
      ok := PreprocessKeys();
    }

    method AddFieldAfter(field: TableField, after: string) returns (ok: bool)
      modifies this
      ensures ok <==> AddAfter(old(Value()), field, after).Some?
      ensures ok ==> Some(Value()) == AddAfter(old(Value()), field, after)
    {
      var index: Option<nat> := None;
      for i := 0 to |fields|
        invariant index.None? ==> forall j :: 0 <= j < i ==> fields[j].name != after
        invariant index.Some? ==> 0 < index.value <= i && fields[index.value - 1].name == after
        invariant index.Some? ==> forall j :: index.value <= j < i ==> fields[j].name != after
      {
        if fields[i].name == after {
          index := Some(i + 1);
        }
      }
      if index.None? {
        return false;
      }
      fields := InsertAt(fields, index.value, field);
      ok := PreprocessKeys();
    }

    method RemoveField(name: string) returns (ok: bool)
      modifies this
      ensures ok <==> Remove(old(Value()), name).Some?
      ensures ok ==> Some(Value()) == Remove(old(Value()), name)
    {
      for i := 0 to |fields|
        invariant Value() == old(Value()) && forall j :: 0 <= j < i ==> fields[j].name != name
      {
        if fields[i].name == name {
          fields := RemoveAt(fields, i);
          ok := PreprocessKeys();
          return;
        }
      }
      return false;
    }

    method UpdateField(field: TableField) returns (ok: bool)
      modifies this
      ensures ok <==> Update(old(Value()), field).Some?
      ensures ok ==> Some(Value()) == Update(old(Value()), field)
    {
      for i := 0 to |fields|
        invariant Value() == old(Value()) && forall j :: 0 <= j < i ==> fields[j].name != field.name
      {
        if fields[i].name == field.name {
          fields := fields[i := field];
          return true;
        }
      }
      return false;
    }

    /** Renames a field and the key that names it. */
    method RenameField(oldName: string, newName: string) returns (ok: bool)
      modifies this
      ensures ok <==> Rename(old(Value()), oldName, newName).Some?
      ensures ok ==> Some(Value()) == Rename(old(Value()), oldName, newName)
    {
      var present := HasFieldNamed(oldName);
      if !present {
        return false;
      }
      var i := IndexOf(fields, oldName);
      fields := fields[i := fields[i].(name := newName)];
      primaryKeys := RenamedKeys(primaryKeys, oldName, newName);
      ok := PreprocessKeys();
    }
  }
}
