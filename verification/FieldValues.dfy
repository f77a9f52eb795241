/** Custom-field values: the single-value CHECK and the deferred integrity check of one row. */
module FieldValues {
  import opened Basics
  import opened Registry

  datatype Column = ValueText | ValueNumeric | ValueDate | ValueBoolean | ValueJson

  /** A row of `extfields.field_values`: the columns its trigger watches. */
  datatype Value = Value(definition: int, typeCode: string, ownerId: int,
                         text: Option<string>, numeric: Option<real>, date: Option<int>,
                         boolean: Option<bool>, json: Option<string>, deleted: bool) {
    function Ref(): Reference {
      Reference(typeCode, ownerId, deleted)
    }
  }

  datatype Definition = Definition(typeCode: string, dataType: int)

  /** The typed columns that are not NULL. */
  function Filled(v: Value): set<Column> {
    (if v.text.Some? then {ValueText} else {}) + (if v.numeric.Some? then {ValueNumeric} else {})
    + (if v.date.Some? then {ValueDate} else {}) + (if v.boolean.Some? then {ValueBoolean} else {})
    + (if v.json.Some? then {ValueJson} else {})
  }

  function Ones(b: bool): nat {
    if b then 1 else 0
  }

  /** `ck_field_values_single_value`: num_nonnulls(...) <= 1. */
  predicate SingleValue(v: Value) {
    Ones(v.text.Some?) + Ones(v.numeric.Some?) + Ones(v.date.Some?) + Ones(v.boolean.Some?) + Ones(v.json.Some?) <= 1
  }

  /** The trigger's CASE: the first column that is not NULL. */
  function Populated(v: Value): Option<Column> {
    if v.text.Some? then Some(ValueText)
    else if v.numeric.Some? then Some(ValueNumeric)
    else if v.date.Some? then Some(ValueDate)
    else if v.boolean.Some? then Some(ValueBoolean)
    else if v.json.Some? then Some(ValueJson)
    else None
  }

  /** The storage column of the value's data type, found through its definition. */
  function Storage(defs: map<int, Definition>, types: map<int, Column>, v: Value): Option<Column> {
    if v.definition in defs && defs[v.definition].dataType in types then Some(types[defs[v.definition].dataType])
    else None
  }

  /** What the rule is for: nothing but the storage column of the data type may hold the answer. */
  predicate WellStored(defs: map<int, Definition>, types: map<int, Column>, v: Value) {
    forall c :: c in Filled(v) ==> Storage(defs, types, v) == Some(c)
  }

  predicate StorageAgrees(defs: map<int, Definition>, types: map<int, Column>, v: Value) {
    Populated(v).None? || Populated(v) == Storage(defs, types, v)
  }

  /** Looking only at the first filled column is enough, because the CHECK allows one. */
  lemma StorageAgreesIffWellStored(defs: map<int, Definition>, types: map<int, Column>, v: Value)
    requires SingleValue(v)
    ensures StorageAgrees(defs, types, v) <==> WellStored(defs, types, v)
    ensures |Filled(v)| <= 1
  {
    if Populated(v).Some? {
      assert Filled(v) == {Populated(v).value};
    } else {
      assert Filled(v) == {};
    }
  }

  /** The value's data type, found through its definition, is stored in column `c`. */
  predicate StoredIn(defs: map<int, Definition>, types: map<int, Column>, v: Value, c: Column) {
    v.definition in defs && defs[v.definition].dataType in types && types[defs[v.definition].dataType] == c
  }

  /** Every filled column is the one the value's data type is stored in. */
  predicate InItsColumn(defs: map<int, Definition>, types: map<int, Column>, v: Value) {
    && (v.text.Some? ==> StoredIn(defs, types, v, ValueText))
    && (v.numeric.Some? ==> StoredIn(defs, types, v, ValueNumeric))
    && (v.date.Some? ==> StoredIn(defs, types, v, ValueDate))
    && (v.boolean.Some? ==> StoredIn(defs, types, v, ValueBoolean))
    && (v.json.Some? ==> StoredIn(defs, types, v, ValueJson))
  }

  predicate IsFilled(v: Value, c: Column) {
    match c
    case ValueText => v.text.Some?
    case ValueNumeric => v.numeric.Some?
    case ValueDate => v.date.Some?
    case ValueBoolean => v.boolean.Some?
    case ValueJson => v.json.Some?
  }

  lemma WellStoredIff(defs: map<int, Definition>, types: map<int, Column>, v: Value)
    ensures WellStored(defs, types, v) <==> InItsColumn(defs, types, v)
    ensures forall c :: c in Filled(v) <==> IsFilled(v, c)
  {
    forall c ensures Storage(defs, types, v) == Some(c) <==> StoredIn(defs, types, v, c) {
    }
    hide Storage, StoredIn;
    if WellStored(defs, types, v) {
      assert v.text.Some? ==> ValueText in Filled(v);
      assert v.numeric.Some? ==> ValueNumeric in Filled(v);
      assert v.date.Some? ==> ValueDate in Filled(v);
      assert v.boolean.Some? ==> ValueBoolean in Filled(v);
      assert v.json.Some? ==> ValueJson in Filled(v);
    }
  }

  predicate OwnerThere(types: Types, rows: set<Row>, v: Value) {
    v.typeCode in types && !types[v.typeCode].deleted && (types[v.typeCode].table, v.ownerId) in rows
  }

  datatype Verdict = Passed | BadOwner(existence: Existence) | WrongColumn(populated: Column, storage: Option<Column>)

  predicate CheckPasses(types: Types, rows: set<Row>, defs: map<int, Definition>, dataTypes: map<int, Column>,
                        v: Value)
  {
    v.deleted || (OwnerExists(types, rows, v.Ref()) && StorageAgrees(defs, dataTypes, v))
  }

  /** `extfields.check_field_value_integrity` on the row version its event carries. */
  method CheckFieldValue(types: Types, tables: set<string>, rows: set<Row>, defs: map<int, Definition>,
                         dataTypes: map<int, Column>, v: Value) returns (verdict: Verdict)
    requires forall r :: r in rows ==> r.0 in tables
    requires SingleValue(v)
    ensures verdict.Passed? <==> v.deleted || (OwnerThere(types, rows, v) && InItsColumn(defs, dataTypes, v))
    ensures verdict.BadOwner? <==> !v.deleted && !OwnerThere(types, rows, v)
    ensures verdict.BadOwner? ==>
      verdict.existence == if v.typeCode !in types || types[v.typeCode].deleted then NotRegistered
                           else if types[v.typeCode].table !in tables then UndefinedTable else Missing
    ensures verdict.WrongColumn? ==>
      && IsFilled(v, verdict.populated) && !StoredIn(defs, dataTypes, v, verdict.populated)
      && (verdict.storage.Some? ==> StoredIn(defs, dataTypes, v, verdict.storage.value))
      && (verdict.storage.None? ==> forall c :: !StoredIn(defs, dataTypes, v, c))
  {
    if v.deleted {
      return Passed;
    }
    var existence := AssertEntityExists(types, tables, rows, v.typeCode, v.ownerId);
    if !existence.Exists? {
      return BadOwner(existence);
    }
    StorageAgreesIffWellStored(defs, dataTypes, v);
    WellStoredIff(defs, dataTypes, v);
    var storage := Storage(defs, dataTypes, v);
    var populated := Populated(v);
    if populated.Some? && populated != storage {
      assert Filled(v) == {populated.value};
      return WrongColumn(populated.value, storage);
    }
    return Passed;
  }
}
