/** What each statement on values, definitions and owners needs and what it does, field by field. */
module FieldValueSteps {
  import opened Basics
  import opened FieldValueRuns
  import opened FieldValues
  import opened Registry

  /** A transaction sees its own values, registry rows and owner rows, and the committed ones it has not changed. */
  lemma ViewRow(s: State, tx: Tx, id: int, code: string, owner: Row)
    requires tx in s.open
    ensures var v, o, b := s.View(tx), s.open[tx], s.base;
      && (id in o.values ==> (id in v.values <==> o.values[id].Some?))
      && (id in o.values && o.values[id].Some? ==> v.values[id] == o.values[id].value)
      && (id !in o.values ==> (id in v.values <==> id in b.values) && (id in b.values ==> v.values[id] == b.values[id]))
      && (code in o.types ==> (code in v.types <==> o.types[code].Some?))
      && (code in o.types && o.types[code].Some? ==> v.types[code] == o.types[code].value)
      && (code !in o.types ==>
           (code in v.types <==> code in b.types) && (code in b.types ==> v.types[code] == b.types[code]))
      && (owner in v.rows <==> if owner in o.rows then o.rows[owner] else owner in b.rows)
  {
  }

  predicate AtMostOneFilled(v: Value) {
    forall c, d :: IsFilled(v, c) && IsFilled(v, d) ==> c == d
  }

  lemma SingleValueIff(v: Value)
    ensures SingleValue(v) <==> AtMostOneFilled(v)
  {
    if AtMostOneFilled(v) {
      assert v.text.Some? ==> IsFilled(v, ValueText);
      assert v.numeric.Some? ==> IsFilled(v, ValueNumeric);
      assert v.date.Some? ==> IsFilled(v, ValueDate);
      assert v.boolean.Some? ==> IsFilled(v, ValueBoolean);
      assert v.json.Some? ==> IsFilled(v, ValueJson);
    }
  }

  /** A value can be written if nobody else is writing it, at most one column is filled, and its definition fits. */
  lemma WritePossibleIff(s: State, tx: Tx, id: int, row: Value)
    ensures (exists s' :: Next(s, Write(tx, id, row), s'))
       <==> && tx in s.open && (forall other :: other in s.open && other != tx ==> id !in s.open[other].values)
            && AtMostOneFilled(row)
            && row.definition in s.View(tx).defs && s.View(tx).defs[row.definition].typeCode == row.typeCode
  {
    SingleValueIff(row);
    if StatementAllowed(s, Write(tx, id, row)) {
      assert Next(s, Write(tx, id, row),
                  s.(open := s.open[tx := After(s.View(tx), s.open[tx], Write(tx, id, row))]));
    }
    hide SingleValue, AtMostOneFilled;
  }

  /** The queued check passes for a deleted value, and else exactly if its owner is there and it is in its column. */
  lemma FirePossibleIff(s: State, tx: Tx)
    requires tx in s.open && s.open[tx].queue != [] && SingleValue(s.open[tx].queue[0].row)
    ensures var v, row := s.View(tx), s.open[tx].queue[0].row;
      (exists s' :: Next(s, Fire(tx), s'))
      <==> row.deleted || (OwnerThere(v.types, v.rows, row) && InItsColumn(v.defs, v.dataTypes, row))
  {
    var v, row := s.View(tx), s.open[tx].queue[0].row;
    StorageAgreesIffWellStored(v.defs, v.dataTypes, row);
    WellStoredIff(v.defs, v.dataTypes, row);
    hide WellStored, StorageAgrees, InItsColumn;
    if StatementAllowed(s, Fire(tx)) {
      assert Next(s, Fire(tx), s.(open := s.open[tx := After(v, s.open[tx], Fire(tx))]));
    }
  }

  /** A value can be deleted if it is visible and nobody else is writing it; owner rows are free to come and go. */
  lemma DeletePossibleIff(s: State, tx: Tx, id: int, owner: Row)
    ensures (exists s' :: Next(s, Delete(tx, id), s'))
       <==> && tx in s.open && id in s.View(tx).values
            && (forall other :: other in s.open && other != tx ==> id !in s.open[other].values)
    ensures (exists s' :: Next(s, InsertRow(tx, owner), s')) <==> tx in s.open
    ensures (exists s' :: Next(s, DropRow(tx, owner), s')) <==> tx in s.open
  {
    if tx in s.open {
      if s.ValueUnlocked(tx, id) && id in s.View(tx).values {
        assert Next(s, Delete(tx, id), Stepped(s, Delete(tx, id)));
      }
      assert Next(s, InsertRow(tx, owner), Stepped(s, InsertRow(tx, owner)));
      assert Next(s, DropRow(tx, owner), Stepped(s, DropRow(tx, owner)));
    }
  }

  function Stepped(s: State, step: Step): State
    requires step.tx in s.open
  {
    s.(open := s.open[step.tx := After(s.View(step.tx), s.open[step.tx], step)])
  }

  /** Definitions, data types and registry rows can be added or changed unless another transaction is at them. */
  lemma CatalogPossibleIff(s: State, tx: Tx, id: int, def: Definition, storage: Column, code: string,
                           entry: Option<EntityType>)
    ensures (exists s' :: Next(s, AddDefinition(tx, id, def), s'))
       <==> && tx in s.open && id !in s.View(tx).defs && def.dataType in s.View(tx).dataTypes
            && (forall other :: other in s.open && other != tx ==> id !in s.open[other].defs)
    ensures (exists s' :: Next(s, AddDataType(tx, id, storage), s'))
       <==> && tx in s.open && id !in s.View(tx).dataTypes
            && (forall other :: other in s.open && other != tx ==> id !in s.open[other].dataTypes)
    ensures (exists s' :: Next(s, Register(tx, code, entry), s'))
       <==> tx in s.open && (forall other :: other in s.open && other != tx ==> code !in s.open[other].types)
  {
    if tx in s.open {
      if StatementAllowed(s, AddDefinition(tx, id, def)) {
        assert Next(s, AddDefinition(tx, id, def), Stepped(s, AddDefinition(tx, id, def)));
      }
      if StatementAllowed(s, AddDataType(tx, id, storage)) {
        assert Next(s, AddDataType(tx, id, storage), Stepped(s, AddDataType(tx, id, storage)));
      }
      if StatementAllowed(s, Register(tx, code, entry)) {
        assert Next(s, Register(tx, code, entry), Stepped(s, Register(tx, code, entry)));
      }
    }
    hide After, State.View;
  }

  /** What each statement leaves of its own transaction. */
  lemma StatementWrites(s: State, step: Step, s': State)
    requires Next(s, step, s') && !step.Begin? && !step.Commit? && !step.Abort?
    ensures step.tx in s.open && step.tx in s'.open && s'.base == s.base
    ensures s'.open.Keys == s.open.Keys && forall t :: t in s.open && t != step.tx ==> s'.open[t] == s.open[t]
    ensures var v, o, o' := s.View(step.tx), s.open[step.tx], s'.open[step.tx];
      match step
      case Write(_, id, row) =>
        o' == Open(o.values[id := Some(row)], o.types, o.rows, o.defs, o.dataTypes, o.retargeted, o.checkedAt - {id},
                   o.queue + [Event(id, row)])
      case Delete(_, id) =>
        o' == Open(o.values[id := None], o.types, o.rows, o.defs, o.dataTypes, o.retargeted, o.checkedAt, o.queue)
      case AddDefinition(_, id, def) =>
        o' == Open(o.values, o.types, o.rows, o.defs[id := def], o.dataTypes, o.retargeted, o.checkedAt, o.queue)
      case AddDataType(_, id, storage) =>
        o' == Open(o.values, o.types, o.rows, o.defs, o.dataTypes[id := storage], o.retargeted, o.checkedAt, o.queue)
      case Register(_, code, entry) =>
        o' == Open(o.values, o.types[code := entry], o.rows, o.defs, o.dataTypes,
                   if code in v.types then o.retargeted + {code} else o.retargeted, o.checkedAt, o.queue)
      case InsertRow(_, owner) =>
        o' == Open(o.values, o.types, o.rows[owner := true], o.defs, o.dataTypes, o.retargeted, o.checkedAt, o.queue)
      case DropRow(_, owner) =>
        o' == Open(o.values, o.types, o.rows[owner := false], o.defs, o.dataTypes, o.retargeted, o.checkedAt, o.queue)
      case Fire(_) => o.queue != [] && o' == o.(queue := o.queue[1..], checkedAt := o'.checkedAt)
      case _ => true
  {
  }
}
