/**
 * Field values, their owners and the type registry under concurrent transactions.
 *
 * Definitions and data types may be added but never retyped. Nothing locks an owner row, so it can
 * be hard-deleted after a value's check has passed. A log remembers what each committed transaction
 * deleted and re-registered, and each value how long the log was when its check passed.
 */
module FieldValueRuns {
  import opened Basics
  import opened Registry
  import opened FieldValues

  type Tx = nat

  datatype Event = Event(id: int, row: Value)

  /** What one transaction takes away from others: rows it deletes, registry rows it changes. */
  datatype Delta = Delta(dropped: set<Row>, retargeted: set<string>)

  /** One open transaction: private writes, which of its values were checked when, and queued events. */
  datatype Open = Open(values: Writes<int, Value>, types: Writes<string, EntityType>, rows: map<Row, bool>,
                       defs: map<int, Definition>, dataTypes: map<int, Column>,
                       retargeted: set<string>, checkedAt: map<int, nat>, queue: seq<Event>)

  const EMPTY := Open(map[], map[], map[], map[], map[], {}, map[], [])

  /** The tables, one log entry for each committed transaction, and the log's length at each value's check. */
  datatype Base = Base(values: map<int, Value>, types: Types, rows: set<Row>,
                       defs: map<int, Definition>, dataTypes: map<int, Column>,
                       log: seq<Delta>, checkedAt: map<int, nat>)

  datatype State = State(base: Base, open: map<Tx, Open>) {
    /** What `tx` sees, and what the tables hold once it commits. */
    function View(tx: Tx): Base
      requires tx in open
    {
      Under(base, open[tx])
    }

    predicate ValueUnlocked(tx: Tx, id: int) {
      forall other :: other in open && other != tx ==> id !in open[other].values
    }
  }

  function Under(b: Base, o: Open): Base {
    Base(Overlay(b.values, o.values), Overlay(b.types, o.types), RowsUnder(b.rows, o.rows),
         b.defs + o.defs, b.dataTypes + o.dataTypes, b.log + [OwnDelta(o)], Times(b.checkedAt, o))
  }

  /** Rows the transaction leaves deleted, and the registry rows it changed. */
  function OwnDelta(o: Open): Delta {
    Delta((set r | r in o.rows && !o.rows[r]), o.retargeted)
  }

  /** A value the transaction wrote was checked when its own event fired, if at all. */
  function Times(checkedAt: map<int, nat>, o: Open): map<int, nat> {
    map id | id in checkedAt.Keys + o.checkedAt.Keys && (id in o.checkedAt || id !in o.values)
      :: if id in o.checkedAt then o.checkedAt[id] else checkedAt[id]
  }

  function RowsUnder(rows: set<Row>, changes: map<Row, bool>): set<Row> {
    (set r | r in rows && (r in changes ==> changes[r])) + (set r | r in changes && changes[r])
  }

  // ---- steps ----

  datatype Step =
    | Begin(tx: Tx)
    | Write(tx: Tx, id: int, row: Value)
    | Delete(tx: Tx, id: int)
    | AddDefinition(tx: Tx, id: int, def: Definition)
    | AddDataType(tx: Tx, id: int, storage: Column)
    | Register(tx: Tx, code: string, entry: Option<EntityType>)
    | InsertRow(tx: Tx, target: Row)
    | DropRow(tx: Tx, target: Row)
    | Fire(tx: Tx)
    | Commit(tx: Tx)
    | Abort(tx: Tx)

  /** The composite foreign key: the definition exists and is for the value's own entity type. */
  predicate HasDefinition(b: Base, row: Value) {
    row.definition in b.defs && b.defs[row.definition].typeCode == row.typeCode
  }

  predicate FireAllowed(s: State, tx: Tx) {
    && tx in s.open && s.open[tx].queue != []
    && var v := s.View(tx);
    CheckPasses(v.types, v.rows, v.defs, v.dataTypes, s.open[tx].queue[0].row)
  }

  /** The log entry of the transaction that sees `v`: its last. */
  function Now(v: Base): nat {
    if v.log == [] then 0 else |v.log| - 1
  }

  /** The check of the oldest event has passed; it counts for the value if the event carries it as it stands. */
  function Fired(v: Base, o: Open): Open
    requires o.queue != []
  {
    var e := o.queue[0];
    var final := e.id in v.values && v.values[e.id] == e.row;
    o.(queue := o.queue[1..], checkedAt := if final then o.checkedAt[e.id := Now(v)] else o.checkedAt)
  }

  /** What one statement leaves of its own transaction; every UPDATE here sets a watched column. */
  function After(v: Base, o: Open, step: Step): Open {
    match step
    case Write(_, id, row) =>
      o.(values := o.values[id := Some(row)], checkedAt := o.checkedAt - {id}, queue := o.queue + [Event(id, row)])
    case Delete(_, id) => o.(values := o.values[id := None])
    case AddDefinition(_, id, def) => o.(defs := o.defs[id := def])
    case AddDataType(_, id, storage) => o.(dataTypes := o.dataTypes[id := storage])
    case Register(_, code, entry) =>
      o.(types := o.types[code := entry], retargeted := o.retargeted + if code in v.types then {code} else {})
    case InsertRow(_, target) => o.(rows := o.rows[target := true])
    case DropRow(_, target) => o.(rows := o.rows[target := false])
    case Fire(_) => if o.queue == [] then o else Fired(v, o)
    case _ => o
  }

  predicate StatementAllowed(s: State, step: Step) {
    && step.tx in s.open
    && match step
       case Write(tx, id, row) => s.ValueUnlocked(tx, id) && SingleValue(row) && HasDefinition(s.View(tx), row)
       case Delete(tx, id) => s.ValueUnlocked(tx, id) && id in s.View(tx).values
       case AddDefinition(tx, id, def) =>
         && id !in s.View(tx).defs && def.dataType in s.View(tx).dataTypes
         && forall other :: other in s.open && other != tx ==> id !in s.open[other].defs
       case AddDataType(tx, id, _) =>
         && id !in s.View(tx).dataTypes
         && forall other :: other in s.open && other != tx ==> id !in s.open[other].dataTypes
       case Register(tx, code, _) => forall other :: other in s.open && other != tx ==> code !in s.open[other].types
       case InsertRow(_, _) => true
       case DropRow(_, _) => true
       case Fire(tx) => FireAllowed(s, tx)
       case _ => false
  }

  function Closed(s: State, tx: Tx, base: Base): State {
    State(base, s.open - {tx})
  }

  predicate Next(s: State, step: Step, s': State) {
    match step
    case Begin(tx) => tx !in s.open && s' == s.(open := s.open[tx := EMPTY])
    case Commit(tx) => tx in s.open && s.open[tx].queue == [] && s' == Closed(s, tx, s.View(tx))
    case Abort(tx) => tx in s.open && s' == Closed(s, tx, s.base)
    case _ =>
      && StatementAllowed(s, step)
      && s' == s.(open := s.open[step.tx := After(s.View(step.tx), s.open[step.tx], step)])
  }

  // ---- what every step keeps ----

  /** The definition and data type of a value are there, so its storage column is settled. */
  predicate Typed(b: Base, row: Value) {
    HasDefinition(b, row) && b.defs[row.definition].dataType in b.dataTypes
  }

  /** Some transaction that committed as the `n`-th or later changed the registry row. */
  predicate Retargeted(log: seq<Delta>, n: nat, code: string) {
    exists k :: n <= k < |log| && code in log[k].retargeted
  }

  /** Some transaction that committed as the `n`-th or later deleted the row. */
  predicate Dropped(log: seq<Delta>, n: nat, row: Row) {
    exists k :: n <= k < |log| && row in log[k].dropped
  }

  /** The owner was there when the value was checked: it still is, or the log since then says what took it away. */
  predicate OwnerProven(b: Base, id: int, row: Value) {
    && id in b.checkedAt
    && (|| Retargeted(b.log, b.checkedAt[id], row.typeCode)
        || (Registered(b.types, row.typeCode)
            && var owner := (b.types[row.typeCode].table, row.ownerId);
               owner in b.rows || Dropped(b.log, b.checkedAt[id], owner)))
  }

  predicate Checked(b: Base, id: int, row: Value) {
    row.deleted || (StorageAgrees(b.defs, b.dataTypes, row) && OwnerProven(b, id, row))
  }

  /** Every value is typed, and was checked or has an event waiting that carries it as it stands. */
  ghost predicate Sound(b: Base, queue: seq<Event>) {
    && TypesKnown(b.defs, b.dataTypes)
    && forall id :: id in b.values ==>
         && SingleValue(b.values[id]) && Typed(b, b.values[id])
         && (Checked(b, id, b.values[id]) || Event(id, b.values[id]) in queue)
  }

  /** The locks of two open transactions keep their writes apart. */
  ghost predicate Apart(a: Open, b: Open) {
    a.values.Keys !! b.values.Keys && a.types.Keys !! b.types.Keys
    && a.defs.Keys !! b.defs.Keys && a.dataTypes.Keys !! b.dataTypes.Keys
  }

  /** A transaction logs its own registry changes and checks only its own values; new ids are new. */
  ghost predicate Logged(b: Base, o: Open) {
    && (forall c :: c in o.types && c in b.types ==> c in o.retargeted)
    && o.checkedAt.Keys <= o.values.Keys && TimesWithin(o.checkedAt, |b.log|)
    && (forall e :: e in o.queue ==> e.id in o.values)
    && o.defs.Keys !! b.defs.Keys && o.dataTypes.Keys !! b.dataTypes.Keys
  }

  predicate TimesWithin(checkedAt: map<int, nat>, n: nat) {
    forall id :: id in checkedAt ==> checkedAt[id] <= n
  }

  ghost predicate Inv(s: State) {
    && (forall a, b :: a in s.open && b in s.open && a != b ==> Apart(s.open[a], s.open[b]))
    && Sound(s.base, []) && TimesWithin(s.base.checkedAt, |s.base.log|)
    && forall tx :: tx in s.open ==> Sound(s.View(tx), s.open[tx].queue) && Logged(s.base, s.open[tx])
  }

  // ---- each statement keeps the invariant ----

  /** `b'` knows everything `b` knows, and what it no longer has is in its log from the last entry of `b` on. */
  ghost predicate Follows(b: Base, b': Base) {
    && b.log != []
    && (forall d :: d in b.defs ==> d in b'.defs && b'.defs[d] == b.defs[d])
    && (forall t :: t in b.dataTypes ==> t in b'.dataTypes && b'.dataTypes[t] == b.dataTypes[t])
    && (forall c :: c in b.types ==>
          (c in b'.types && b'.types[c] == b.types[c]) || Retargeted(b'.log, |b.log| - 1, c))
    && (forall r :: r in b.rows ==> r in b'.rows || Dropped(b'.log, |b.log| - 1, r))
    && (forall n, c :: Retargeted(b.log, n, c) ==> Retargeted(b'.log, n, c))
    && (forall n, r :: Dropped(b.log, n, r) ==> r in b'.rows || Dropped(b'.log, n, r))
  }

  lemma EarlierStart(log: seq<Delta>, n: nat, m: nat)
    requires n <= m
    ensures forall c :: Retargeted(log, m, c) ==> Retargeted(log, n, c)
    ensures forall r :: Dropped(log, m, r) ==> Dropped(log, n, r)
  {
  }

  lemma FollowsKeepsRow(b: Base, b': Base, id: int, row: Value)
    requires Follows(b, b') && Typed(b, row)
    requires id in b.checkedAt ==>
      b.checkedAt[id] < |b.log| && id in b'.checkedAt && b'.checkedAt[id] == b.checkedAt[id]
    ensures Typed(b', row)
    ensures Checked(b, id, row) ==> Checked(b', id, row)
  {
    if id in b.checkedAt {
      EarlierStart(b'.log, b.checkedAt[id], |b.log| - 1);
    }
    hide Retargeted, Dropped;
  }

  /** What one statement may change of its own transaction's view. */
  ghost predicate OwnKeeps(b: Base, o: Open, o': Open) {
    var v, v' := Under(b, o), Under(b, o');
    && (forall d :: d in v.defs ==> d in v'.defs && v'.defs[d] == v.defs[d])
    && (forall t :: t in v.dataTypes ==> t in v'.dataTypes && v'.dataTypes[t] == v.dataTypes[t])
    && (forall c :: c in v.types ==> (c in v'.types && v'.types[c] == v.types[c]) || c in OwnDelta(o').retargeted)
    && (forall r :: r in v.rows ==> r in v'.rows || r in OwnDelta(o').dropped)
    && OwnDelta(o).retargeted <= OwnDelta(o').retargeted
    && (forall r :: r in OwnDelta(o).dropped ==> r in v'.rows || r in OwnDelta(o').dropped)
  }

  /** Replacing the last entry of a log. */
  lemma LastEntry(log: seq<Delta>, d: Delta, d': Delta)
    ensures forall c :: c in d'.retargeted ==> Retargeted(log + [d'], |log|, c)
    ensures forall r :: r in d'.dropped ==> Dropped(log + [d'], |log|, r)
    ensures d.retargeted <= d'.retargeted ==>
      forall n, c :: Retargeted(log + [d], n, c) ==> Retargeted(log + [d'], n, c)
    ensures forall n, r :: Dropped(log + [d], n, r) ==> r in d.dropped || Dropped(log + [d'], n, r)
    ensures forall n, r :: Dropped(log + [d], n, r) && r in d'.dropped ==> Dropped(log + [d'], n, r)
  {
    var a, b := log + [d], log + [d'];
    assert b[|log|] == d';
    forall n: nat, c | d.retargeted <= d'.retargeted && Retargeted(a, n, c) ensures Retargeted(b, n, c) {
      var k :| n <= k < |a| && c in a[k].retargeted;
      assert k < |log| ==> b[k] == a[k];
      assert c in b[k].retargeted;
    }
    forall n: nat, r | Dropped(a, n, r) ensures r in d.dropped || Dropped(b, n, r) {
      var k :| n <= k < |a| && r in a[k].dropped;
      assert k < |log| ==> b[k] == a[k];
    }
    forall n: nat, r | Dropped(a, n, r) && r in d'.dropped ensures Dropped(b, n, r) {
      assert r in b[|log|].dropped;
    }
  }

  lemma OwnFollows(b: Base, o: Open, o': Open)
    requires OwnKeeps(b, o, o')
    ensures Follows(Under(b, o), Under(b, o'))
  {
    var d, d' := OwnDelta(o), OwnDelta(o');
    LastEntry(b.log, d, d');
    hide Retargeted, Dropped, OwnDelta, Overlay, RowsUnder, Times;
    var v, v' := Under(b, o), Under(b, o');
    forall n, r | Dropped(v.log, n, r) ensures r in v'.rows || Dropped(v'.log, n, r) {
    }
  }

  lemma RegisterKeeps(b: Base, o: Open, step: Step)
    requires step.Register?
    requires Logged(b, o)
    ensures OwnKeeps(b, o, After(Under(b, o), o, step))
  {
  }

  lemma InsertRowKeeps(b: Base, o: Open, step: Step)
    requires step.InsertRow?
    ensures OwnKeeps(b, o, After(Under(b, o), o, step))
  {
  }

  lemma DropRowKeeps(b: Base, o: Open, step: Step)
    requires step.DropRow?
    ensures OwnKeeps(b, o, After(Under(b, o), o, step))
  {
  }

  lemma AddDefinitionKeeps(b: Base, o: Open, step: Step)
    requires step.AddDefinition?
    requires step.id !in Under(b, o).defs
    ensures OwnKeeps(b, o, After(Under(b, o), o, step))
  {
  }

  lemma AddDataTypeKeeps(b: Base, o: Open, step: Step)
    requires step.AddDataType?
    requires step.id !in Under(b, o).dataTypes
    ensures OwnKeeps(b, o, After(Under(b, o), o, step))
  {
  }

  lemma OthersUntouched(v: Base, o: Open, step: Step)
    requires !step.Register? && !step.InsertRow? && !step.DropRow? && !step.AddDefinition? && !step.AddDataType?
    ensures var o' := After(v, o, step);
      && o'.types == o.types && o'.rows == o.rows && o'.defs == o.defs && o'.dataTypes == o.dataTypes
      && o'.retargeted == o.retargeted
  {
  }

  lemma UntouchedKeeps(b: Base, o: Open, o': Open)
    requires o'.types == o.types && o'.rows == o.rows && o'.defs == o.defs && o'.dataTypes == o.dataTypes
    requires o'.retargeted == o.retargeted
    ensures OwnKeeps(b, o, o')
  {
  }

  lemma OtherKeeps(b: Base, o: Open, step: Step)
    requires !step.Register? && !step.InsertRow? && !step.DropRow? && !step.AddDefinition? && !step.AddDataType?
    ensures OwnKeeps(b, o, After(Under(b, o), o, step))
  {
    hide *;
    OthersUntouched(Under(b, o), o, step);
    UntouchedKeeps(b, o, After(Under(b, o), o, step));
  }

  lemma StatementFollows(b: Base, o: Open, step: Step)
    requires Logged(b, o)
    requires step.AddDefinition? ==> step.id !in Under(b, o).defs
    requires step.AddDataType? ==> step.id !in Under(b, o).dataTypes
    ensures Follows(Under(b, o), Under(b, After(Under(b, o), o, step)))
  {
    hide *;
    match step {
      case Register(_, _, _) => RegisterKeeps(b, o, step);
      case InsertRow(_, _) => InsertRowKeeps(b, o, step);
      case DropRow(_, _) => DropRowKeeps(b, o, step);
      case AddDefinition(_, _, _) => AddDefinitionKeeps(b, o, step);
      case AddDataType(_, _, _) => AddDataTypeKeeps(b, o, step);
      case _ => OtherKeeps(b, o, step);
    }
    OwnFollows(b, o, After(Under(b, o), o, step));
  }

  lemma QueueAfter(v: Base, o: Open, step: Step, e: Event)
    requires e in o.queue && (step.Fire? ==> e != o.queue[0])
    ensures e in After(v, o, step).queue
  {
    if step.Fire? {
      var i :| 0 <= i < |o.queue| && o.queue[i] == e;
      assert o.queue[1..][i - 1] == e;
    }
  }

  /** A check that passes for a value as it stands counts from now on. */
  lemma FiredIsChecked(b: Base, o: Open, id: int, row: Value)
    requires o.queue != [] && o.queue[0] == Event(id, row) && id in o.values
    requires id in Under(b, o).values && Under(b, o).values[id] == row
    requires var v := Under(b, o); CheckPasses(v.types, v.rows, v.defs, v.dataTypes, row)
    ensures Checked(Under(b, Fired(Under(b, o), o)), id, row)
  {
    hide Overlay, RowsUnder, StorageAgrees;
  }

  /** A statement that neither writes a value nor passes its check leaves the time of its check. */
  lemma TimeKept(b: Base, o: Open, step: Step, id: int)
    requires !(step.Write? && step.id == id) && !(step.Delete? && step.id == id)
    requires id in Under(b, o).values
    requires step.Fire? && o.queue != [] ==> o.queue[0] != Event(id, Under(b, o).values[id])
    ensures var v, v' := Under(b, o), Under(b, After(Under(b, o), o, step));
      (id in v.checkedAt <==> id in v'.checkedAt) && (id in v.checkedAt ==> v'.checkedAt[id] == v.checkedAt[id])
  {
    hide Overlay, RowsUnder;
  }

  lemma TimesBound(b: Base, o: Open)
    requires Logged(b, o) && TimesWithin(b.checkedAt, |b.log|)
    ensures TimesWithin(Under(b, o).checkedAt, |b.log|) && |Under(b, o).log| == |b.log| + 1
  {
  }

  /** A value the statement did not write stays checked, or keeps its event unless that event just passed. */
  lemma OldRowSound(s: State, step: Step, id: int)
    requires Inv(s) && StatementAllowed(s, step) && id in s.View(step.tx).values
    requires !(step.Write? && step.id == id) && !(step.Delete? && step.id == id)
    ensures var o' := After(s.View(step.tx), s.open[step.tx], step);
            var row := s.View(step.tx).values[id];
            && SingleValue(row) && Typed(Under(s.base, o'), row)
            && (Checked(Under(s.base, o'), id, row) || Event(id, row) in o'.queue)
  {
    var o, v := s.open[step.tx], s.View(step.tx);
    var row := v.values[id];
    StatementFollows(s.base, o, step);
    TimesBound(s.base, o);
    var v' := Under(s.base, After(v, o, step));
    if step.Fire? && o.queue[0] == Event(id, row) {
      FiredIsChecked(s.base, o, id, row);
      FiredTyped(s.base, o, row);
    } else {
      TimeKept(s.base, o, step, id);
      FollowsKeepsRow(v, v', id, row);
      if !Checked(v, id, row) {
        QueueAfter(v, o, step, Event(id, row));
      }
    }
  }

  lemma FiredTyped(b: Base, o: Open, row: Value)
    requires o.queue != [] && Typed(Under(b, o), row)
    ensures Typed(Under(b, Fired(Under(b, o), o)), row)
  {
  }

  lemma ValuesAfter(b: Base, o: Open, step: Step, id: int)
    requires id in Under(b, After(Under(b, o), o, step)).values
    ensures var row := Under(b, After(Under(b, o), o, step)).values[id];
            || (step.Write? && step.id == id && step.row == row)
            || (id in Under(b, o).values && Under(b, o).values[id] == row)
  {
    match step
    case Write(_, k, row) => OverlayWrite(b.values, o.values, k, row);
    case Delete(_, k) => OverlayDelete(b.values, o.values, k);
    case _ => assert After(Under(b, o), o, step).values == o.values;
  }

  predicate TypesKnown(defs: map<int, Definition>, dataTypes: map<int, Column>) {
    forall d :: d in defs ==> defs[d].dataType in dataTypes
  }

  lemma DefinitionAdded(defs: map<int, Definition>, more: map<int, Definition>,
                        dataTypes: map<int, Column>, id: int, def: Definition)
    requires TypesKnown(defs + more, dataTypes) && def.dataType in dataTypes
    ensures TypesKnown(defs + more[id := def], dataTypes)
  {
    assert defs + more[id := def] == (defs + more)[id := def];
  }

  lemma DefinitionsAfter(b: Base, o: Open, step: Step)
    requires TypesKnown(Under(b, o).defs, Under(b, o).dataTypes)
    requires step.AddDefinition? ==> step.def.dataType in Under(b, o).dataTypes
    ensures var v' := Under(b, After(Under(b, o), o, step)); TypesKnown(v'.defs, v'.dataTypes)
  {
    hide After, Overlay, RowsUnder;
    DefinitionChange(o, step, Under(b, o));
    if step.AddDefinition? {
      DefinitionAdded(b.defs, o.defs, b.dataTypes + o.dataTypes, step.id, step.def);
    }
  }

  lemma DefinitionChange(o: Open, step: Step, v: Base)
    ensures var o' := After(v, o, step);
      && o'.defs == (if step.AddDefinition? then o.defs[step.id := step.def] else o.defs)
      && o'.dataTypes == (if step.AddDataType? then o.dataTypes[step.id := step.storage] else o.dataTypes)
  {
  }

  lemma WrittenRowTyped(s: State, step: Step)
    requires Inv(s) && StatementAllowed(s, step) && step.Write?
    ensures var o' := After(s.View(step.tx), s.open[step.tx], step);
            Typed(Under(s.base, o'), step.row) && Event(step.id, step.row) in o'.queue
  {
    var o, v := s.open[step.tx], s.View(step.tx);
    var o' := After(v, o, step);
    assert o'.queue[|o.queue|] == Event(step.id, step.row);
    assert Under(s.base, o').defs == v.defs && Under(s.base, o').dataTypes == v.dataTypes;
  }

  lemma StatementSound(s: State, step: Step)
    requires Inv(s) && StatementAllowed(s, step)
    ensures var o' := After(s.View(step.tx), s.open[step.tx], step); Sound(Under(s.base, o'), o'.queue)
  {
    var o, v := s.open[step.tx], s.View(step.tx);
    var o' := After(v, o, step);
    var v' := Under(s.base, o');
    DefinitionsAfter(s.base, o, step);
    forall id | id in v'.values
      ensures SingleValue(v'.values[id]) && Typed(v', v'.values[id])
      ensures Checked(v', id, v'.values[id]) || Event(id, v'.values[id]) in o'.queue
    {
      ValuesAfter(s.base, o, step, id);
      if step.Write? && step.id == id && step.row == v'.values[id] {
        WrittenRowTyped(s, step);
      } else {
        OldRowSound(s, step, id);
      }
    }
  }

  lemma OthersSeeTheSame(s: State, step: Step, o': Open, t: Tx)
    requires t in s.open && t != step.tx
    ensures var s' := s.(open := s.open[step.tx := o']); s'.View(t) == s.View(t) && s'.open[t] == s.open[t]
  {
  }

  lemma StatementKeeps(s: State, step: Step, s': State)
    requires Inv(s) && Next(s, step, s') && StatementAllowed(s, step)
    ensures Inv(s')
  {
    hide After, Apart, Sound, Logged, Under;
    var o' := After(s.View(step.tx), s.open[step.tx], step);
    StatementSound(s, step);
    StatementApart(s, step);
    assert s' == s.(open := s.open[step.tx := o']);
    assert s'.View(step.tx) == Under(s.base, o');
    forall t | t in s'.open && t != step.tx
      ensures Sound(s'.View(t), s'.open[t].queue) && Logged(s'.base, s'.open[t])
    {
      OthersSeeTheSame(s, step, o', t);
    }
  }

  lemma StatementLogged(b: Base, o: Open, step: Step)
    requires Logged(b, o)
    requires step.AddDefinition? ==> step.id !in Under(b, o).defs
    requires step.AddDataType? ==> step.id !in Under(b, o).dataTypes
    ensures Logged(b, After(Under(b, o), o, step))
  {
    hide RowsUnder;
  }

  lemma StatementApart(s: State, step: Step)
    requires Inv(s) && StatementAllowed(s, step)
    ensures var o' := After(s.View(step.tx), s.open[step.tx], step);
            && Logged(s.base, o')
            && forall t :: t in s.open && t != step.tx ==> Apart(o', s.open[t]) && Apart(s.open[t], o')
  {
    StatementLogged(s.base, s.open[step.tx], step);
    hide Logged, Under, Sound;
    forall t | t in s.open && t != step.tx
      ensures Apart(After(s.View(step.tx), s.open[step.tx], step), s.open[t])
    {
      assert Apart(s.open[step.tx], s.open[t]);
    }
  }

  // ---- commit ----

  /** What a log says, it says with more entries. */
  lemma LogGrows(log: seq<Delta>, d: Delta, last: seq<Delta>)
    requires |last| <= 1
    ensures forall n, c :: Retargeted(log + last, n, c) ==> Retargeted(log + [d] + last, n, c)
    ensures forall n, r :: Dropped(log + last, n, r) ==> Dropped(log + [d] + last, n, r)
    ensures forall c :: c in d.retargeted ==> Retargeted(log + [d] + last, |log|, c)
    ensures forall r :: r in d.dropped ==> Dropped(log + [d] + last, |log|, r)
  {
    var a, b := log + last, log + [d] + last;
    assert b[|log|] == d;
    forall k | 0 <= k < |a| ensures k < |log| ==> b[k] == a[k] {
    }
    forall k | |log| <= k < |a| ensures b[k + 1] == a[k] {
    }
    forall n: nat, c | Retargeted(a, n, c) ensures Retargeted(b, n, c) {
      var k :| n <= k < |a| && c in a[k].retargeted;
      assert c in b[if k < |log| then k else k + 1].retargeted;
    }
    forall n: nat, r | Dropped(a, n, r) ensures Dropped(b, n, r) {
      var k :| n <= k < |a| && r in a[k].dropped;
      assert r in b[if k < |log| then k else k + 1].dropped;
    }
  }

  /** What `t` sees of the tables, before and after `tx` has committed. */
  lemma ViewTables(b: Base, o: Open, t: Open)
    requires Apart(o, t) && Logged(b, o) && Logged(b, t)
    ensures var v, m := Under(b, t), Under(Under(b, o), t);
      && (forall d :: d in v.defs ==> d in m.defs && m.defs[d] == v.defs[d])
      && (forall k :: k in v.dataTypes ==> k in m.dataTypes && m.dataTypes[k] == v.dataTypes[k])
      && (forall c :: c in v.types ==> (c in m.types && m.types[c] == v.types[c]) || c in OwnDelta(o).retargeted)
      && (forall r :: r in v.rows ==> r in m.rows || r in OwnDelta(o).dropped)
  {
    hide Times;
  }

  lemma ViewFollows(b: Base, o: Open, t: Open)
    requires Apart(o, t) && Logged(b, o) && Logged(b, t)
    ensures Follows(Under(b, t), Under(Under(b, o), t))
  {
    LogGrows(b.log, OwnDelta(o), [OwnDelta(t)]);
    ViewTables(b, o, t);
    hide Retargeted, Dropped, Times, Overlay, RowsUnder, Apart, Logged, OwnDelta;
    assert Under(Under(b, o), t).log == b.log + [OwnDelta(o)] + [OwnDelta(t)];
  }

  /** What `tx` sees of the tables, and `t` once `tx` has committed. */
  lemma CommittedTables(b: Base, o: Open, t: Open)
    requires Apart(o, t) && Logged(b, o) && Logged(b, t)
    ensures var v, m := Under(b, o), Under(Under(b, o), t);
      && (forall d :: d in v.defs ==> d in m.defs && m.defs[d] == v.defs[d])
      && (forall k :: k in v.dataTypes ==> k in m.dataTypes && m.dataTypes[k] == v.dataTypes[k])
      && (forall c :: c in v.types ==> (c in m.types && m.types[c] == v.types[c]) || c in OwnDelta(t).retargeted)
      && (forall r :: r in v.rows ==> r in m.rows || r in OwnDelta(t).dropped)
  {
    hide Times;
  }

  lemma CommittedFollows(b: Base, o: Open, t: Open)
    requires Apart(o, t) && Logged(b, o) && Logged(b, t)
    ensures Follows(Under(b, o), Under(Under(b, o), t))
    ensures Logged(Under(b, o), t)
  {
    CommittedLogged(b, o, t);
    CommittedTables(b, o, t);
    var v, m := Under(b, o), Under(Under(b, o), t);
    LogGrows(v.log, OwnDelta(t), []);
    assert m.log == v.log + [OwnDelta(t)] + [] && v.log + [] == v.log;
    EarlierStart(m.log, |v.log| - 1, |v.log|);
    hide Retargeted, Dropped, Times, Overlay, RowsUnder, Apart, Logged, OwnDelta;
  }

  lemma CommittedLogged(b: Base, o: Open, t: Open)
    requires Apart(o, t) && Logged(b, o) && Logged(b, t)
    ensures Logged(Under(b, o), t)
    ensures forall c :: c in t.types && c in Under(b, o).types ==> c in t.retargeted
  {
  }

  /** A value keeps the time of its check in the view of the transaction that wrote it last. */
  lemma MergedTime(b: Base, o: Open, t: Open, id: int)
    requires Logged(b, o) && Logged(b, t)
    ensures var m, v := Under(Under(b, o), t), if id in t.values then Under(b, t) else Under(b, o);
      (id in v.checkedAt <==> id in m.checkedAt) && (id in v.checkedAt ==> m.checkedAt[id] == v.checkedAt[id])
  {
    hide Overlay, RowsUnder;
  }

  /** A row another transaction sees once `tx` has committed is as sound as it was. */
  lemma MergedRowSound(s: State, tx: Tx, t: Tx, id: int)
    requires Inv(s) && tx in s.open && t in s.open && tx != t && s.open[tx].queue == []
    requires id in Under(s.View(tx), s.open[t]).values
    ensures var m := Under(s.View(tx), s.open[t]);
      && SingleValue(m.values[id]) && Typed(m, m.values[id])
      && (Checked(m, id, m.values[id]) || Event(id, m.values[id]) in s.open[t].queue)
  {
    var m := Under(s.View(tx), s.open[t]);
    if id in s.open[t].values {
      assert s.View(t).values[id] == m.values[id];
      ViewFollows(s.base, s.open[tx], s.open[t]);
      TimesBound(s.base, s.open[t]);
      MergedTime(s.base, s.open[tx], s.open[t], id);
      FollowsKeepsRow(s.View(t), m, id, m.values[id]);
    } else {
      assert s.View(tx).values[id] == m.values[id];
      CommittedFollows(s.base, s.open[tx], s.open[t]);
      TimesBound(s.base, s.open[tx]);
      MergedTime(s.base, s.open[tx], s.open[t], id);
      FollowsKeepsRow(s.View(tx), m, id, m.values[id]);
    }
  }

  lemma MergedDefinitions(b: Base, o: Open, t: Open)
    requires TypesKnown(Under(b, o).defs, Under(b, o).dataTypes)
    requires TypesKnown(Under(b, t).defs, Under(b, t).dataTypes)
    ensures var m := Under(Under(b, o), t); TypesKnown(m.defs, m.dataTypes)
  {
    var m := Under(Under(b, o), t);
    forall d | d in m.defs ensures m.defs[d].dataType in m.dataTypes {
      assert if d in t.defs then Under(b, t).defs[d] == m.defs[d] else Under(b, o).defs[d] == m.defs[d];
    }
  }

  lemma MergedSound(s: State, tx: Tx, t: Tx)
    requires Inv(s) && tx in s.open && t in s.open && tx != t && s.open[tx].queue == []
    ensures Sound(Under(s.View(tx), s.open[t]), s.open[t].queue)
  {
    var m := Under(s.View(tx), s.open[t]);
    MergedDefinitions(s.base, s.open[tx], s.open[t]);
    forall id | id in m.values
      ensures SingleValue(m.values[id]) && Typed(m, m.values[id])
      ensures Checked(m, id, m.values[id]) || Event(id, m.values[id]) in s.open[t].queue
    {
      MergedRowSound(s, tx, t, id);
    }
  }

  lemma CommitKeeps(s: State, tx: Tx)
    requires Inv(s) && tx in s.open && s.open[tx].queue == []
    ensures Inv(Closed(s, tx, s.View(tx)))
  {
    forall t | t in s.open && t != tx
      ensures Sound(Under(s.View(tx), s.open[t]), s.open[t].queue) && Logged(s.View(tx), s.open[t])
    {
      MergedSound(s, tx, t);
      CommittedFollows(s.base, s.open[tx], s.open[t]);
    }
    TimesBound(s.base, s.open[tx]);
  }

  lemma EmptyView(b: Base)
    ensures var v := Under(b, EMPTY);
      && v.values == b.values && v.types == b.types && v.rows == b.rows && v.defs == b.defs
      && v.dataTypes == b.dataTypes && v.checkedAt == b.checkedAt && v.log == b.log + [OwnDelta(EMPTY)]
  {
    assert b.defs + EMPTY.defs == b.defs && b.dataTypes + EMPTY.dataTypes == b.dataTypes;
  }

  /** Opening a transaction adds an empty log entry to what it sees. */
  lemma EmptyViewSound(b: Base)
    requires Sound(b, []) && TimesWithin(b.checkedAt, |b.log|)
    ensures Sound(Under(b, EMPTY), [])
  {
    EmptyView(b);
    LogGrows(b.log, OwnDelta(EMPTY), []);
    assert b.log + [] == b.log && b.log + [OwnDelta(EMPTY)] + [] == Under(b, EMPTY).log;
    hide Under, Retargeted, Dropped, StorageAgrees, SingleValue;
  }

  lemma BeginView(s: State, tx: Tx, t: Tx)
    requires Inv(s) && tx !in s.open && (t in s.open || t == tx)
    ensures var s' := s.(open := s.open[tx := EMPTY]);
            Sound(s'.View(t), s'.open[t].queue) && Logged(s'.base, s'.open[t])
  {
    if t == tx {
      EmptyViewSound(s.base);
    } else {
      assert s.(open := s.open[tx := EMPTY]).View(t) == s.View(t);
    }
  }

  lemma EmptyApart(o: Open)
    ensures Apart(EMPTY, o) && Apart(o, EMPTY)
  {
  }

  lemma BeginKeeps(s: State, tx: Tx)
    requires Inv(s) && tx !in s.open
    ensures Inv(s.(open := s.open[tx := EMPTY]))
  {
    hide Apart, Sound, Logged, Under;
    var s' := s.(open := s.open[tx := EMPTY]);
    forall t | t in s'.open {
      BeginView(s, tx, t);
    }
    forall a, b | a in s'.open && b in s'.open && a != b
      ensures Apart(s'.open[a], s'.open[b])
    {
      EmptyApart(s'.open[a]);
      EmptyApart(s'.open[b]);
    }
  }

  lemma AbortKeeps(s: State, tx: Tx)
    requires Inv(s) && tx in s.open
    ensures Inv(Closed(s, tx, s.base))
  {
    hide Apart, Sound, Logged, Under;
    var s' := Closed(s, tx, s.base);
    forall t | t in s'.open
      ensures Sound(s'.View(t), s'.open[t].queue) && Logged(s'.base, s'.open[t])
    {
      assert s'.View(t) == s.View(t);
    }
  }

  lemma StepKeeps(s: State, step: Step, s': State)
    requires Inv(s) && Next(s, step, s')
    ensures Inv(s')
  {
    match step
    case Begin(tx) => BeginKeeps(s, tx);
    case Commit(tx) => CommitKeeps(s, tx);
    case Abort(tx) => AbortKeeps(s, tx);
    case _ => StatementKeeps(s, step, s');
  }

  /** No open transaction, an empty log, and every live value well stored with an existing owner. */
  ghost predicate Start(s: State) {
    s.open == map[] && s.base.log == [] && Sound(s.base, []) && TimesWithin(s.base.checkedAt, 0)
  }

  ghost predicate Run(states: seq<State>, steps: seq<Step>) {
    && |states| == |steps| + 1 && Start(states[0])
    && forall i :: 0 <= i < |steps| ==> Next(states[i], steps[i], states[i + 1])
  }

  lemma {:induction false} RunKeeps(states: seq<State>, steps: seq<Step>, i: nat)
    requires Run(states, steps) && i < |states|
    ensures Inv(states[i])
  {
    if i > 0 {
      RunKeeps(states, steps, i - 1);
      StepKeeps(states[i - 1], steps[i - 1], states[i]);
    }
  }

  /**
   * Main result: in every committed state of every run, each live value fills at most one typed
   * column, and that column is the storage column of its definition's data type.
   */
  lemma CommittedValuesWellStored(states: seq<State>, steps: seq<Step>, i: nat, id: int)
    requires Run(states, steps) && i < |states| && id in states[i].base.values && !states[i].base.values[id].deleted
    ensures var b := states[i].base; |Filled(b.values[id])| <= 1 && WellStored(b.defs, b.dataTypes, b.values[id])
    ensures var b := states[i].base; InItsColumn(b.defs, b.dataTypes, b.values[id])
  {
    RunKeeps(states, steps, i);
    var b := states[i].base;
    StorageAgreesIffWellStored(b.defs, b.dataTypes, b.values[id]);
    WellStoredIff(b.defs, b.dataTypes, b.values[id]);
  }

  /** Each commit appends what its transaction deleted and re-registered to the log, and nothing else does. */
  lemma LogIsHistory(s: State, step: Step, s': State)
    requires Next(s, step, s')
    ensures !step.Commit? ==> s'.base.log == s.base.log
    ensures step.Commit? ==>
      var o, n := s.open[step.tx], |s.base.log|;
      && |s'.base.log| == n + 1 && s'.base.log[..n] == s.base.log
      && (forall r :: r in s'.base.log[n].dropped <==> r in o.rows && !o.rows[r])
      && s'.base.log[n].retargeted == o.retargeted
  {
  }

  /** The check of a value as it stands is dated by the number of transactions committed before it. */
  lemma CheckIsDated(s: State, tx: Tx, s': State)
    requires Next(s, Fire(tx), s')
    ensures var e := s.open[tx].queue[0];
      if e.id in s.View(tx).values && s.View(tx).values[e.id] == e.row
      then s'.open[tx].checkedAt == s.open[tx].checkedAt[e.id := |s.base.log|]
      else s'.open[tx].checkedAt == s.open[tx].checkedAt
  {
  }

  /**
   * Main result: a committed value can only be an orphan because, after its check, a transaction
   * committed that had hard-deleted its owner row or changed the registry row of its type.
   */
  lemma OrphansAreExplained(states: seq<State>, steps: seq<Step>, i: nat, id: int)
    requires Run(states, steps) && i < |states| && id in states[i].base.values
    requires var b := states[i].base; Orphan(b.types, b.rows, b.values[id].Ref())
    ensures var b := states[i].base;
            var row := b.values[id];
            && id in b.checkedAt
            && exists k :: b.checkedAt[id] <= k < |b.log|
                 && (|| row.typeCode in b.log[k].retargeted
                     || (b.types[row.typeCode].table, row.ownerId) in b.log[k].dropped)
  {
    RunKeeps(states, steps, i);
  }
}
