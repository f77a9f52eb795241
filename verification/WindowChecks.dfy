/**
 * The deferred overlap check under concurrent transactions.
 *
 * Writing a watched column queues an event that carries the row as it was written. An event may
 * fire at any time (at COMMIT, or earlier under SET CONSTRAINTS IMMEDIATE); it takes the brand's
 * advisory lock, which lasts until the transaction ends, and compares its row with every live row
 * the transaction sees. COMMIT needs an empty queue.
 */
module WindowChecks {
  import opened Basics
  import opened Windows

  type Tx = nat

  datatype Scope = Scope(tenant: int, org: int)

  datatype Event = Event(id: int, row: Link)

  /** One open transaction: private link rows, private brand scopes and the queued events. */
  datatype Open = Open(writes: Writes<int, Link>, scopes: map<int, Scope>, queue: seq<Event>)

  datatype State = State(committed: Table, scopes: map<int, Scope>, open: map<Tx, Open>, locks: map<int, Tx>) {
    function View(tx: Tx): Table
      requires tx in open
    {
      Overlay(committed, open[tx].writes)
    }

    function ScopeView(tx: Tx): map<int, Scope>
      requires tx in open
    {
      scopes + open[tx].scopes
    }

    predicate Unlocked(tx: Tx, id: int) {
      forall other :: other in open && other != tx ==> id !in open[other].writes
    }

    predicate Holds(tx: Tx, brand: int) {
      brand in locks && locks[brand] == tx
    }
  }

  /** The composite foreign key to the brand, whose own key is `brand` alone. */
  predicate InScope(scopes: map<int, Scope>, l: Link) {
    l.brand in scopes && scopes[l.brand] == Scope(l.tenant, l.org)
  }

  /** The columns in the trigger's UPDATE OF list; tenant and organization are not among them. */
  predicate SameWatched(a: Link, b: Link) {
    a.brand == b.brand && a.manufacturer == b.manufacturer && a.kind == b.kind
    && a.from == b.from && a.to == b.to && a.deleted == b.deleted
  }

  /** The rows the check's EXISTS query looks for. */
  predicate ClashesWith(v: Table, id: int, row: Link) {
    exists x :: x in v && x != id && !v[x].deleted && SameKey(v[x], row) && Overlaps(v[x], row)
  }

  // ---- steps ----

  datatype Step =
    | Begin(tx: Tx)
    | Write(tx: Tx, id: int, row: Link, watched: bool)
    | Delete(tx: Tx, id: int)
    | Rescope(tx: Tx, brand: int, scope: Scope)
    | Fire(tx: Tx)
    | Commit(tx: Tx)
    | Abort(tx: Tx)

  /** INSERT, or an UPDATE whose SET list names a watched column exactly when `watched`. */
  predicate WriteAllowed(s: State, tx: Tx, id: int, row: Link, watched: bool) {
    && tx in s.open && s.Unlocked(tx, id) && ValidWindow(row)
    && InScope(s.ScopeView(tx), row)
    && (forall other :: other in s.open && other != tx ==> row.brand !in s.open[other].scopes)
    && (!watched ==> id in s.View(tx) && SameWatched(s.View(tx)[id], row))
  }

  /** Moving a brand to another tenant or organization: refused while any link row names it. */
  predicate RescopeAllowed(s: State, tx: Tx, brand: int) {
    && tx in s.open
    && (forall x :: x in s.View(tx) ==> s.View(tx)[x].brand != brand)
    && (forall other :: other in s.open && other != tx ==> brand !in s.open[other].scopes)
    && (forall other, x ::
          other in s.open && other != tx && x in s.open[other].writes && s.open[other].writes[x].Some? ==>
          s.open[other].writes[x].value.brand != brand)
  }

  /** The check passes: a deleted row is skipped, otherwise the lock is free and nothing clashes. */
  predicate FireAllowed(s: State, tx: Tx) {
    && tx in s.open && s.open[tx].queue != []
    && var e := s.open[tx].queue[0];
    && (!e.row.deleted ==>
      && (e.row.brand in s.locks ==> s.locks[e.row.brand] == tx)
      && !ClashesWith(s.View(tx), e.id, e.row))
  }

  function Written(o: Open, id: int, row: Link, watched: bool): Open {
    o.(writes := o.writes[id := Some(row)], queue := if watched then o.queue + [Event(id, row)] else o.queue)
  }

  function Fired(s: State, tx: Tx): State
    requires tx in s.open && s.open[tx].queue != []
  {
    var e := s.open[tx].queue[0];
    s.(open := s.open[tx := s.open[tx].(queue := s.open[tx].queue[1..])],
       locks := if e.row.deleted then s.locks else s.locks[e.row.brand := tx])
  }

  function Closed(s: State, tx: Tx, committed: Table, scopes: map<int, Scope>): State {
    State(committed, scopes, s.open - {tx}, map b | b in s.locks && s.locks[b] != tx :: s.locks[b])
  }

  predicate Next(s: State, step: Step, s': State) {
    match step
    case Begin(tx) => tx !in s.open && s' == s.(open := s.open[tx := Open(map[], map[], [])])
    case Write(tx, id, row, watched) =>
      WriteAllowed(s, tx, id, row, watched) && s' == s.(open := s.open[tx := Written(s.open[tx], id, row, watched)])
    case Delete(tx, id) =>
      && tx in s.open && id in s.View(tx) && s.Unlocked(tx, id)
      && s' == s.(open := s.open[tx := s.open[tx].(writes := s.open[tx].writes[id := None])])
    case Rescope(tx, brand, scope) =>
      && RescopeAllowed(s, tx, brand)
      && s' == s.(open := s.open[tx := s.open[tx].(scopes := s.open[tx].scopes[brand := scope])])
    case Fire(tx) => FireAllowed(s, tx) && s' == Fired(s, tx)
    case Commit(tx) =>
      tx in s.open && s.open[tx].queue == [] && s' == Closed(s, tx, s.View(tx), s.ScopeView(tx))
    case Abort(tx) => tx in s.open && s' == Closed(s, tx, s.committed, s.scopes)
  }

  // ---- what every step keeps ----

  ghost predicate RowLocks(s: State) {
    forall a, b, k :: a in s.open && b in s.open && k in s.open[a].writes && k in s.open[b].writes ==> a == b
  }

  ghost predicate LockHoldersOpen(s: State) {
    forall b :: b in s.locks ==> s.locks[b] in s.open
  }

  predicate RowsFit(scopes: map<int, Scope>, t: Table) {
    forall x :: x in t ==> InScope(scopes, t[x]) && ValidWindow(t[x])
  }

  ghost predicate Fits(s: State) {
    RowsFit(s.scopes, s.committed) && forall tx :: tx in s.open ==> RowsFit(s.ScopeView(tx), s.View(tx))
  }

  /** No brand is re-scoped by both, and neither re-scopes a brand the other's rows name. */
  ghost predicate ScopesApart(a: Open, b: Open) {
    && a.scopes.Keys !! b.scopes.Keys
    && (forall x :: x in a.writes && a.writes[x].Some? ==> a.writes[x].value.brand !in b.scopes)
    && (forall x :: x in b.writes && b.writes[x].Some? ==> b.writes[x].value.brand !in a.scopes)
  }

  ghost predicate ScopesShared(s: State) {
    forall a, b :: a in s.open && b in s.open && a != b ==> ScopesApart(s.open[a], s.open[b])
  }

  /** Every clash in `v` has one of its rows waiting in the queue as it stands. */
  ghost predicate ClashesAwaited(v: Table, queue: seq<Event>) {
    forall a, b :: a in v && b in v && a != b && Clash(v[a], v[b]) ==>
      Event(a, v[a]) in queue || Event(b, v[b]) in queue
  }

  /**
   * A written row is deleted, unchanged, checked under a lock still held, or its last event is
   * still queued and carries its final values.
   */
  predicate RowAccounted(committed: Table, locked: bool, queue: seq<Event>, id: int, row: Link) {
    row.deleted || (id in committed && committed[id] == row) || locked || Event(id, row) in queue
  }

  ghost predicate Accounted(s: State) {
    forall tx, id :: tx in s.open && id in s.open[tx].writes && s.open[tx].writes[id].Some? ==>
      AccountedRow(s, tx, id)
  }

  ghost predicate AccountedRow(s: State, tx: Tx, id: int)
    requires tx in s.open && id in s.open[tx].writes && s.open[tx].writes[id].Some?
  {
    var row := s.open[tx].writes[id].value;
    RowAccounted(s.committed, s.Holds(tx, row.brand), s.open[tx].queue, id, row)
  }

  ghost predicate Inv(s: State) {
    && RowLocks(s) && LockHoldersOpen(s) && Fits(s) && ScopesShared(s) && Accounted(s)
    && NoClash(s.committed) && forall tx :: tx in s.open ==> ClashesAwaited(s.View(tx), s.open[tx].queue)
  }

  // ---- each statement keeps the invariant ----

  /** `o` and `locks` are what a statement of `tx` may leave: only its own rows, scopes and locks changed. */
  ghost predicate OwnChange(s: State, tx: Tx, o: Open, locks: map<int, Tx>)
    requires tx in s.open
  {
    && (forall k :: k in o.writes ==> k in s.open[tx].writes || s.Unlocked(tx, k))
    && (forall b :: b in s.locks ==> b in locks && locks[b] == s.locks[b])
    && (forall b :: b in locks && b !in s.locks ==> locks[b] == tx)
    && (forall other :: other in s.open && other != tx ==> ScopesApart(o, s.open[other]))
  }

  function WithOpen(s: State, tx: Tx, o: Open, locks: map<int, Tx>): State {
    s.(open := s.open[tx := o], locks := locks)
  }

  lemma OwnChangeLocks(s: State, tx: Tx, o: Open, locks: map<int, Tx>)
    requires Inv(s) && tx in s.open && OwnChange(s, tx, o, locks)
    ensures RowLocks(WithOpen(s, tx, o, locks)) && LockHoldersOpen(WithOpen(s, tx, o, locks))
    ensures ScopesShared(WithOpen(s, tx, o, locks))
  {
    var s' := WithOpen(s, tx, o, locks);
    forall a, b, k | a in s'.open && b in s'.open && k in s'.open[a].writes && k in s'.open[b].writes
      ensures a == b
    {
    }
  }

  lemma OthersUnmoved(s: State, tx: Tx, o: Open, locks: map<int, Tx>, t: Tx)
    requires Inv(s) && tx in s.open && OwnChange(s, tx, o, locks) && t in s.open && t != tx
    ensures var s' := WithOpen(s, tx, o, locks);
            && RowsFit(s'.ScopeView(t), s'.View(t)) && ClashesAwaited(s'.View(t), s'.open[t].queue)
            && forall id :: id in s'.open[t].writes && s'.open[t].writes[id].Some? ==> AccountedRow(s', t, id)
  {
    var s' := WithOpen(s, tx, o, locks);
    assert s'.View(t) == s.View(t);
    forall id | id in s'.open[t].writes && s'.open[t].writes[id].Some?
      ensures AccountedRow(s', t, id)
    {
      assert AccountedRow(s, t, id);
    }
  }

  /** What remains to show of a statement once it only touched its own transaction. */
  ghost predicate OwnOk(s: State, tx: Tx, v: Table, o: Open) {
    && ClashesAwaited(v, o.queue)
    && forall id :: id in o.writes && o.writes[id].Some? ==>
         RowAccounted(s.committed, s.Holds(tx, o.writes[id].value.brand), o.queue, id, o.writes[id].value)
  }

  lemma OwnChangeKeeps(s: State, tx: Tx, o: Open, locks: map<int, Tx>, v: Table)
    requires Inv(s) && tx in s.open && OwnChange(s, tx, o, locks)
    requires v == Overlay(s.committed, o.writes) && RowsFit(s.scopes + o.scopes, v)
    requires OwnOk(s.(locks := locks), tx, v, o)
    ensures Inv(WithOpen(s, tx, o, locks))
  {
    var s' := WithOpen(s, tx, o, locks);
    OwnChangeLocks(s, tx, o, locks);
    forall t | t in s.open && t != tx {
      OthersUnmoved(s, tx, o, locks, t);
    }
    assert s'.View(tx) == v;
    forall id | id in o.writes && o.writes[id].Some?
      ensures AccountedRow(s', tx, id)
    {
    }
  }

  lemma OwnOkBefore(s: State, tx: Tx)
    requires Inv(s) && tx in s.open
    ensures OwnOk(s, tx, s.View(tx), s.open[tx])
  {
    forall id | id in s.open[tx].writes && s.open[tx].writes[id].Some?
      ensures AccountedRow(s, tx, id)
    {
    }
  }

  lemma WriteOk(s: State, tx: Tx, v: Table, o: Open, id: int, row: Link, watched: bool)
    requires OwnOk(s, tx, v, o) && v == Overlay(s.committed, o.writes)
    requires !watched ==> id in v && v[id] == row
    ensures OwnOk(s, tx, v[id := row], Written(o, id, row, watched))
  {
    var o', v' := Written(o, id, row, watched), v[id := row];
    assert watched ==> o'.queue[|o.queue|] == Event(id, row);
    forall a, b | a in v' && b in v' && a != b && Clash(v'[a], v'[b])
      ensures Event(a, v'[a]) in o'.queue || Event(b, v'[b]) in o'.queue
    {
      if !watched || (a != id && b != id) {
        assert Clash(v[a], v[b]);
      }
    }
  }

  lemma DeleteOk(s: State, tx: Tx, v: Table, o: Open, id: int)
    requires OwnOk(s, tx, v, o)
    ensures OwnOk(s, tx, v - {id}, o.(writes := o.writes[id := None]))
  {
    var v' := v - {id};
    forall a, b | a in v' && b in v' && a != b && Clash(v'[a], v'[b])
      ensures Event(a, v'[a]) in o.queue || Event(b, v'[b]) in o.queue
    {
      assert Clash(v[a], v[b]);
    }
  }

  /** Firing an event that clashes with nothing cannot be the one a clash was waiting for. */
  lemma FireOk(s: State, tx: Tx, v: Table, o: Open, locks: map<int, Tx>)
    requires OwnOk(s, tx, v, o) && o.queue != []
    requires !o.queue[0].row.deleted ==> !ClashesWith(v, o.queue[0].id, o.queue[0].row)
    requires locks == if o.queue[0].row.deleted then s.locks else s.locks[o.queue[0].row.brand := tx]
    ensures OwnOk(s.(locks := locks), tx, v, o.(queue := o.queue[1..]))
  {
    var e, rest := o.queue[0], o.queue[1..];
    assert forall x :: x in o.queue ==> x == e || x in rest;
    forall a, b | a in v && b in v && a != b && Clash(v[a], v[b])
      ensures Event(a, v[a]) in rest || Event(b, v[b]) in rest
    {
      assert ClashesWith(v, a, v[a]) && ClashesWith(v, b, v[b]);
    }
  }

  lemma WriteIsOwnChange(s: State, tx: Tx, id: int, row: Link, watched: bool)
    requires Inv(s) && WriteAllowed(s, tx, id, row, watched)
    ensures OwnChange(s, tx, Written(s.open[tx], id, row, watched), s.locks)
  {
    forall other | other in s.open && other != tx
      ensures ScopesApart(Written(s.open[tx], id, row, watched), s.open[other])
    {
      assert ScopesApart(s.open[tx], s.open[other]);
    }
  }

  lemma WriteKeeps(s: State, tx: Tx, id: int, row: Link, watched: bool)
    requires Inv(s) && WriteAllowed(s, tx, id, row, watched)
    ensures Inv(WithOpen(s, tx, Written(s.open[tx], id, row, watched), s.locks))
  {
    var o, v := s.open[tx], s.View(tx);
    UnwatchedWriteChangesNothing(s, tx, id, row, watched);
    OwnOkBefore(s, tx);
    WriteOk(s, tx, v, o, id, row, watched);
    WriteIsOwnChange(s, tx, id, row, watched);
    OverlayWrite(s.committed, o.writes, id, row);
    OwnChangeKeeps(s, tx, Written(o, id, row, watched), s.locks, v[id := row]);
  }

  /**
   * The trigger does not watch tenant and organization, but both are functions of the brand: an
   * UPDATE that sets no watched column leaves the row as it was.
   */
  lemma UnwatchedWriteChangesNothing(s: State, tx: Tx, id: int, row: Link, watched: bool)
    requires Inv(s) && WriteAllowed(s, tx, id, row, watched)
    ensures !watched ==> id in s.View(tx) && s.View(tx)[id] == row
    ensures RowsFit(s.ScopeView(tx), s.View(tx)[id := row])
  {
    var v, scopes := s.View(tx), s.ScopeView(tx);
    assert RowsFit(scopes, v);
    assert InScope(scopes, row);
  }

  lemma SameScopesOwnChange(s: State, tx: Tx, o: Open, locks: map<int, Tx>)
    requires Inv(s) && tx in s.open && o.scopes == s.open[tx].scopes
    requires forall k :: k in o.writes ==> k in s.open[tx].writes || s.Unlocked(tx, k)
    requires forall k :: k in o.writes && o.writes[k].Some? ==>
               k in s.open[tx].writes && s.open[tx].writes[k] == o.writes[k]
    requires locks == s.locks || exists b :: locks == s.locks[b := tx] && (b in s.locks ==> s.locks[b] == tx)
    ensures OwnChange(s, tx, o, locks)
  {
    forall other | other in s.open && other != tx
      ensures ScopesApart(o, s.open[other])
    {
      assert ScopesApart(s.open[tx], s.open[other]);
    }
  }

  lemma DeleteKeeps(s: State, tx: Tx, id: int)
    requires Inv(s) && tx in s.open && id in s.View(tx) && s.Unlocked(tx, id)
    ensures Inv(WithOpen(s, tx, s.open[tx].(writes := s.open[tx].writes[id := None]), s.locks))
  {
    var o, v := s.open[tx], s.View(tx);
    OwnOkBefore(s, tx);
    DeleteOk(s, tx, v, o, id);
    SameScopesOwnChange(s, tx, o.(writes := o.writes[id := None]), s.locks);
    OverlayDelete(s.committed, o.writes, id);
    OwnChangeKeeps(s, tx, o.(writes := o.writes[id := None]), s.locks, v - {id});
  }

  lemma RescopeIsOwnChange(s: State, tx: Tx, brand: int, scope: Scope)
    requires Inv(s) && RescopeAllowed(s, tx, brand)
    ensures OwnChange(s, tx, s.open[tx].(scopes := s.open[tx].scopes[brand := scope]), s.locks)
  {
    var o' := s.open[tx].(scopes := s.open[tx].scopes[brand := scope]);
    forall other | other in s.open && other != tx ensures ScopesApart(o', s.open[other]) {
      assert ScopesApart(s.open[tx], s.open[other]);
    }
  }

  lemma UnusedBrandRescoped(scopes: map<int, Scope>, t: Table, brand: int, scope: Scope)
    requires RowsFit(scopes, t) && forall x :: x in t ==> t[x].brand != brand
    ensures RowsFit(scopes[brand := scope], t)
  {
  }

  lemma RescopeFits(s: State, tx: Tx, brand: int, scope: Scope)
    requires Inv(s) && RescopeAllowed(s, tx, brand)
    ensures RowsFit(s.scopes + s.open[tx].scopes[brand := scope], s.View(tx))
  {
    hide RowsFit, Overlay, RowLocks, LockHoldersOpen, ScopesShared, Accounted, ClashesAwaited;
    assert s.scopes + s.open[tx].scopes[brand := scope] == s.ScopeView(tx)[brand := scope];
    UnusedBrandRescoped(s.ScopeView(tx), s.View(tx), brand, scope);
  }

  lemma RescopeKeeps(s: State, tx: Tx, brand: int, scope: Scope)
    requires Inv(s) && RescopeAllowed(s, tx, brand)
    ensures Inv(WithOpen(s, tx, s.open[tx].(scopes := s.open[tx].scopes[brand := scope]), s.locks))
  {
    var o := s.open[tx];
    OwnOkBefore(s, tx);
    RescopeIsOwnChange(s, tx, brand, scope);
    RescopeFits(s, tx, brand, scope);
    hide Inv, OwnChange, RowsFit, ClashesAwaited, RowAccounted, Overlay;
    OwnChangeKeeps(s, tx, o.(scopes := o.scopes[brand := scope]), s.locks, s.View(tx));
  }

  lemma FireKeeps(s: State, tx: Tx)
    requires Inv(s) && FireAllowed(s, tx)
    ensures Inv(Fired(s, tx))
  {
    var o, v := s.open[tx], s.View(tx);
    OwnOkBefore(s, tx);
    FireOk(s, tx, v, o, Fired(s, tx).locks);
    SameScopesOwnChange(s, tx, o.(queue := o.queue[1..]), Fired(s, tx).locks);
    OwnChangeKeeps(s, tx, o.(queue := o.queue[1..]), Fired(s, tx).locks, v);
  }

  // ---- commit ----

  /** What transaction `t` sees once `tx` has committed. */
  function Merged(s: State, tx: Tx, t: Tx): Table
    requires tx in s.open && t in s.open
  {
    Overlay(s.View(tx), s.open[t].writes)
  }

  /** A written row that is neither unchanged nor awaited was checked under its brand's lock. */
  lemma UnchangedOrLocked(s: State, tx: Tx, id: int)
    requires Inv(s) && tx in s.open && id in s.open[tx].writes && s.open[tx].writes[id].Some?
    requires !s.open[tx].writes[id].value.deleted && Event(id, s.open[tx].writes[id].value) !in s.open[tx].queue
    ensures var row := s.open[tx].writes[id].value;
            (id in s.committed && s.committed[id] == row) || s.Holds(tx, row.brand)
  {
    assert AccountedRow(s, tx, id);
  }

  /** A transaction with an empty queue sees no clash between a row it left alone and any other row. */
  lemma CommittedRowDoesNotClash(s: State, tx: Tx, x: int, y: int)
    requires Inv(s) && tx in s.open && s.open[tx].queue == []
    requires x in s.committed && x !in s.open[tx].writes && y in s.View(tx) && x != y
    ensures !Clash(s.committed[x], s.View(tx)[y]) && !Clash(s.View(tx)[y], s.committed[x])
  {
    assert ClashesAwaited(s.View(tx), []);
    assert s.View(tx)[x] == s.committed[x];
  }

  /** A clash between a row of `t` and a row `tx` is committing was already visible to one of them. */
  lemma MergedClash(s: State, tx: Tx, t: Tx, a: int, b: int)
    requires Inv(s) && tx in s.open && t in s.open && tx != t && s.open[tx].queue == []
    requires var m := Merged(s, tx, t); a in m && b in m && a != b && Clash(m[a], m[b])
    ensures var m := Merged(s, tx, t); Event(a, m[a]) in s.open[t].queue || Event(b, m[b]) in s.open[t].queue
  {
    var m, w, queue := Merged(s, tx, t), s.open[t].writes, s.open[t].queue;
    var u, v := s.View(tx), s.View(t);
    assert ClashesAwaited(u, []) && ClashesAwaited(v, queue);
    if a in w && b in w {
      assert v[a] == m[a] && v[b] == m[b];
    } else if a in w || b in w {
      var mine, other := if a in w then a else b, if a in w then b else a;
      assert v[mine] == m[mine] && u[other] == m[other];
      assert mine !in s.open[tx].writes;
      if mine in s.committed {
        CommittedRowDoesNotClash(s, tx, mine, other);
      }
      assert other !in s.open[tx].writes || (other in s.committed && s.committed[other] == m[other])
             ==> other in v && v[other] == m[other];
      if Event(mine, m[mine]) !in queue {
        UnchangedOrLocked(s, t, mine);
        if other in s.open[tx].writes {
          UnchangedOrLocked(s, tx, other);
        }
      }
    }
  }

  lemma MergedFits(s: State, tx: Tx, t: Tx)
    requires Inv(s) && tx in s.open && t in s.open && tx != t
    ensures RowsFit(s.ScopeView(tx) + s.open[t].scopes, Merged(s, tx, t))
  {
    var m := Merged(s, tx, t);
    assert ScopesApart(s.open[tx], s.open[t]);
    forall x | x in m
      ensures InScope(s.ScopeView(tx) + s.open[t].scopes, m[x]) && ValidWindow(m[x])
    {
      if x in s.open[t].writes {
        assert s.View(t)[x] == m[x];
      } else {
        assert s.View(tx)[x] == m[x];
        if x !in s.open[tx].writes {
          assert s.View(t)[x] == m[x];
        }
      }
    }
  }

  /** Ending `tx` leaves every other transaction's rows accounted for. */
  lemma ClosedKeepsRows(s: State, tx: Tx, committed: Table, scopes: map<int, Scope>)
    requires Inv(s) && tx in s.open
    requires forall x :: x in s.committed && x !in s.open[tx].writes ==>
               x in committed && committed[x] == s.committed[x]
    ensures var s' := Closed(s, tx, committed, scopes);
            RowLocks(s') && LockHoldersOpen(s') && ScopesShared(s') && Accounted(s')
  {
    var s' := Closed(s, tx, committed, scopes);
    forall t, id | t in s'.open && id in s'.open[t].writes && s'.open[t].writes[id].Some?
      ensures AccountedRow(s', t, id)
    {
      assert AccountedRow(s, t, id);
      assert id !in s.open[tx].writes;
    }
  }

  lemma CommitKeeps(s: State, tx: Tx)
    requires Inv(s) && tx in s.open && s.open[tx].queue == []
    ensures Inv(Closed(s, tx, s.View(tx), s.ScopeView(tx)))
  {
    var s' := Closed(s, tx, s.View(tx), s.ScopeView(tx));
    ClosedKeepsRows(s, tx, s.View(tx), s.ScopeView(tx));
    assert ClashesAwaited(s.View(tx), []);
    forall t | t in s'.open
      ensures RowsFit(s'.ScopeView(t), s'.View(t)) && ClashesAwaited(s'.View(t), s'.open[t].queue)
    {
      MergedFits(s, tx, t);
      forall a, b | a in s'.View(t) && b in s'.View(t) && a != b && Clash(s'.View(t)[a], s'.View(t)[b]) {
        MergedClash(s, tx, t, a, b);
      }
    }
  }

  lemma AbortKeeps(s: State, tx: Tx)
    requires Inv(s) && tx in s.open
    ensures Inv(Closed(s, tx, s.committed, s.scopes))
  {
    var s' := Closed(s, tx, s.committed, s.scopes);
    ClosedKeepsRows(s, tx, s.committed, s.scopes);
    forall t | t in s'.open
      ensures s'.View(t) == s.View(t) && s'.ScopeView(t) == s.ScopeView(t)
    {
    }
  }

  lemma BeginScopes(s: State, tx: Tx)
    requires Inv(s) && tx !in s.open
    ensures var s' := s.(open := s.open[tx := Open(map[], map[], [])]);
            RowLocks(s') && LockHoldersOpen(s') && ScopesShared(s')
  {
    var s' := s.(open := s.open[tx := Open(map[], map[], [])]);
    forall a, b | a in s'.open && b in s'.open && a != b
      ensures ScopesApart(s'.open[a], s'.open[b])
    {
    }
  }

  lemma BeginAccounted(s: State, tx: Tx)
    requires Accounted(s) && tx !in s.open
    ensures Accounted(s.(open := s.open[tx := Open(map[], map[], [])]))
  {
    var s' := s.(open := s.open[tx := Open(map[], map[], [])]);
    forall t, id | t in s'.open && id in s'.open[t].writes && s'.open[t].writes[id].Some?
      ensures AccountedRow(s', t, id)
    {
      assert AccountedRow(s, t, id);
    }
  }

  lemma BeginViews(s: State, tx: Tx, t: Tx)
    requires Inv(s) && tx !in s.open && (t in s.open || t == tx)
    ensures var s' := s.(open := s.open[tx := Open(map[], map[], [])]);
            RowsFit(s'.ScopeView(t), s'.View(t)) && ClashesAwaited(s'.View(t), s'.open[t].queue)
  {
    var s' := s.(open := s.open[tx := Open(map[], map[], [])]);
    if t == tx {
      assert s'.View(t) == s.committed && s'.ScopeView(t) == s.scopes;
    } else {
      assert s'.View(t) == s.View(t) && s'.ScopeView(t) == s.ScopeView(t);
    }
  }

  lemma BeginKeeps(s: State, tx: Tx)
    requires Inv(s) && tx !in s.open
    ensures Inv(s.(open := s.open[tx := Open(map[], map[], [])]))
  {
    var s' := s.(open := s.open[tx := Open(map[], map[], [])]);
    BeginScopes(s, tx);
    BeginAccounted(s, tx);
    forall t | t in s'.open {
      BeginViews(s, tx, t);
    }
  }

  // ---- runs ----

  lemma StepKeeps(s: State, step: Step, s': State)
    requires Inv(s) && Next(s, step, s')
    ensures Inv(s')
  {
    match step
    case Begin(tx) => BeginKeeps(s, tx);
    case Write(tx, id, row, watched) => WriteKeeps(s, tx, id, row, watched);
    case Delete(tx, id) => DeleteKeeps(s, tx, id);
    case Rescope(tx, brand, scope) => RescopeKeeps(s, tx, brand, scope);
    case Fire(tx) => FireKeeps(s, tx);
    case Commit(tx) => CommitKeeps(s, tx);
    case Abort(tx) => AbortKeeps(s, tx);
  }

  /** A table that satisfies its constraints, and no open transaction. */
  ghost predicate Start(s: State) {
    s.open == map[] && s.locks == map[] && RowsFit(s.scopes, s.committed) && NoClash(s.committed)
  }

  ghost predicate Run(states: seq<State>, steps: seq<Step>) {
    && |states| == |steps| + 1 && Start(states[0])
    && forall i :: 0 <= i < |steps| ==> Next(states[i], steps[i], states[i + 1])
  }

  lemma {:induction false} RunKeeps(states: seq<State>, steps: seq<Step>, i: nat)
    requires Run(states, steps) && i < |states|
    ensures Inv(states[i])
  {
    if i > 0 {
      RunKeeps(states, steps, i - 1);
      StepKeeps(states[i - 1], steps[i - 1], states[i]);
    }
  }

  /**
   * Main result: under any interleaving, no committed table ever holds two live links of one
   * tenant, organization, brand, manufacturer and kind whose windows share a day.
   */
  lemma CommittedWindowsNeverOverlap(states: seq<State>, steps: seq<Step>)
    requires Run(states, steps)
    ensures forall i :: 0 <= i < |states| ==> OneLinkPerDay(states[i].committed) && UniqueCurrent(states[i].committed)
  {
    forall i | 0 <= i < |states|
      ensures OneLinkPerDay(states[i].committed) && UniqueCurrent(states[i].committed)
    {
      RunKeeps(states, steps, i);
      NoClashIffOneLinkPerDay(states[i].committed);
      NoClashImpliesUniqueCurrent(states[i].committed);
    }
  }

  // ---- what the queued checks decide ----

  /** The check raises: the event's row is live and clashes with a row the transaction sees. */
  predicate Rejects(v: Table, e: Event) {
    !e.row.deleted && ClashesWith(v, e.id, e.row)
  }

  /** The checks are sound: when none of them raises, the transaction sees no clash. */
  lemma ChecksSound(s: State, tx: Tx)
    requires Inv(s) && tx in s.open
    requires forall e :: e in s.open[tx].queue ==> !Rejects(s.View(tx), e)
    ensures NoClash(s.View(tx))
  {
    var v := s.View(tx);
    assert ClashesAwaited(v, s.open[tx].queue);
    forall a, b | a in v && b in v && a != b
      ensures !Clash(v[a], v[b])
    {
      if Clash(v[a], v[b]) {
        ClashFound(v, a, b);
      }
    }
  }

  lemma ClashFound(v: Table, a: int, b: int)
    requires a in v && b in v && a != b && Clash(v[a], v[b])
    ensures ClashesWith(v, a, v[a]) && ClashesWith(v, b, v[b])
  {
  }

  /** An event whose row the transaction has since rewritten or deleted. */
  predicate Superseded(v: Table, e: Event) {
    !(e.id in v && v[e.id] == e.row)
  }

  /** The event's version of the row overlaps no other live link of the view. */
  predicate ClearOf(v: Table, e: Event) {
    forall x :: x in v && x != e.id && !v[x].deleted && SameKey(v[x], e.row) ==> !Overlaps(v[x], e.row)
  }

  /** No live version of a row that the transaction wrote and then superseded overlaps a link of its final view. */
  predicate SupersededClear(v: Table, queue: seq<Event>) {
    forall e :: e in queue && Superseded(v, e) && !e.row.deleted ==> ClearOf(v, e)
  }

  /**
   * Main result: the queued checks all pass exactly when the view holds no clash and no superseded
   * version of a written row overlaps it. So they decide clashes, refusing no transaction without one,
   * exactly when a clash-free view is also clear of the superseded versions.
   */
  lemma ChecksDecideIff(s: State, tx: Tx)
    requires Inv(s) && tx in s.open
    ensures var v, queue := s.View(tx), s.open[tx].queue;
      && ((forall e :: e in queue ==> !Rejects(v, e)) <==> NoClash(v) && SupersededClear(v, queue))
      && (((exists e :: e in queue && Rejects(v, e)) <==> !NoClash(v))
          <==> (NoClash(v) ==> SupersededClear(v, queue)))
  {
    var v, queue := s.View(tx), s.open[tx].queue;
    forall e ensures Rejects(v, e) <==> !e.row.deleted && !ClearOf(v, e) {
    }
    if forall e :: e in queue ==> !Rejects(v, e) {
      ChecksSound(s, tx);
    }
    if NoClash(v) && SupersededClear(v, queue) {
      forall e | e in queue ensures !Rejects(v, e) {
        if !Superseded(v, e) {
          FinalRowIsClear(v, e);
        }
      }
    }
  }

  /** In a view without clashes an event that carries the row as it stands does not raise. */
  lemma FinalRowIsClear(v: Table, e: Event)
    requires NoClash(v) && !Superseded(v, e)
    ensures !Rejects(v, e)
  {
    forall x | x in v && x != e.id && !v[x].deleted && SameKey(v[x], e.row)
      ensures e.row.deleted || !Overlaps(v[x], e.row)
    {
      assert !Clash(v[x], v[e.id]);
    }
  }

  const BOOKED := Link(1, 7, 3, 4, None, Some(0), Some(10), false)
  const TOO_EARLY := BOOKED.(from := Some(5), to := Some(15))
  const CORRECTED := BOOKED.(from := Some(10), to := Some(15))
  const IDLE := State(map[1 := BOOKED], map[3 := Scope(1, 7)], map[], map[])
  const OPENED := IDLE.(open := map[0 := Open(map[], map[], [])])
  const MISTAKEN := OPENED.(open := OPENED.open[0 := Written(OPENED.open[0], 2, TOO_EARLY, true)])
  const AMENDED := MISTAKEN.(open := MISTAKEN.open[0 := Written(MISTAKEN.open[0], 2, CORRECTED, true)])

  lemma OverRejectingWrites()
    ensures Next(OPENED, Write(0, 2, TOO_EARLY, true), MISTAKEN)
    ensures Next(MISTAKEN, Write(0, 2, CORRECTED, true), AMENDED)
  {
    assert OPENED.ScopeView(0) == map[3 := Scope(1, 7)];
    assert MISTAKEN.ScopeView(0) == map[3 := Scope(1, 7)];
  }

  lemma AmendedView()
    ensures AMENDED.View(0) == map[1 := BOOKED, 2 := CORRECTED]
    ensures NoClash(AMENDED.View(0)) && Rejects(AMENDED.View(0), AMENDED.open[0].queue[0])
  {
    var v := AMENDED.View(0);
    assert v == map[1 := BOOKED, 2 := CORRECTED];
    assert SameKey(v[1], TOO_EARLY) && Overlaps(v[1], TOO_EARLY);
  }

  /**
   * The condition can fail: a transaction that first wrote an overlapping window
   * and then corrected it sees no clash, yet its first event still raises.
   */
  lemma ChecksMayOverReject()
    ensures exists states: seq<State>, steps: seq<Step> ::
              && Run(states, steps)
              && var s := states[|steps|];
                 0 in s.open && NoClash(s.View(0)) && s.open[0].queue != [] && Rejects(s.View(0), s.open[0].queue[0])
  {
    var states, steps := [IDLE, OPENED, MISTAKEN, AMENDED],
                         [Begin(0), Write(0, 2, TOO_EARLY, true), Write(0, 2, CORRECTED, true)];
    OverRejectingWrites();
    AmendedView();
    assert Next(states[0], steps[0], states[1]);
    assert Run(states, steps);
  }

  // ---- the trigger and the commit that runs it, as code over a mutable table ----

  datatype Outcome = Passed | Waits | Overlapping

  /**
   * The check's query in columns: a live link of the same tenant, organization, brand, manufacturer and kind
   * (no kind equals no kind) that starts before `row` ends and ends after `row` starts.
   */
  predicate Excludes(x: Link, row: Link) {
    && !x.deleted && x.tenant == row.tenant && x.org == row.org && x.brand == row.brand
    && x.manufacturer == row.manufacturer && x.kind == row.kind
    && (x.from.Some? && row.to.Some? ==> x.from.value < row.to.value)
    && (row.from.Some? && x.to.Some? ==> row.from.value < x.to.value)
  }

  predicate Excluded(v: Table, id: int, row: Link) {
    exists x :: x in v && x != id && Excludes(v[x], row)
  }

  /** Another transaction holds the brand's lock. */
  predicate Locked(locks: map<int, Tx>, tx: Tx, brand: int) {
    brand in locks && locks[brand] != tx
  }

  lemma ExcludedIff(v: Table, id: int, row: Link)
    ensures ClashesWith(v, id, row) <==> Excluded(v, id, row)
  {
    forall x | x in v
      ensures !v[x].deleted && SameKey(v[x], row) && Overlaps(v[x], row) <==> Excludes(v[x], row)
    {
    }
    hide Excludes, SameKey, Overlaps;
  }

  /** The event's advisory lock belongs to another transaction. */
  predicate Blocked(locks: map<int, Tx>, tx: Tx, e: Event) {
    !e.row.deleted && e.row.brand in locks && locks[e.row.brand] != tx
  }

  /** What becomes of the queue, fired oldest first: the first event that does not pass decides. */
  function CommitOutcome(locks: map<int, Tx>, tx: Tx, v: Table, queue: seq<Event>): (outcome: Outcome)
    ensures outcome.Passed? <==> forall e :: e in queue ==> !Blocked(locks, tx, e) && !Rejects(v, e)
    ensures outcome.Overlapping? ==> exists e :: e in queue && Rejects(v, e)
  {
    if queue == [] then Passed
    else if Blocked(locks, tx, queue[0]) then Waits
    else if Rejects(v, queue[0]) then Overlapping
    else CommitOutcome(locks, tx, v, queue[1..])
  }

  predicate EventPasses(locks: map<int, Tx>, tx: Tx, v: Table, e: Event) {
    e.row.deleted || (!Locked(locks, tx, e.row.brand) && !Excluded(v, e.id, e.row))
  }

  /** The first event that does not pass decides: it waits for its lock, or raises. */
  lemma {:induction false} FirstDecides(locks: map<int, Tx>, tx: Tx, v: Table, queue: seq<Event>)
    ensures var outcome := CommitOutcome(locks, tx, v, queue);
      && (outcome.Passed? <==> forall i :: 0 <= i < |queue| ==> EventPasses(locks, tx, v, queue[i]))
      && (outcome.Waits? ==>
           exists i :: FirstNotPassing(locks, tx, v, queue, i) && Locked(locks, tx, queue[i].row.brand))
      && (outcome.Overlapping? ==>
           exists i :: FirstNotPassing(locks, tx, v, queue, i) && !Locked(locks, tx, queue[i].row.brand))
    decreases |queue|
  {
    if queue != [] {
      var e, rest := queue[0], queue[1..];
      ExcludedIff(v, e.id, e.row);
      FirstDecides(locks, tx, v, rest);
      forall i | 0 <= i < |rest| ensures queue[i + 1] == rest[i] {
      }
      hide Excluded, ClashesWith;
      if EventPasses(locks, tx, v, e) {
        forall i | FirstNotPassing(locks, tx, v, rest, i) ensures FirstNotPassing(locks, tx, v, queue, i + 1) {
          forall j | 0 <= j < i + 1 ensures EventPasses(locks, tx, v, queue[j]) {
            assert j > 0 ==> queue[j] == rest[j - 1];
          }
        }
      } else {
        assert FirstNotPassing(locks, tx, v, queue, 0);
      }
    }
  }

  predicate FirstNotPassing(locks: map<int, Tx>, tx: Tx, v: Table, queue: seq<Event>, i: int) {
    && 0 <= i < |queue| && !EventPasses(locks, tx, v, queue[i])
    && forall j :: 0 <= j < i ==> EventPasses(locks, tx, v, queue[j])
  }

  /** With its locks free, a commit passes exactly when the view is clear of clashes and of superseded overlaps. */
  lemma CommitPassesIff(s: State, tx: Tx)
    requires Inv(s) && tx in s.open
    requires forall e :: e in s.open[tx].queue ==> !Blocked(s.locks, tx, e)
    ensures CommitOutcome(s.locks, tx, s.View(tx), s.open[tx].queue).Passed?
       <==> NoClash(s.View(tx)) && SupersededClear(s.View(tx), s.open[tx].queue)
  {
    ChecksDecideIff(s, tx);
  }

  class LinkRows {
    var committed: Table
    var scopes: map<int, Scope>
    var open: map<Tx, Open>
    var locks: map<int, Tx>

    function Snapshot(): State
      reads this
    {
      State(committed, scopes, open, locks)
    }

    constructor (committed: Table, scopes: map<int, Scope>)
      ensures Snapshot() == State(committed, scopes, map[], map[])
    {
      this.committed, this.scopes := committed, scopes;
      open, locks := map[], map[];
    }

    /** `core.check_brand_manufacturer_overlap` on the oldest queued event. */
    method FireNext(tx: Tx) returns (outcome: Outcome)
      requires tx in open && open[tx].queue != []
      modifies this
      ensures outcome.Passed? <==> FireAllowed(old(Snapshot()), tx)
      ensures outcome.Passed? ==> Next(old(Snapshot()), Fire(tx), Snapshot())
      ensures var e := old(open[tx].queue[0]);
        && (outcome.Waits? <==> !e.row.deleted && Locked(old(locks), tx, e.row.brand))
        && (outcome.Overlapping? <==>
             !e.row.deleted && !Locked(old(locks), tx, e.row.brand) && Excluded(old(Snapshot().View(tx)), e.id, e.row))
      ensures outcome.Passed? ==>
        && committed == old(committed) && scopes == old(scopes)
        && open == old(open)[tx := old(open[tx]).(queue := old(open[tx]).queue[1..])]
        && locks == if old(open[tx].queue[0]).row.deleted then old(locks)
                    else old(locks)[old(open[tx].queue[0]).row.brand := tx]
      ensures outcome.Waits? <==> Blocked(old(locks), tx, old(open[tx].queue[0]))
      ensures outcome.Waits? ==> Snapshot() == old(Snapshot())
      ensures outcome.Overlapping? ==> Rejects(old(Snapshot()).View(tx), old(open[tx].queue[0]))
      ensures outcome.Overlapping? ==>
                Snapshot() == old(Snapshot()).(locks := old(locks)[old(open[tx].queue[0]).row.brand := tx])
    {
      var e := open[tx].queue[0];
      ExcludedIff(Snapshot().View(tx), e.id, e.row);
      if e.row.deleted {
        open := open[tx := open[tx].(queue := open[tx].queue[1..])];
        return Passed;
      }
      if e.row.brand in locks && locks[e.row.brand] != tx {
        return Waits;
      }
      locks := locks[e.row.brand := tx];
      if ClashesWith(Snapshot().View(tx), e.id, e.row) {
        return Overlapping;
      }
      open := open[tx := open[tx].(queue := open[tx].queue[1..])];
      return Passed;
    }

    /** Fires what is queued, oldest first, until a check does not pass. */
    method FireAll(tx: Tx) returns (outcome: Outcome)
      requires tx in open
      modifies this
      ensures outcome == CommitOutcome(old(locks), tx, old(Snapshot().View(tx)), old(open[tx].queue))
      ensures committed == old(committed) && scopes == old(scopes)
      ensures tx in open && open - {tx} == old(open) - {tx}
      ensures open[tx].writes == old(open[tx]).writes && open[tx].scopes == old(open[tx]).scopes
      ensures forall b :: b in old(locks) && old(locks)[b] != tx ==> b in locks && locks[b] == old(locks)[b]
      ensures forall b :: b in locks && locks[b] != tx ==> b in old(locks) && old(locks)[b] == locks[b]
    {
      var i := 0;
      ghost var queue := open[tx].queue;
      outcome := Passed;
      while open[tx].queue != [] && outcome.Passed?
        invariant committed == old(committed) && scopes == old(scopes)
        invariant tx in open && open - {tx} == old(open) - {tx}
        invariant open[tx].writes == old(open[tx]).writes && open[tx].scopes == old(open[tx]).scopes
        invariant 0 <= i <= |queue| && open[tx].queue == queue[i..]
        invariant forall b :: b in old(locks) && old(locks)[b] != tx ==> b in locks && locks[b] == old(locks)[b]
        invariant forall b :: b in locks && locks[b] != tx ==> b in old(locks) && old(locks)[b] == locks[b]
        invariant CommitOutcome(old(locks), tx, old(Snapshot().View(tx)), queue)
               == if outcome.Passed? then CommitOutcome(old(locks), tx, old(Snapshot().View(tx)), queue[i..])
                  else outcome
        decreases |queue| - i, outcome.Passed?
      {
        assert queue[i..][0] == queue[i] && queue[i..][1..] == queue[i + 1..];
        outcome := FireNext(tx);
        if outcome.Passed? {
          i := i + 1;
        }
      }
    }

    /** COMMIT: fire what is queued; a raised check rolls the transaction back. */
    method CommitTx(tx: Tx) returns (outcome: Outcome)
      requires tx in open
      modifies this
      ensures outcome == CommitOutcome(old(locks), tx, old(Snapshot().View(tx)), old(open[tx].queue))
      ensures outcome.Passed? ==> committed == old(Snapshot().View(tx)) && scopes == old(Snapshot().ScopeView(tx))
      ensures outcome.Overlapping? ==> committed == old(committed) && scopes == old(scopes)
      ensures !outcome.Waits? ==> open == old(open) - {tx} && tx !in locks.Values
      ensures !outcome.Waits? ==> forall b :: b in locks <==> b in old(locks) && old(locks)[b] != tx
      ensures !outcome.Waits? ==> forall b :: b in locks ==> locks[b] == old(locks)[b]
      ensures outcome.Waits? ==> committed == old(committed) && scopes == old(scopes) && tx in open
    {
      hide CommitOutcome;
      outcome := FireAll(tx);
      if outcome.Waits? {
        return;
      }
      if outcome.Passed? {
        committed, scopes := Snapshot().View(tx), Snapshot().ScopeView(tx);
      }
      open := open - {tx};
      locks := map b | b in locks && locks[b] != tx :: locks[b];
    }
  }
}
