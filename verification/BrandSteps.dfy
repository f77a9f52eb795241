/** What each statement on brands needs and what it does, column by column. */
module BrandSteps {
  import opened Basics
  import opened BrandTree

  /** No other transaction has written the row. */
  ghost predicate RowFree(pending: map<Tx, Writes<int, Brand>>, tx: Tx, id: int) {
    forall other :: other in pending && other != tx ==> id !in pending[other]
  }

  /** No other transaction holds the tenant's lock. */
  predicate LockFree(locks: map<int, Tx>, tx: Tx, tenant: int) {
    tenant in locks ==> locks[tenant] == tx
  }

  /** No other transaction has deleted brand `p` or moved it to another tenant or organization. */
  ghost predicate ParentStays(pending: map<Tx, Writes<int, Brand>>, tx: Tx, p: int, tenant: int, org: int) {
    forall other :: other in pending && other != tx && p in pending[other] ==>
      pending[other][p].Some? && pending[other][p].value.tenant == tenant && pending[other][p].value.org == org
  }

  /** No row another transaction has written names brand `p` as its parent. */
  ghost predicate Unnamed(pending: map<Tx, Writes<int, Brand>>, tx: Tx, p: int) {
    forall other, x :: other in pending && other != tx && x in pending[other] && pending[other][x].Some? ==>
      pending[other][x].value.parent != Some(p)
  }

  /** A transaction sees its own writes, and the committed rows it has not written. */
  lemma ViewRow(s: State, tx: Tx, x: int)
    requires tx in s.pending
    ensures x in s.pending[tx] ==>
      (x in s.View(tx) <==> s.pending[tx][x].Some?) && (x in s.View(tx) ==> Some(s.View(tx)[x]) == s.pending[tx][x])
    ensures x !in s.pending[tx] ==>
      (x in s.View(tx) <==> x in s.committed) && (x in s.View(tx) ==> s.View(tx)[x] == s.committed[x])
  {
  }

  lemma DeletePossibleIff(s: State, tx: Tx, id: int)
    ensures (exists s' :: Next(s, Delete(tx, id), s'))
       <==> && tx in s.pending && id in s.View(tx) && RowFree(s.pending, tx, id) && Unnamed(s.pending, tx, id)
            && forall x :: x in s.View(tx) ==> s.View(tx)[x].parent != Some(id)
  {
    if DeleteAllowed(s, tx, id) {
      assert Next(s, Delete(tx, id), s.Write(tx, id, None));
    }
  }

  /** Clearing a parent and writing unwatched columns need no more than the row. */
  lemma RowWritePossibleIff(s: State, tx: Tx, id: int, owner: Owner)
    ensures (exists s' :: Next(s, ClearParent(tx, id, owner), s'))
       <==> tx in s.pending && id in s.View(tx) && RowFree(s.pending, tx, id)
    ensures (exists s' :: Next(s, Touch(tx, id), s'))
       <==> tx in s.pending && id in s.View(tx) && RowFree(s.pending, tx, id)
  {
    if ClearParentAllowed(s, tx, id) {
      assert Next(s, ClearParent(tx, id, owner), s.Write(tx, id, Some(Moved(s.View(tx)[id], None, owner))));
      assert Next(s, Touch(tx, id), s.Write(tx, id, Some(s.View(tx)[id])));
    }
  }

  lemma RescopePossibleIff(s: State, tx: Tx, ids: set<int>, tenant: int, org: int)
    ensures (exists s' :: Next(s, Rescope(tx, ids, tenant, org), s'))
       <==> && tx in s.pending
            && (forall id :: id in ids ==>
                  id in s.View(tx) && RowFree(s.pending, tx, id) && Unnamed(s.pending, tx, id))
            && (forall x :: x in s.View(tx) && s.View(tx)[x].parent.Some? ==>
                  (x in ids <==> s.View(tx)[x].parent.value in ids))
  {
    RescopeAllowedIff(s, tx, ids);
    if RescopeAllowed(s, tx, ids) {
      assert ids <= s.View(tx).Keys;
      hide RescopeAllowed, RowFree, Unnamed;
      var w := RescopeWrites(s.pending[tx], s.View(tx), ids, tenant, org);
      assert Next(s, Rescope(tx, ids, tenant, org), WithWrites(s, tx, w));
    }
  }

  lemma RescopeAllowedIff(s: State, tx: Tx, ids: set<int>)
    ensures RescopeAllowed(s, tx, ids)
       <==> && tx in s.pending
            && (forall id :: id in ids ==>
                  id in s.View(tx) && RowFree(s.pending, tx, id) && Unnamed(s.pending, tx, id))
            && (forall x :: x in s.View(tx) && s.View(tx)[x].parent.Some? ==>
                  (x in ids <==> s.View(tx)[x].parent.value in ids))
  {
    if tx in s.pending {
      var v := s.View(tx);
      UnnamedAll(s.pending, tx, ids);
      if forall id :: id in ids ==> id in v {
        forall id | id in ids ensures id in v.Keys {
          assert id in v;
        }
      }
      forall id ensures s.Unlocked(tx, id) <==> RowFree(s.pending, tx, id) {
      }
      hide Unnamed, RowFree, State.Unlocked;
    }
  }

  lemma UnnamedAll(pending: map<Tx, Writes<int, Brand>>, tx: Tx, ids: set<int>)
    ensures (forall id :: id in ids ==> Unnamed(pending, tx, id))
       <==> forall other, x :: other in pending && other != tx && x in pending[other] && pending[other][x].Some?
                               && pending[other][x].value.parent.Some? ==>
              pending[other][x].value.parent.value !in ids
  {
    if forall id :: id in ids ==> Unnamed(pending, tx, id) {
      forall other, x | other in pending && other != tx && x in pending[other] && pending[other][x].Some?
                        && pending[other][x].value.parent.Some?
        ensures pending[other][x].value.parent.value !in ids
      {
        var p := pending[other][x].value.parent.value;
        assert p in ids ==> Unnamed(pending, tx, p);
      }
    }
  }

  // ---- INSERT ----

  /** Row `x` of a batch, wherever it stands. */
  lemma {:induction false} RowOfBatch(batch: seq<(int, Brand)>, x: int)
    requires forall i, j :: 0 <= i < j < |batch| ==> batch[i].0 != batch[j].0
    ensures x in Rows(batch) <==> exists i :: 0 <= i < |batch| && batch[i].0 == x
    ensures forall i :: 0 <= i < |batch| && batch[i].0 == x ==> x in Rows(batch) && Rows(batch)[x] == batch[i].1
    decreases |batch|
  {
    if batch != [] {
      var init := batch[..|batch| - 1];
      RowOfBatch(init, x);
      assert forall i :: 0 <= i < |init| ==> init[i] == batch[i];
    }
  }

  /** The parent of a row of the batch is visible or among the batch's rows, in the row's tenant and organization. */
  predicate ParentFound(v: Table, batch: seq<(int, Brand)>, row: Brand)
    requires row.parent.Some?
  {
    var p := row.parent.value;
    || (p in v && v[p].tenant == row.tenant && v[p].org == row.org)
    || exists j :: 0 <= j < |batch| && batch[j].0 == p && batch[j].1.tenant == row.tenant && batch[j].1.org == row.org
  }

  /** What row `i` of a batch needs; owners are compared with a parent that is there when the row is processed. */
  ghost predicate RowInsertable(s: State, tx: Tx, batch: seq<(int, Brand)>, i: nat)
    requires tx in s.pending && i < |batch|
  {
    var v, id, row := s.View(tx), batch[i].0, batch[i].1;
    && id !in v && RowFree(s.pending, tx, id)
    && (row.parent.Some? ==>
      var p := row.parent.value;
      && p != id && row.tenant in s.locks && s.locks[row.tenant] == tx
      && (p in v ==> v[p].owner == row.owner)
      && (forall j :: 0 <= j < i && batch[j].0 == p ==> batch[j].1.owner == row.owner)
      && ParentFound(v, batch, row) && ParentStays(s.pending, tx, p, row.tenant, row.org))
  }

  lemma OwnerComparison(v: Table, batch: seq<(int, Brand)>, i: nat)
    requires i < |batch| && forall i, j :: 0 <= i < j < |batch| ==> batch[i].0 != batch[j].0
    requires forall j :: 0 <= j < |batch| ==> batch[j].0 !in v
    ensures OwnerAgrees(v + Rows(batch[..i]), batch[i].1)
       <==> (batch[i].1.parent.Some? ==>
               var p := batch[i].1.parent.value;
               && (p in v ==> v[p].owner == batch[i].1.owner)
               && (forall j :: 0 <= j < i && batch[j].0 == p ==> batch[j].1.owner == batch[i].1.owner))
  {
    if batch[i].1.parent.Some? {
      var earlier := batch[..i];
      RowOfBatch(earlier, batch[i].1.parent.value);
      assert forall j :: 0 <= j < i ==> earlier[j] == batch[j];
    }
  }

  lemma ParentComparison(v: Table, batch: seq<(int, Brand)>, i: nat)
    requires i < |batch| && forall i, j :: 0 <= i < j < |batch| ==> batch[i].0 != batch[j].0
    requires forall j :: 0 <= j < |batch| ==> batch[j].0 !in v
    requires batch[i].1.parent.Some?
    ensures var row, rows := batch[i].1, Rows(batch);
      var p := row.parent.value;
      ParentFound(v, batch, row)
      <==> || (p in rows && SameScope(rows[p], row))
           || (p !in rows && p in v && SameScope(v[p], row))
  {
    RowOfBatch(batch, batch[i].1.parent.value);
  }

  /** One INSERT of any number of rows is possible exactly when each of its rows is insertable. */
  lemma InsertPossibleIff(s: State, tx: Tx, batch: seq<(int, Brand)>)
    ensures (exists s' :: Next(s, Insert(tx, batch), s'))
       <==> && tx in s.pending
            && (forall i, j :: 0 <= i < j < |batch| ==> batch[i].0 != batch[j].0)
            && forall i :: 0 <= i < |batch| ==> RowInsertable(s, tx, batch, i)
  {
    if tx in s.pending && forall i, j :: 0 <= i < j < |batch| ==> batch[i].0 != batch[j].0 {
      InsertAllowedIff(s, tx, batch);
    }
    hide InsertAllowed, RowInsertable;
    if InsertAllowed(s, tx, batch) {
      assert Next(s, Insert(tx, batch), WithWrites(s, tx, InsertWrites(s.pending[tx], Rows(batch))));
    }
  }

  lemma InsertAllowedIff(s: State, tx: Tx, batch: seq<(int, Brand)>)
    requires tx in s.pending && forall i, j :: 0 <= i < j < |batch| ==> batch[i].0 != batch[j].0
    ensures InsertAllowed(s, tx, batch) <==> forall i :: 0 <= i < |batch| ==> RowInsertable(s, tx, batch, i)
  {
    var v, rows := s.View(tx), Rows(batch);
    forall i | 0 <= i < |batch| ensures batch[i].0 in rows && rows[batch[i].0] == batch[i].1 {
      RowOfBatch(batch, batch[i].0);
    }
    if InsertAllowed(s, tx, batch) {
      forall i | 0 <= i < |batch| ensures RowInsertable(s, tx, batch, i) {
        AllowedRow(s, tx, batch, i);
      }
    }
    if forall i :: 0 <= i < |batch| ==> RowInsertable(s, tx, batch, i) {
      InsertableRows(s, tx, batch);
    }
  }

  lemma AllowedRow(s: State, tx: Tx, batch: seq<(int, Brand)>, i: nat)
    requires InsertAllowed(s, tx, batch) && i < |batch|
    ensures RowInsertable(s, tx, batch, i)
  {
    var v, rows := s.View(tx), Rows(batch);
    forall j | 0 <= j < |batch| ensures batch[j].0 in rows && rows[batch[j].0] == batch[j].1 && batch[j].0 !in v {
      RowOfBatch(batch, batch[j].0);
      assert NewRowAllowed(s, tx, batch[j].0, rows[batch[j].0]);
    }
    assert NewRowAllowed(s, tx, batch[i].0, batch[i].1);
    OwnerComparison(v, batch, i);
    if batch[i].1.parent.Some? {
      ParentComparison(v, batch, i);
    }
    hide Rows, OwnerAgrees, ParentFound, InsertAllowed;
  }

  lemma InsertableRows(s: State, tx: Tx, batch: seq<(int, Brand)>)
    requires tx in s.pending && forall i, j :: 0 <= i < j < |batch| ==> batch[i].0 != batch[j].0
    requires forall i :: 0 <= i < |batch| ==> RowInsertable(s, tx, batch, i)
    ensures InsertAllowed(s, tx, batch)
  {
    var v, rows := s.View(tx), Rows(batch);
    forall i | 0 <= i < |batch| ensures batch[i].0 !in v {
      assert RowInsertable(s, tx, batch, i);
    }
    forall i | 0 <= i < |batch| ensures OwnerAgrees(v + Rows(batch[..i]), batch[i].1) {
      assert RowInsertable(s, tx, batch, i);
      OwnerComparison(v, batch, i);
    }
    forall x | x in rows
      ensures NewRowAllowed(s, tx, x, rows[x])
      ensures rows[x].parent.Some? ==>
        || (rows[x].parent.value in rows && SameScope(rows[rows[x].parent.value], rows[x]))
        || (rows[x].parent.value !in rows && rows[x].parent.value in v && SameScope(v[rows[x].parent.value], rows[x]))
    {
      RowOfBatch(batch, x);
      var i :| 0 <= i < |batch| && batch[i].0 == x;
      assert RowInsertable(s, tx, batch, i);
      if rows[x].parent.Some? {
        ParentComparison(v, batch, i);
      }
    }
    hide Rows, OwnerAgrees, NewRowAllowed, RowInsertable;
  }

  // ---- what a statement changes ----

  /** Nothing but the rows `ids` written by `tx` changes. */
  ghost predicate OnlyWrites(s: State, tx: Tx, ids: set<int>, s': State) {
    && tx in s.pending && s'.committed == s.committed && s'.locks == s.locks && s'.pending.Keys == s.pending.Keys
    && (forall t :: t in s.pending && t != tx ==> s'.pending[t] == s.pending[t])
    && s'.pending[tx].Keys == s.pending[tx].Keys + ids
    && (forall x :: x in s.pending[tx] && x !in ids ==> s'.pending[tx][x] == s.pending[tx][x])
  }

  /** What each statement leaves in the rows it writes; columns not named are as the transaction saw them. */
  lemma StatementWrites(s: State, step: Step, s': State)
    requires Next(s, step, s')
    ensures match step
      case SetParent(tx, id, p, owner) =>
        && OnlyWrites(s, tx, {id}, s')
        && s'.pending[tx][id] == Some(Brand(s.View(tx)[id].tenant, s.View(tx)[id].org, Some(p), owner))
      case ClearParent(tx, id, owner) =>
        && OnlyWrites(s, tx, {id}, s')
        && s'.pending[tx][id] == Some(Brand(s.View(tx)[id].tenant, s.View(tx)[id].org, None, owner))
      case Touch(tx, id) => OnlyWrites(s, tx, {id}, s') && s'.pending[tx][id] == Some(s.View(tx)[id])
      case Delete(tx, id) => OnlyWrites(s, tx, {id}, s') && s'.pending[tx][id] == None
      case Rescope(tx, ids, tenant, org) =>
        && OnlyWrites(s, tx, ids, s')
        && forall x :: x in ids ==>
             s'.pending[tx][x] == Some(Brand(tenant, org, s.View(tx)[x].parent, s.View(tx)[x].owner))
      case Insert(tx, batch) =>
        && OnlyWrites(s, tx, Rows(batch).Keys, s')
        && forall i :: 0 <= i < |batch| ==>
             batch[i].0 in s'.pending[tx] && s'.pending[tx][batch[i].0] == Some(batch[i].1)
      case Begin(tx) => tx !in s.pending && s' == State(s.committed, s.pending[tx := map[]], s.locks)
      case Lock(tx, tenant) =>
        && tx in s.pending && (tenant in s.locks ==> s.locks[tenant] == tx)
        && s' == State(s.committed, s.pending, s.locks[tenant := tx])
      case Commit(tx) =>
        && tx in s.pending && s'.committed == s.View(tx) && s'.pending == s.pending - {tx}
        && (forall b :: b in s'.locks <==> b in s.locks && s.locks[b] != tx)
        && (forall b :: b in s'.locks ==> s'.locks[b] == s.locks[b])
      case Abort(tx) =>
        && tx in s.pending && s'.committed == s.committed && s'.pending == s.pending - {tx}
        && (forall b :: b in s'.locks <==> b in s.locks && s.locks[b] != tx)
        && (forall b :: b in s'.locks ==> s'.locks[b] == s.locks[b])
  {
    match step
    case Insert(tx, batch) =>
      forall i | 0 <= i < |batch|
        ensures batch[i].0 in s'.pending[tx] && s'.pending[tx][batch[i].0] == Some(batch[i].1)
      {
        RowOfBatch(batch, batch[i].0);
      }
    case _ =>
  }
}
