/**
 * The brand tree under concurrent transactions.
 *
 * A state holds the committed table, every open transaction's private writes and the
 * per-tenant advisory locks. One step is one statement of one transaction; a run is any
 * interleaving. Isolation is READ COMMITTED, so a query sees the committed rows of that
 * moment under the transaction's own writes.
 */
module BrandTree {
  import opened Basics
  import opened Forest

  datatype Owner = Owner(ownerType: string, ownerId: int)

  datatype Brand = Brand(tenant: int, org: int, parent: Option<int>, owner: Owner)

  type Table = map<int, Brand>

  type Tx = nat

  datatype State = State(committed: Table, pending: map<Tx, Writes<int, Brand>>, locks: map<int, Tx>) {
    function View(tx: Tx): Table
      requires tx in pending
    {
      Overlay(committed, pending[tx])
    }

    /** The row lock every UPDATE and DELETE takes: no other transaction has written `id`. */
    predicate Unlocked(tx: Tx, id: int) {
      forall other :: other in pending && other != tx ==> id !in pending[other]
    }

    predicate Holds(tx: Tx, tenant: int) {
      tenant in locks && locks[tenant] == tx
    }

    function Write(tx: Tx, id: int, row: Option<Brand>): State
      requires tx in pending
    {
      this.(pending := pending[tx := pending[tx][id := row]])
    }
  }

  function Edges(t: Table): Links {
    map x | x in t && t[x].parent.Some? :: t[x].parent.value
  }

  /** Brands from `from` to `to`, each but the last naming the next as its parent. */
  predicate ParentChain(t: Table, path: seq<int>, from: int, to: int) {
    && path != [] && path[0] == from && path[|path| - 1] == to
    && forall i :: 0 <= i < |path| - 1 ==> path[i] in t && t[path[i]].parent == Some(path[i + 1])
  }

  function ClimbPath(g: Links, x: int, n: nat): (path: seq<int>)
    requires Climb(g, x, n).Some?
    ensures |path| == n + 1 && path[0] == x && path[n] == Climb(g, x, n).value
    ensures forall i :: 0 <= i < n ==> path[i] in g && g[path[i]] == path[i + 1]
    decreases n
  {
    if n == 0 then [x]
    else
      var rest := ClimbPath(g, g[x], n - 1);
      assert forall i :: 1 <= i < n ==> ([x] + rest)[i] == rest[i - 1] && ([x] + rest)[i + 1] == rest[i];
      [x] + rest
  }

  lemma {:induction false} ChainClimbs(t: Table, path: seq<int>, from: int, to: int)
    requires ParentChain(t, path, from, to)
    ensures Climb(Edges(t), from, |path| - 1) == Some(to)
    decreases |path|
  {
    if |path| > 1 {
      var rest := path[1..];
      assert path[0] in t && t[path[0]].parent == Some(path[1]);
      forall i | 0 <= i < |rest| - 1 ensures rest[i] in t && t[rest[i]].parent == Some(rest[i + 1]) {
        assert path[i + 1] in t && t[path[i + 1]].parent == Some(path[i + 2]);
      }
      ChainClimbs(t, rest, path[1], to);
    }
  }

  lemma ClimbIsChain(t: Table, from: int, n: nat) returns (path: seq<int>)
    requires Climb(Edges(t), from, n).Some?
    ensures ParentChain(t, path, from, Climb(Edges(t), from, n).value) && |path| == n + 1
  {
    path := ClimbPath(Edges(t), from, n);
    forall i | 0 <= i < n ensures path[i] in t && t[path[i]].parent == Some(path[i + 1]) {
      assert path[i] in Edges(t);
    }
  }

  /** Reaching an ancestor is having a chain of parents to it. */
  lemma ReachesIffChain(t: Table, from: int, to: int)
    ensures Reaches(Edges(t), from, to) <==> exists path :: ParentChain(t, path, from, to)
  {
    if Reaches(Edges(t), from, to) {
      var n: nat :| Climb(Edges(t), from, n) == Some(to);
      var path := ClimbIsChain(t, from, n);
    }
    if path :| ParentChain(t, path, from, to) {
      ChainClimbs(t, path, from, to);
    }
  }

  /** A forest is a table in which no chain of parents leads from a brand back to itself. */
  lemma AcyclicIffNoChain(t: Table)
    ensures Acyclic(Edges(t)) <==> forall path, x :: ParentChain(t, path, x, x) ==> |path| == 1
  {
    if Acyclic(Edges(t)) {
      forall path, x | ParentChain(t, path, x, x) ensures |path| == 1 {
        ChainClimbs(t, path, x, x);
      }
    }
    if !Acyclic(Edges(t)) {
      var x: int, n: nat :| n > 0 && Climb(Edges(t), x, n) == Some(x);
      var path := ClimbIsChain(t, x, n);
    }
  }

  function Tenants(t: Table): map<int, int> {
    map x | x in t :: t[x].tenant
  }

  predicate SameScope(a: Brand, b: Brand) {
    a.tenant == b.tenant && a.org == b.org
  }

  /** `fk_brands_parent`: a parent exists in the child's tenant and organization. */
  predicate ForeignKey(t: Table) {
    forall x :: x in t && t[x].parent.Some? ==> t[x].parent.value in t && SameScope(t[t[x].parent.value], t[x])
  }

  /** The key-share lock of the foreign key: no open transaction is removing or re-keying the parent. */
  predicate KeyStable(s: State, tx: Tx, row: Brand) {
    row.parent.Some? ==>
      forall other :: other in s.pending && other != tx && row.parent.value in s.pending[other] ==>
        s.pending[other][row.parent.value].Some? && SameScope(s.pending[other][row.parent.value].value, row)
  }

  // ---- what the guard decides ----

  /** The owner comparison: skipped when the parent row is not visible yet. */
  predicate OwnerAgrees(t: Table, row: Brand) {
    row.parent.Some? && row.parent.value in t ==> t[row.parent.value].owner == row.owner
  }

  /** The recursive query starts from the parent's row, so an unknown parent has no ancestors. */
  ghost predicate WouldCycle(t: Table, id: int, parent: int) {
    parent in t && Reaches(Edges(t), parent, id)
  }

  // ---- steps ----

  datatype Step =
    | Begin(tx: Tx)
    | Lock(tx: Tx, tenant: int)
    | SetParent(tx: Tx, id: int, parent: int, owner: Owner)
    | ClearParent(tx: Tx, id: int, owner: Owner)
    | Insert(tx: Tx, batch: seq<(int, Brand)>)
    | Touch(tx: Tx, id: int)
    | Delete(tx: Tx, id: int)
    | Rescope(tx: Tx, ids: set<int>, tenant: int, org: int)
    | Commit(tx: Tx)
    | Abort(tx: Tx)

  /** The row an UPDATE of parent and owner leaves behind. */
  function Moved(row: Brand, parent: Option<int>, owner: Owner): Brand {
    row.(parent := parent, owner := owner)
  }

  /** The rows of one INSERT statement, in the order they are processed. */
  function Rows(batch: seq<(int, Brand)>): Table {
    if batch == [] then map[] else Rows(batch[..|batch| - 1])[batch[|batch| - 1].0 := batch[|batch| - 1].1]
  }

  function InsertWrites(writes: Writes<int, Brand>, batch: map<int, Brand>): Writes<int, Brand> {
    map k | k in writes.Keys + batch.Keys :: if k in batch then Some(batch[k]) else writes[k]
  }

  /** An UPDATE naming a parent takes the tenant's lock before everything the guard and the keys check. */
  ghost predicate SetParentAllowed(s: State, tx: Tx, id: int, parent: int, owner: Owner) {
    SetParentChecked(s, tx, id, parent, owner) && s.Holds(tx, s.View(tx)[id].tenant)
  }

  /** Owner check, ancestor walk, CHECK and foreign key. */
  ghost predicate SetParentChecked(s: State, tx: Tx, id: int, parent: int, owner: Owner) {
    && tx in s.pending && id in s.View(tx) && s.Unlocked(tx, id)
    && var v := s.View(tx);
    && var row := Moved(v[id], Some(parent), owner);
    && OwnerAgrees(v, row)
    && !WouldCycle(v, id, parent)
    && parent != id && parent in v && SameScope(v[parent], row)
    && KeyStable(s, tx, row)
  }

  predicate ClearParentAllowed(s: State, tx: Tx, id: int) {
    tx in s.pending && id in s.View(tx) && s.Unlocked(tx, id)
  }

  /** Parents of inserted rows are found among the old rows and the inserted ones. */
  predicate ParentsPresent(v: Table, rows: Table) {
    forall x :: x in rows && rows[x].parent.Some? ==>
      || (rows[x].parent.value in rows && SameScope(rows[rows[x].parent.value], rows[x]))
      || (rows[x].parent.value !in rows && rows[x].parent.value in v && SameScope(v[rows[x].parent.value], rows[x]))
  }

  /**
   * One INSERT statement. For every row with a parent the guard takes the lock and compares owners
   * with the parent if it is already there, but it walks no ancestors; the foreign key is looked up
   * once all rows are in.
   */
  predicate InsertAllowed(s: State, tx: Tx, batch: seq<(int, Brand)>) {
    && tx in s.pending
    && (forall i, j :: 0 <= i < j < |batch| ==> batch[i].0 != batch[j].0)
    && (forall i :: 0 <= i < |batch| ==> OwnerAgrees(s.View(tx) + Rows(batch[..i]), batch[i].1))
    && var v, rows := s.View(tx), Rows(batch);
    && ParentsPresent(v, rows)
    && forall x :: x in rows ==> NewRowAllowed(s, tx, x, rows[x])
  }

  predicate NewRowAllowed(s: State, tx: Tx, id: int, row: Brand)
    requires tx in s.pending
  {
    && id !in s.View(tx) && s.Unlocked(tx, id)
    && KeyStable(s, tx, row)
    && (row.parent.Some? ==> s.Holds(tx, row.tenant) && row.parent.value != id)
  }

  /** RESTRICT: no visible child, and no open transaction holds the key-share lock. */
  predicate DeleteAllowed(s: State, tx: Tx, id: int) {
    && tx in s.pending && id in s.View(tx) && s.Unlocked(tx, id)
    && (forall x :: x in s.View(tx) ==> s.View(tx)[x].parent != Some(id))
    && (forall other, x :: other in s.pending && other != tx && x in s.pending[other] && s.pending[other][x].Some? ==>
          s.pending[other][x].value.parent != Some(id))
  }

  /**
   * One UPDATE that moves brands to another tenant or organization. The guard does not watch those columns and
   * takes no lock. The keys let rows go only together with their parents and children (`RescopeMeetsKeyIff`),
   * and only if no open transaction holds a key-share lock on one of them.
   */
  predicate RescopeAllowed(s: State, tx: Tx, ids: set<int>) {
    && tx in s.pending && ids <= s.View(tx).Keys && WholeTrees(s.View(tx), ids)
    && (forall id :: id in ids ==> s.Unlocked(tx, id))
    && (forall other, x :: other in s.pending && other != tx && x in s.pending[other] && s.pending[other][x].Some?
                           && s.pending[other][x].value.parent.Some? ==>
          s.pending[other][x].value.parent.value !in ids)
  }

  predicate WholeTrees(v: Table, ids: set<int>) {
    forall x :: x in v && v[x].parent.Some? ==> (x in ids <==> v[x].parent.value in ids)
  }

  function Rescoped(v: Table, ids: set<int>, tenant: int, org: int): Table {
    map x | x in v :: if x in ids then v[x].(tenant := tenant, org := org) else v[x]
  }

  function RescopeWrites(writes: Writes<int, Brand>, v: Table, ids: set<int>, tenant: int, org: int)
    : Writes<int, Brand>
    requires ids <= v.Keys
  {
    map k | k in writes.Keys + ids :: if k in ids then Some(v[k].(tenant := tenant, org := org)) else writes[k]
  }

  function WithWrites(s: State, tx: Tx, w: Writes<int, Brand>): State {
    s.(pending := s.pending[tx := w])
  }

  function Closed(s: State, tx: Tx, committed: Table): State {
    State(committed, s.pending - {tx}, map t | t in s.locks && s.locks[t] != tx :: s.locks[t])
  }

  ghost predicate Next(s: State, step: Step, s': State) {
    match step
    case Begin(tx) => tx !in s.pending && s' == s.(pending := s.pending[tx := map[]])
    case Lock(tx, tenant) =>
      tx in s.pending && (tenant in s.locks ==> s.locks[tenant] == tx) && s' == s.(locks := s.locks[tenant := tx])
    case SetParent(tx, id, parent, owner) =>
      && SetParentAllowed(s, tx, id, parent, owner)
      && s' == s.Write(tx, id, Some(Moved(s.View(tx)[id], Some(parent), owner)))
    case ClearParent(tx, id, owner) =>
      ClearParentAllowed(s, tx, id) && s' == s.Write(tx, id, Some(Moved(s.View(tx)[id], None, owner)))
    case Insert(tx, batch) =>
      InsertAllowed(s, tx, batch) && s' == WithWrites(s, tx, InsertWrites(s.pending[tx], Rows(batch)))
    case Touch(tx, id) =>
      ClearParentAllowed(s, tx, id) && s' == s.Write(tx, id, Some(s.View(tx)[id]))
    case Delete(tx, id) => DeleteAllowed(s, tx, id) && s' == s.Write(tx, id, None)
    case Rescope(tx, ids, tenant, org) =>
      && RescopeAllowed(s, tx, ids)
      && s' == WithWrites(s, tx, RescopeWrites(s.pending[tx], s.View(tx), ids, tenant, org))
    case Commit(tx) => tx in s.pending && s' == Closed(s, tx, s.View(tx))
    case Abort(tx) => tx in s.pending && s' == Closed(s, tx, s.committed)
  }

  // ---- what every step keeps ----

  ghost predicate RowLocks(s: State) {
    forall a, b, k :: a in s.pending && b in s.pending && k in s.pending[a] && k in s.pending[b] ==> a == b
  }

  ghost predicate LockHoldersOpen(s: State) {
    forall t :: t in s.locks ==> s.locks[t] in s.pending
  }

  ghost predicate ForeignKeys(s: State) {
    ForeignKey(s.committed) && forall tx :: tx in s.pending ==> ForeignKey(s.View(tx))
  }

  /** A link that is new only if the tenant's lock is held. */
  predicate LinkCovered(s: State, tx: Tx, id: int, row: Brand) {
    row.parent.Some? && !s.Holds(tx, row.tenant) ==> id in s.committed && s.committed[id].parent == row.parent
  }

  /** The transaction has written the row and all its ancestors, as it has after re-scoping their tree. */
  ghost predicate Sealed(s: State, tx: Tx, id: int)
    requires tx in s.pending
  {
    AllWritten(s.committed, s.pending[tx], id)
  }

  ghost predicate AllWritten(committed: Table, writes: Writes<int, Brand>, id: int) {
    forall y :: Reaches(Edges(Overlay(committed, writes)), id, y) ==> y in writes
  }

  /** A pending row's link is covered by its tenant's lock, or committed, or part of a sealed tree. */
  ghost predicate LinksLocked(s: State) {
    forall tx, x :: tx in s.pending && x in s.pending[tx] && s.pending[tx][x].Some? ==>
      LinkCovered(s, tx, x, s.pending[tx][x].value) || Sealed(s, tx, x)
  }

  /** No transaction removes or re-keys a row that another transaction's row names as parent. */
  ghost predicate KeysShared(s: State) {
    forall tx, x :: tx in s.pending && x in s.pending[tx] && s.pending[tx][x].Some? ==>
      KeyStable(s, tx, s.pending[tx][x].value)
  }

  ghost predicate Forests(s: State) {
    Acyclic(Edges(s.committed)) && forall tx :: tx in s.pending ==> Acyclic(Edges(s.View(tx)))
  }

  ghost predicate Inv(s: State) {
    && RowLocks(s) && LockHoldersOpen(s) && ForeignKeys(s)
    && LinksLocked(s) && KeysShared(s) && Forests(s)
  }

  /** An INSERT statement whose own rows hang from rows outside the statement. */
  predicate GroundedStep(step: Step) {
    step.Insert? ==> Grounded(Edges(Rows(step.batch)), Rows(step.batch).Keys)
  }

  // ---- each statement keeps the invariant ----

  /** Rows of other transactions that name `id` as parent would still find it after this write. */
  predicate ChildrenServed(s: State, tx: Tx, id: int, row: Option<Brand>) {
    forall other, x :: other in s.pending && other != tx && x in s.pending[other]
                       && s.pending[other][x].Some? && s.pending[other][x].value.parent == Some(id)
      ==> row.Some? && SameScope(row.value, s.pending[other][x].value)
  }

  ghost predicate GoodWrite(s: State, tx: Tx, id: int, row: Option<Brand>) {
    && s.Unlocked(tx, id)
    && ChildrenServed(s, tx, id, row)
    && (row.Some? ==> KeyStable(s, tx, row.value))
  }

  ghost predicate LinkKept(s: State, tx: Tx, w: Writes<int, Brand>, id: int)
    requires tx in s.pending && id in w
  {
    w[id].Some? ==> LinkCovered(s, tx, id, w[id].value) || Sealed(WithWrites(s, tx, w), tx, id)
  }

  /** `w` extends the writes of `tx` by good writes only. */
  ghost predicate GoodWrites(s: State, tx: Tx, w: Writes<int, Brand>)
    requires tx in s.pending
  {
    && (forall k :: k in s.pending[tx] ==> k in w)
    && (forall k :: k in w ==>
          (k in s.pending[tx] && w[k] == s.pending[tx][k]) || (GoodWrite(s, tx, k, w[k]) && LinkKept(s, tx, w, k)))
  }

  lemma GoodWritesRowLocks(s: State, tx: Tx, w: Writes<int, Brand>)
    requires RowLocks(s) && LockHoldersOpen(s) && tx in s.pending && GoodWrites(s, tx, w)
    ensures RowLocks(WithWrites(s, tx, w)) && LockHoldersOpen(WithWrites(s, tx, w))
  {
    var s' := WithWrites(s, tx, w);
    forall a, b, k | a in s'.pending && b in s'.pending && k in s'.pending[a] && k in s'.pending[b]
      ensures a == b
    {
      assert k in s.pending[tx] || s.Unlocked(tx, k) || k !in w;
    }
  }

  /** In a tenant whose lock is not held, a statement adds no link. */
  predicate NoNewLinks(s: State, tx: Tx, after: Table)
    requires tx in s.pending
  {
    forall x :: x in after && after[x].parent.Some? && !s.Holds(tx, after[x].tenant) ==>
      x in s.View(tx) && s.View(tx)[x].parent == after[x].parent
  }

  lemma {:induction false} ClimbWasThere(s: State, tx: Tx, after: Table, x: int, n: nat)
    requires tx in s.pending && NoNewLinks(s, tx, after) && ForeignKey(after)
    requires x in after && !s.Holds(tx, after[x].tenant) && Climb(Edges(after), x, n).Some?
    ensures Climb(Edges(s.View(tx)), x, n) == Climb(Edges(after), x, n)
    decreases n
  {
    if n > 0 {
      assert after[x].parent.Some?;
      ClimbWasThere(s, tx, after, after[x].parent.value, n - 1);
    }
  }

  lemma StaysSealed(s: State, tx: Tx, w: Writes<int, Brand>, id: int)
    requires tx in s.pending && (forall k :: k in s.pending[tx] ==> k in w) && Sealed(s, tx, id)
    requires NoNewLinks(s, tx, Overlay(s.committed, w)) && ForeignKey(Overlay(s.committed, w))
    requires id in Overlay(s.committed, w) && !s.Holds(tx, Overlay(s.committed, w)[id].tenant)
    ensures Sealed(WithWrites(s, tx, w), tx, id)
  {
    var after := Overlay(s.committed, w);
    assert WithWrites(s, tx, w).View(tx) == after;
    forall y | Reaches(Edges(after), id, y) ensures y in w {
      var n: nat :| Climb(Edges(after), id, n) == Some(y);
      ClimbWasThere(s, tx, after, id, n);
      assert Reaches(Edges(s.View(tx)), id, y);
    }
  }

  lemma GoodWritesLinksLocked(s: State, tx: Tx, w: Writes<int, Brand>)
    requires LinksLocked(s) && tx in s.pending && GoodWrites(s, tx, w)
    requires NoNewLinks(s, tx, Overlay(s.committed, w)) && ForeignKey(Overlay(s.committed, w))
    ensures LinksLocked(WithWrites(s, tx, w))
  {
    var s' := WithWrites(s, tx, w);
    hide Sealed, NoNewLinks, ForeignKey, GoodWrite;
    forall t, x | t in s'.pending && x in s'.pending[t] && s'.pending[t][x].Some?
      ensures LinkCovered(s', t, x, s'.pending[t][x].value) || Sealed(s', t, x)
    {
      if t != tx {
        SealedElsewhere(s, tx, w, t, x);
      } else if !LinkCovered(s, t, x, w[x].value) && Sealed(s, t, x) {
        StaysSealed(s, tx, w, x);
      }
    }
  }

  lemma SealedElsewhere(s: State, tx: Tx, w: Writes<int, Brand>, t: Tx, x: int)
    requires tx in s.pending && t in s.pending && t != tx
    ensures Sealed(WithWrites(s, tx, w), t, x) <==> Sealed(s, t, x)
  {
    assert WithWrites(s, tx, w).View(t) == s.View(t);
  }

  lemma GoodWritesKeysShared(s: State, tx: Tx, w: Writes<int, Brand>)
    requires KeysShared(s) && tx in s.pending && GoodWrites(s, tx, w)
    ensures KeysShared(WithWrites(s, tx, w))
  {
    var s' := WithWrites(s, tx, w);
    forall t, x | t in s'.pending && x in s'.pending[t] && s'.pending[t][x].Some?
      ensures KeyStable(s', t, s'.pending[t][x].value)
    {
      var row := s'.pending[t][x].value;
      if t == tx {
        assert KeyStable(s, tx, row);
      } else {
        assert KeyStable(s, t, row);
        if row.parent.Some? && row.parent.value in w && GoodWrite(s, tx, row.parent.value, w[row.parent.value]) {
          assert row.parent == Some(row.parent.value);
        }
      }
    }
  }

  /** A statement of good writes keeps the invariant if the transaction's own view stays a keyed forest. */
  lemma GoodWritesKeep(s: State, tx: Tx, w: Writes<int, Brand>)
    requires Inv(s) && tx in s.pending && GoodWrites(s, tx, w)
    requires ForeignKey(Overlay(s.committed, w)) && Acyclic(Edges(Overlay(s.committed, w)))
    requires NoNewLinks(s, tx, Overlay(s.committed, w))
    ensures Inv(WithWrites(s, tx, w))
  {
    GoodWritesRowLocks(s, tx, w);
    GoodWritesLinksLocked(s, tx, w);
    GoodWritesKeysShared(s, tx, w);
    var s' := WithWrites(s, tx, w);
    forall t | t in s'.pending
      ensures ForeignKey(s'.View(t)) && Acyclic(Edges(s'.View(t)))
    {
      assert t != tx ==> s'.View(t) == s.View(t);
    }
  }

  lemma GoodWriteKeeps(s: State, tx: Tx, id: int, row: Option<Brand>, after: Table)
    requires Inv(s) && tx in s.pending && GoodWrite(s, tx, id, row)
    requires row.Some? ==> LinkCovered(s, tx, id, row.value)
    requires after == Overlay(s.committed, s.pending[tx][id := row])
    requires ForeignKey(after) && Acyclic(Edges(after)) && NoNewLinks(s, tx, after)
    ensures Inv(s.Write(tx, id, row))
  {
    hide Inv, GoodWrite, ForeignKey, Acyclic, NoNewLinks, LinkCovered;
    var w := s.pending[tx][id := row];
    assert LinkKept(s, tx, w, id);
    GoodWritesKeep(s, tx, w);
  }

  // ---- what a statement does to the view of its transaction ----

  lemma Relinked(v: Table, id: int, parent: int, owner: Owner)
    requires ForeignKey(v) && Acyclic(Edges(v)) && id in v
    requires parent in v && SameScope(v[parent], v[id]) && !WouldCycle(v, id, parent)
    ensures ForeignKey(v[id := Moved(v[id], Some(parent), owner)])
    ensures Acyclic(Edges(v[id := Moved(v[id], Some(parent), owner)]))
  {
    assert Edges(v[id := Moved(v[id], Some(parent), owner)]) == Edges(v)[id := parent];
    RelinkAcyclicIff(Edges(v), id, parent);
  }

  lemma Unlinked(v: Table, id: int, owner: Owner)
    requires ForeignKey(v) && Acyclic(Edges(v)) && id in v
    ensures ForeignKey(v[id := Moved(v[id], None, owner)]) && Acyclic(Edges(v[id := Moved(v[id], None, owner)]))
  {
    SublinksAcyclic(Edges(v[id := Moved(v[id], None, owner)]), Edges(v));
  }

  lemma Removed(v: Table, id: int)
    requires ForeignKey(v) && Acyclic(Edges(v)) && id in v
    requires forall x :: x in v ==> v[x].parent != Some(id)
    ensures ForeignKey(v - {id}) && Acyclic(Edges(v - {id}))
  {
    SublinksAcyclic(Edges(v - {id}), Edges(v));
  }

  lemma Inserted(v: Table, rows: Table)
    requires ForeignKey(v) && Acyclic(Edges(v)) && v.Keys !! rows.Keys && ParentsPresent(v, rows)
    ensures ForeignKey(v + rows)
    ensures Acyclic(Edges(v + rows)) <==> Grounded(Edges(rows), rows.Keys)
  {
    InsertedForeignKey(v, rows);
    var table, batch := Edges(v), Edges(rows);
    assert Edges(v + rows) == table + batch;
    forall z | z in table ensures table[z] in v.Keys { assert v[z].parent.Some?; }
    forall z | z in batch ensures batch[z] in v.Keys + rows.Keys { assert rows[z].parent.Some?; }
    BatchAcyclicIff(table, batch, rows.Keys, v.Keys);
  }

  lemma InsertedForeignKey(v: Table, rows: Table)
    requires ForeignKey(v) && v.Keys !! rows.Keys && ParentsPresent(v, rows)
    ensures ForeignKey(v + rows)
  {
    var after := v + rows;
    forall x | x in after && after[x].parent.Some?
      ensures after[x].parent.value in after && SameScope(after[after[x].parent.value], after[x])
    {
      if x !in rows {
        assert v[x].parent.value in v;
      }
    }
  }

  lemma SetParentKeeps(s: State, tx: Tx, id: int, parent: int, owner: Owner, s': State)
    requires Inv(s) && Next(s, SetParent(tx, id, parent, owner), s')
    ensures Inv(s')
  {
    var v, row := s.View(tx), Moved(s.View(tx)[id], Some(parent), owner);
    Relinked(v, id, parent, owner);
    RewriteServesChildren(s, tx, id, row);
    OverlayWrite(s.committed, s.pending[tx], id, row);
    hide Inv, ForeignKey, Acyclic, WouldCycle, KeyStable, ChildrenServed, OwnerAgrees, Overlay;
    GoodWriteKeeps(s, tx, id, Some(row), v[id := row]);
  }

  /** Rewriting a visible row in its scope leaves every other transaction's child row with its parent. */
  lemma RewriteServesChildren(s: State, tx: Tx, id: int, row: Brand)
    requires Inv(s) && tx in s.pending && id in s.View(tx) && s.Unlocked(tx, id) && SameScope(row, s.View(tx)[id])
    ensures ChildrenServed(s, tx, id, Some(row))
  {
    forall other, x | other in s.pending && other != tx && x in s.pending[other]
                      && s.pending[other][x].Some? && s.pending[other][x].value.parent == Some(id)
      ensures SameScope(row, s.pending[other][x].value)
    {
      var child := s.pending[other][x].value;
      assert KeyStable(s, other, child);
      assert s.View(other)[x] == child;
      assert id in s.View(other) && SameScope(s.View(other)[id], child);
    }
  }

  lemma ClearParentKeeps(s: State, tx: Tx, id: int, owner: Owner, s': State)
    requires Inv(s) && Next(s, ClearParent(tx, id, owner), s')
    ensures Inv(s')
  {
    hide RowLocks, LockHoldersOpen, LinksLocked, KeysShared, Acyclic;
    var v, row := s.View(tx), Moved(s.View(tx)[id], None, owner);
    Unlinked(v, id, owner);
    RewriteServesChildren(s, tx, id, row);
    OverlayWrite(s.committed, s.pending[tx], id, row);
    hide Inv, ForeignKey, ChildrenServed, Overlay;
    GoodWriteKeeps(s, tx, id, Some(row), v[id := row]);
  }

  lemma TouchKeeps(s: State, tx: Tx, id: int, s': State)
    requires Inv(s) && Next(s, Touch(tx, id), s')
    ensures Inv(s')
  {
    var row := s.View(tx)[id];
    if id in s.pending[tx] {
      assert s'.pending[tx] == s.pending[tx];
      assert s' == s;
    } else {
      RewriteServesChildren(s, tx, id, row);
      CommittedRowKeyStable(s, tx, id);
      GoodWriteKeeps(s, tx, id, Some(row), s.View(tx));
    }
  }

  /** A committed row nobody is writing names a parent nobody is removing. */
  lemma CommittedRowKeyStable(s: State, tx: Tx, id: int)
    requires Inv(s) && tx in s.pending && id in s.committed && id !in s.pending[tx] && s.Unlocked(tx, id)
    ensures KeyStable(s, tx, s.committed[id])
  {
    var row := s.committed[id];
    forall other | other in s.pending && other != tx && row.parent.Some? && row.parent.value in s.pending[other]
      ensures s.pending[other][row.parent.value].Some? && SameScope(s.pending[other][row.parent.value].value, row)
    {
      assert s.View(other)[id] == row;
      assert row.parent.value in s.View(other);
    }
  }

  lemma DeleteKeeps(s: State, tx: Tx, id: int, s': State)
    requires Inv(s) && Next(s, Delete(tx, id), s')
    ensures Inv(s')
  {
    hide RowLocks, LockHoldersOpen, LinksLocked, KeysShared, Acyclic;
    Removed(s.View(tx), id);
    OverlayDelete(s.committed, s.pending[tx], id);
    hide Inv, ForeignKey, Overlay;
    GoodWriteKeeps(s, tx, id, None, s.View(tx) - {id});
  }

  lemma RescopedForest(v: Table, ids: set<int>, tenant: int, org: int)
    requires ForeignKey(v) && Acyclic(Edges(v)) && WholeTrees(v, ids)
    ensures ForeignKey(Rescoped(v, ids, tenant, org)) && Acyclic(Edges(Rescoped(v, ids, tenant, org)))
  {
    assert Edges(Rescoped(v, ids, tenant, org)) == Edges(v);
  }

  /** The foreign key lets rows change their scope exactly together with their parents and children. */
  lemma RescopeMeetsKeyIff(v: Table, ids: set<int>, tenant: int, org: int)
    requires ForeignKey(v) && forall id :: id in ids ==> id in v && !(v[id].tenant == tenant && v[id].org == org)
    ensures ForeignKey(Rescoped(v, ids, tenant, org)) <==> WholeTrees(v, ids)
  {
    var after := Rescoped(v, ids, tenant, org);
    if ForeignKey(after) {
      forall x | x in v && v[x].parent.Some? ensures x in ids <==> v[x].parent.value in ids {
        var p := v[x].parent.value;
        assert after[x].parent == v[x].parent && SameScope(v[p], v[x]) && SameScope(after[p], after[x]);
      }
    }
  }

  lemma RescopedView(s: State, tx: Tx, ids: set<int>, tenant: int, org: int)
    requires tx in s.pending && ids <= s.View(tx).Keys
    ensures Overlay(s.committed, RescopeWrites(s.pending[tx], s.View(tx), ids, tenant, org))
         == Rescoped(s.View(tx), ids, tenant, org)
  {
  }

  /** The ancestors of a re-scoped row are re-scoped with it, so they are all written. */
  lemma RescopedAreSealed(s: State, tx: Tx, ids: set<int>, tenant: int, org: int, id: int)
    requires RescopeAllowed(s, tx, ids) && id in ids
    ensures Sealed(WithWrites(s, tx, RescopeWrites(s.pending[tx], s.View(tx), ids, tenant, org)), tx, id)
  {
    RescopedView(s, tx, ids, tenant, org);
    var after := Rescoped(s.View(tx), ids, tenant, org);
    var links := Edges(after);
    forall y | Reaches(links, id, y) ensures y in ids {
      var n: nat :| Climb(links, id, n) == Some(y);
      ClimbInside(links, links, ids, id, n);
    }
  }

  lemma RescopeGoodWrite(s: State, tx: Tx, ids: set<int>, tenant: int, org: int, id: int)
    requires RescopeAllowed(s, tx, ids) && id in ids
    ensures GoodWrite(s, tx, id, Some(s.View(tx)[id].(tenant := tenant, org := org)))
  {
    var row := s.View(tx)[id];
    assert row.parent.Some? ==> row.parent.value in ids && s.Unlocked(tx, row.parent.value);
  }

  lemma RescopeKeeps(s: State, tx: Tx, ids: set<int>, tenant: int, org: int, s': State)
    requires Inv(s) && Next(s, Rescope(tx, ids, tenant, org), s')
    ensures Inv(s')
  {
    var v := s.View(tx);
    var w := RescopeWrites(s.pending[tx], v, ids, tenant, org);
    RescopedForest(v, ids, tenant, org);
    RescopedView(s, tx, ids, tenant, org);
    forall id | id in ids ensures GoodWrite(s, tx, id, w[id]) && LinkKept(s, tx, w, id) {
      RescopeGoodWrite(s, tx, ids, tenant, org, id);
      RescopedAreSealed(s, tx, ids, tenant, org, id);
    }
    hide Inv, GoodWrite, LinkKept, ForeignKey, Acyclic, RescopeAllowed;
    GoodWritesKeep(s, tx, w);
  }

  /** A row that is new to a transaction is nobody's parent yet. */
  lemma FreshRowHasNoChildren(s: State, tx: Tx, id: int, row: Brand)
    requires Inv(s) && tx in s.pending && id !in s.View(tx) && s.Unlocked(tx, id)
    ensures ChildrenServed(s, tx, id, Some(row))
  {
    forall other, x | other in s.pending && other != tx && x in s.pending[other] && s.pending[other][x].Some?
      ensures s.pending[other][x].value.parent != Some(id)
    {
      var child := s.pending[other][x].value;
      assert KeyStable(s, other, child);
      assert s.View(other)[x] == child;
    }
  }

  lemma NewRowGoodWrite(s: State, tx: Tx, id: int, row: Brand)
    requires Inv(s) && tx in s.pending && NewRowAllowed(s, tx, id, row)
    ensures GoodWrite(s, tx, id, Some(row)) && LinkCovered(s, tx, id, row)
  {
    FreshRowHasNoChildren(s, tx, id, row);
    hide Inv, ChildrenServed;
  }

  lemma NewRowsGoodWrites(s: State, tx: Tx, rows: Table)
    requires Inv(s) && tx in s.pending && forall x :: x in rows ==> NewRowAllowed(s, tx, x, rows[x])
    ensures GoodWrites(s, tx, InsertWrites(s.pending[tx], rows)) && NoNewLinks(s, tx, s.View(tx) + rows)
    ensures s.View(tx).Keys !! rows.Keys
  {
    forall x | x in rows
      ensures x !in s.View(tx) && GoodWrite(s, tx, x, Some(rows[x])) && LinkCovered(s, tx, x, rows[x])
    {
      assert NewRowAllowed(s, tx, x, rows[x]);
      NewRowGoodWrite(s, tx, x, rows[x]);
    }
    assert forall x :: x in rows && rows[x].parent.Some? ==> s.Holds(tx, rows[x].tenant);
    hide Inv, GoodWrite, LinkCovered, NewRowAllowed, Sealed;
  }

  lemma InsertKeeps(s: State, tx: Tx, batch: seq<(int, Brand)>, s': State)
    requires Inv(s) && Next(s, Insert(tx, batch), s') && GroundedStep(Insert(tx, batch))
    ensures Inv(s')
  {
    var rows := Rows(batch);
    hide RowLocks, LinksLocked, KeysShared, ForeignKey, Acyclic, ParentsPresent, OwnerAgrees, NewRowAllowed,
      Grounded, GoodWrites, NoNewLinks, Rows;
    NewRowsGoodWrites(s, tx, rows);
    Inserted(s.View(tx), rows);
    InsertedView(s, tx, rows);
    GoodWritesKeep(s, tx, InsertWrites(s.pending[tx], rows));
  }

  lemma InsertedView(s: State, tx: Tx, rows: Table)
    requires tx in s.pending
    ensures Overlay(s.committed, InsertWrites(s.pending[tx], rows)) == s.View(tx) + rows
  {
  }

  // ---- commit: another transaction's view is rebuilt over the new committed table ----

  /** What transaction `t` sees once `tx` has committed. */
  function Merged(s: State, tx: Tx, t: Tx): Table
    requires tx in s.pending && t in s.pending
  {
    Overlay(s.View(tx), s.pending[t])
  }

  lemma MergedForeignKey(s: State, tx: Tx, t: Tx)
    requires Inv(s) && tx in s.pending && t in s.pending && tx != t
    ensures ForeignKey(Merged(s, tx, t))
  {
    var merged := Merged(s, tx, t);
    forall x | x in merged && merged[x].parent.Some?
      ensures merged[x].parent.value in merged && SameScope(merged[merged[x].parent.value], merged[x])
    {
      var row, p := merged[x], merged[x].parent.value;
      if x in s.pending[t] {
        assert s.View(t)[x] == row && p in s.View(t);
        assert KeyStable(s, t, row);
      } else {
        assert s.View(tx)[x] == row && p in s.View(tx);
        if x in s.pending[tx] {
          assert KeyStable(s, tx, row);
        } else {
          assert s.View(t)[x] == row && p in s.View(t);
        }
      }
    }
  }

  ghost function SealedRows(s: State, tx: Tx): set<int>
    requires tx in s.pending
  {
    set x | x in s.pending[tx] && Sealed(s, tx, x)
  }

  lemma ParentSealed(s: State, tx: Tx, x: int)
    requires tx in s.pending && x in SealedRows(s, tx) && x in Edges(s.View(tx))
    ensures Edges(s.View(tx))[x] in SealedRows(s, tx)
  {
    var links := Edges(s.View(tx));
    forall y | Reaches(links, links[x], y) ensures y in s.pending[tx] {
      ReachesParent(links, x, y);
    }
    ReachesSelf(links, links[x]);
  }

  /** `row` is what the merged table holds under `x`, whichever of `a` and `b` commits. */
  predicate InMerged(s: State, a: Tx, b: Tx, x: int, row: Brand)
    requires a in s.pending && b in s.pending
  {
    if x in s.pending[a] then s.pending[a][x] == Some(row)
    else if x in s.pending[b] then s.pending[b][x] == Some(row)
    else x in s.committed && s.committed[x] == row
  }

  lemma InMergedEither(s: State, tx: Tx, t: Tx, x: int)
    requires RowLocks(s) && tx in s.pending && t in s.pending && tx != t && x in Merged(s, tx, t)
    ensures InMerged(s, tx, t, x, Merged(s, tx, t)[x]) && InMerged(s, t, tx, x, Merged(s, tx, t)[x])
  {
  }

  /** Where `b` does not hold the lock, a merged link is one that `a` sees, or inside a tree sealed by `b`. */
  lemma MergedLink(s: State, a: Tx, b: Tx, x: int, row: Brand)
    requires RowLocks(s) && LinksLocked(s) && a in s.pending && b in s.pending && a != b
    requires InMerged(s, a, b, x, row) && row.parent.Some? && !s.Holds(b, row.tenant)
    ensures x !in SealedRows(s, b) ==> x in s.View(a) && s.View(a)[x].parent == row.parent
    ensures x in SealedRows(s, b) ==> x in s.View(b) && s.View(b)[x].parent == row.parent
  {
    hide Sealed;
    if x in s.pending[b] {
      assert x !in s.pending[a];
      assert LinkCovered(s, b, x, row) || Sealed(s, b, x);
    }
  }

  /** In a tenant where `b` does not hold the lock, the merged links are a forest. */
  lemma MergedGroup(s: State, a: Tx, b: Tx, merged: Table, tenant: int)
    requires RowLocks(s) && LinksLocked(s) && Forests(s) && a in s.pending && b in s.pending && a != b
    requires forall x :: x in merged ==> InMerged(s, a, b, x, merged[x])
    requires !s.Holds(b, tenant)
    ensures Acyclic(GroupLinks(Edges(merged), Tenants(merged), tenant))
  {
    var links, sealed := GroupLinks(Edges(merged), Tenants(merged), tenant), SealedRows(s, b);
    var seen, theirs := Edges(s.View(a)), Edges(s.View(b));
    forall x | x in links
      ensures x !in sealed ==> x in seen && seen[x] == links[x]
      ensures x in sealed ==> x in theirs && theirs[x] == links[x] && links[x] in sealed
    {
      assert merged[x].parent == Some(links[x]) && merged[x].tenant == tenant;
      MergedLink(s, a, b, x, merged[x]);
      if x in sealed {
        ParentSealed(s, b, x);
      }
    }
    hide GroupLinks, Edges, Tenants, InMerged, SealedRows, RowLocks, LinksLocked, Acyclic;
    SublinksAcyclic(InnerLinks(links, sealed), theirs);
    SublinksAcyclic(OuterLinks(links, sealed), seen);
    AcyclicByParts(links, sealed);
  }

  lemma MergedForest(s: State, tx: Tx, t: Tx)
    requires Inv(s) && tx in s.pending && t in s.pending && tx != t
    ensures Acyclic(Edges(Merged(s, tx, t)))
  {
    var merged := Merged(s, tx, t);
    MergedForeignKey(s, tx, t);
    hide RowLocks, LinksLocked, Acyclic, ForeignKeys, KeysShared;
    forall x | x in merged ensures InMerged(s, tx, t, x, merged[x]) && InMerged(s, t, tx, x, merged[x]) {
      InMergedEither(s, tx, t, x);
    }
    hide InMerged, Merged;
    forall tenant ensures Acyclic(GroupLinks(Edges(merged), Tenants(merged), tenant)) {
      if s.Holds(t, tenant) {
        MergedGroup(s, t, tx, merged, tenant);
      } else {
        MergedGroup(s, tx, t, merged, tenant);
      }
    }
    forall c | c in Edges(merged)
      ensures Tenants(merged)[Edges(merged)[c]] == Tenants(merged)[c]
    {
      assert merged[c].parent.Some?;
    }
    AcyclicByGroup(Edges(merged), Tenants(merged));
  }

  lemma CommitKeeps(s: State, tx: Tx, s': State)
    requires Inv(s) && Next(s, Commit(tx), s')
    ensures Inv(s')
  {
    forall t | t in s'.pending
      ensures ForeignKey(s'.View(t)) && Acyclic(Edges(s'.View(t)))
    {
      MergedForeignKey(s, tx, t);
      MergedForest(s, tx, t);
    }
    ClosedKeepsLocks(s, tx, s.View(tx));
  }

  /** Whether a tree is sealed depends on no committed row. */
  lemma SealedOverAny(before: Table, after: Table, writes: Writes<int, Brand>, x: int)
    requires AllWritten(before, writes, x)
    ensures AllWritten(after, writes, x)
  {
    var g, h := Edges(Overlay(before, writes)), Edges(Overlay(after, writes));
    var known := set y | y in writes && Reaches(g, x, y);
    forall z | z in known ensures (z in g <==> z in h) && (z in g ==> h[z] == g[z] && g[z] in known) {
      if z in g {
        ReachesParent(g, z, g[z]);
        ReachesSelf(g, g[z]);
        ReachesTransitive(g, x, z, g[z]);
      }
    }
    ReachesSelf(g, x);
    forall y | Reaches(h, x, y) ensures y in writes {
      var n: nat :| Climb(h, x, n) == Some(y);
      ClimbInside(g, h, known, x, n);
    }
  }

  lemma ClosedKeepsLinks(s: State, tx: Tx, committed: Table)
    requires RowLocks(s) && LinksLocked(s) && tx in s.pending
    requires forall x :: x in s.committed && x !in s.pending[tx] ==> x in committed && committed[x] == s.committed[x]
    ensures LinksLocked(Closed(s, tx, committed))
  {
    var s' := Closed(s, tx, committed);
    hide AllWritten;
    forall t, x | t in s'.pending && x in s'.pending[t] && s'.pending[t][x].Some?
      ensures LinkCovered(s', t, x, s'.pending[t][x].value) || Sealed(s', t, x)
    {
      assert x !in s.pending[tx];
      assert LinkCovered(s, t, x, s.pending[t][x].value) || Sealed(s, t, x);
      if Sealed(s, t, x) {
        SealedOverAny(s.committed, committed, s.pending[t], x);
      }
    }
  }

  lemma ClosedKeepsLocks(s: State, tx: Tx, committed: Table)
    requires Inv(s) && tx in s.pending
    requires forall x :: x in s.committed && x !in s.pending[tx] ==> x in committed && committed[x] == s.committed[x]
    ensures var s' := Closed(s, tx, committed);
            RowLocks(s') && LockHoldersOpen(s') && LinksLocked(s') && KeysShared(s')
  {
    var s' := Closed(s, tx, committed);
    ClosedKeepsLinks(s, tx, committed);
    hide LinksLocked, ForeignKeys, Forests;
    forall t, x | t in s'.pending && x in s'.pending[t] && s'.pending[t][x].Some?
      ensures KeyStable(s', t, s'.pending[t][x].value)
    {
      assert KeyStable(s, t, s.pending[t][x].value);
    }
  }

  lemma AbortKeeps(s: State, tx: Tx, s': State)
    requires Inv(s) && Next(s, Abort(tx), s')
    ensures Inv(s')
  {
    ClosedKeepsLocks(s, tx, s.committed);
    forall t | t in s'.pending
      ensures s'.View(t) == s.View(t)
    {
    }
  }

  /** Opening transactions and taking free locks changes no row anyone sees. */
  ghost predicate Bookkeeping(s: State, s': State) {
    && s'.committed == s.committed && s.pending.Keys <= s'.pending.Keys
    && (forall t :: t in s'.pending ==> s'.pending[t] == if t in s.pending then s.pending[t] else map[])
    && (forall l :: l in s.locks ==> l in s'.locks && s'.locks[l] == s.locks[l])
    && LockHoldersOpen(s')
  }

  lemma BookkeepingLinks(s: State, s': State)
    requires Inv(s) && Bookkeeping(s, s')
    ensures RowLocks(s') && LinksLocked(s')
  {
    forall t, x | t in s'.pending && x in s'.pending[t] && s'.pending[t][x].Some?
      ensures LinkCovered(s', t, x, s'.pending[t][x].value) || Sealed(s', t, x)
    {
      assert LinkCovered(s, t, x, s.pending[t][x].value) || Sealed(s, t, x);
    }
    forall a, b, k | a in s'.pending && b in s'.pending && k in s'.pending[a] && k in s'.pending[b]
      ensures a == b
    {
      assert k in s.pending[a] && k in s.pending[b];
    }
  }

  lemma BookkeepingKeys(s: State, s': State)
    requires KeysShared(s) && Bookkeeping(s, s')
    ensures KeysShared(s')
  {
    forall t, x | t in s'.pending && x in s'.pending[t] && s'.pending[t][x].Some?
      ensures KeyStable(s', t, s'.pending[t][x].value)
    {
      assert KeyStable(s, t, s.pending[t][x].value);
    }
  }

  lemma BookkeepingViews(s: State, s': State)
    requires ForeignKeys(s) && Forests(s) && Bookkeeping(s, s')
    ensures ForeignKeys(s') && Forests(s')
  {
    forall t | t in s'.pending
      ensures ForeignKey(s'.View(t)) && Acyclic(Edges(s'.View(t)))
    {
      if t in s.pending {
        assert s'.View(t) == s.View(t);
      } else {
        assert s'.View(t) == s.committed;
      }
    }
  }

  lemma BookkeepingKeeps(s: State, s': State)
    requires Inv(s) && Bookkeeping(s, s')
    ensures Inv(s')
  {
    BookkeepingLinks(s, s');
    BookkeepingKeys(s, s');
    BookkeepingViews(s, s');
  }

  // ---- runs ----

  /** Every step of every transaction keeps the invariant, except for an insert that is not grounded. */
  lemma StepKeepsIff(s: State, step: Step, s': State)
    requires Inv(s) && Next(s, step, s')
    ensures Inv(s') <==> GroundedStep(step)
  {
    if GroundedStep(step) {
      StepKeeps(s, step, s');
    } else {
      InsertForestIff(s, step.tx, step.batch, s');
    }
  }

  lemma StepKeeps(s: State, step: Step, s': State)
    requires Inv(s) && Next(s, step, s') && GroundedStep(step)
    ensures Inv(s')
  {
    match step
    case Begin(_) => BookkeepingKeeps(s, s');
    case Lock(_, _) => BookkeepingKeeps(s, s');
    case SetParent(tx, id, parent, owner) => SetParentKeeps(s, tx, id, parent, owner, s');
    case ClearParent(tx, id, owner) => ClearParentKeeps(s, tx, id, owner, s');
    case Insert(tx, batch) => InsertKeeps(s, tx, batch, s');
    case Touch(tx, id) => TouchKeeps(s, tx, id, s');
    case Delete(tx, id) => DeleteKeeps(s, tx, id, s');
    case Rescope(tx, ids, tenant, org) => RescopeKeeps(s, tx, ids, tenant, org, s');
    case Commit(tx) => CommitKeeps(s, tx, s');
    case Abort(tx) => AbortKeeps(s, tx, s');
  }

  /** Any committed forest with sound parent references, and no open transaction. */
  ghost predicate Start(s: State) {
    s.pending == map[] && s.locks == map[] && ForeignKey(s.committed) && Acyclic(Edges(s.committed))
  }

  ghost predicate Run(states: seq<State>, steps: seq<Step>) {
    && |states| == |steps| + 1 && Start(states[0])
    && forall i :: 0 <= i < |steps| ==> Next(states[i], steps[i], states[i + 1])
  }

  lemma {:induction false} RunKeeps(states: seq<State>, steps: seq<Step>, i: nat)
    requires Run(states, steps) && i < |states|
    requires forall j :: 0 <= j < |steps| ==> GroundedStep(steps[j])
    ensures Inv(states[i])
  {
    if i > 0 {
      RunKeeps(states, steps, i - 1);
      StepKeeps(states[i - 1], steps[i - 1], states[i]);
    }
  }

  /**
   * Main result: in every interleaving of transactions that insert, move, re-own, un-parent, delete,
   * re-scope, commit or abort brands, the committed parent relation stays acyclic.
   */
  lemma CommittedForestAlways(states: seq<State>, steps: seq<Step>)
    requires Run(states, steps)
    requires forall j :: 0 <= j < |steps| ==> GroundedStep(steps[j])
    ensures forall i :: 0 <= i < |states| ==> Acyclic(Edges(states[i].committed)) && ForeignKey(states[i].committed)
    ensures forall i, path, x :: 0 <= i < |states| && ParentChain(states[i].committed, path, x, x) ==> |path| == 1
    ensures forall i, x :: 0 <= i < |states| && x in states[i].committed && states[i].committed[x].parent.Some? ==>
      var t, p := states[i].committed, states[i].committed[x].parent.value;
      p in t && t[p].tenant == t[x].tenant && t[p].org == t[x].org
  {
    forall i | 0 <= i < |states|
      ensures Acyclic(Edges(states[i].committed)) && ForeignKey(states[i].committed)
      ensures forall path, x :: ParentChain(states[i].committed, path, x, x) ==> |path| == 1
    {
      RunKeeps(states, steps, i);
      AcyclicIffNoChain(states[i].committed);
    }
    hide Run, GroundedStep, Acyclic, ParentChain;
  }

  // ---- the cycle check is exact, and what INSERT leaves unchecked ----

  /** An UPDATE in a forest is refused for a cycle if and only if its new link would close one. */
  lemma CycleCheckExact(v: Table, id: int, parent: int, owner: Owner)
    requires Acyclic(Edges(v)) && id in v && parent in v
    ensures WouldCycle(v, id, parent) <==> !Acyclic(Edges(v[id := Moved(v[id], Some(parent), owner)]))
  {
    assert Edges(v[id := Moved(v[id], Some(parent), owner)]) == Edges(v)[id := parent];
    RelinkAcyclicIff(Edges(v), id, parent);
  }

  /** An INSERT statement leaves its transaction a forest exactly when it is grounded. */
  lemma InsertForestIff(s: State, tx: Tx, batch: seq<(int, Brand)>, s': State)
    requires Inv(s) && Next(s, Insert(tx, batch), s')
    ensures Acyclic(Edges(s'.View(tx))) <==> GroundedStep(Insert(tx, batch))
  {
    var v, rows := s.View(tx), Rows(batch);
    forall x | x in rows ensures x !in v { assert NewRowAllowed(s, tx, x, rows[x]); }
    Inserted(v, rows);
    InsertedView(s, tx, rows);
  }

  lemma RowsOfOne(id: int, row: Brand)
    ensures Rows([(id, row)]) == map[id := row]
  {
    assert [(id, row)][..0] == [];
  }

  /** A statement that inserts one row is always grounded: `ck_brands_no_self_parent` is enough. */
  lemma SingleInsertGrounded(s: State, tx: Tx, id: int, row: Brand, s': State)
    requires Next(s, Insert(tx, [(id, row)]), s')
    ensures GroundedStep(Insert(tx, [(id, row)]))
  {
    RowsOfOne(id, row);
    assert id in Rows([(id, row)]) && NewRowAllowed(s, tx, id, row);
    SingleRowGrounded(Edges(map[id := row]), id);
  }

  const ANY_OWNER := Owner("organization", 7)

  /** Two rows of one INSERT naming each other as parent. */
  const MUTUAL_BATCH: seq<(int, Brand)> := [(1, Brand(1, 7, Some(2), ANY_OWNER)), (2, Brand(1, 7, Some(1), ANY_OWNER))]

  lemma MutualBatchRows()
    ensures Rows(MUTUAL_BATCH) == map[1 := MUTUAL_BATCH[0].1, 2 := MUTUAL_BATCH[1].1]
    ensures Rows(MUTUAL_BATCH[..0]) == map[] && Rows(MUTUAL_BATCH[..1]) == map[1 := MUTUAL_BATCH[0].1]
  {
    var first := MUTUAL_BATCH[..1];
    assert first[..0] == [];
    assert Rows(first) == map[1 := MUTUAL_BATCH[0].1];
  }

  lemma MutualBatchAllowed(s: State)
    requires s == State(map[], map[0 := map[]], map[1 := 0])
    ensures InsertAllowed(s, 0, MUTUAL_BATCH)
  {
    MutualBatchRows();
    assert s.View(0) == map[];
    forall i | 0 <= i < 2 ensures OwnerAgrees(s.View(0) + Rows(MUTUAL_BATCH[..i]), MUTUAL_BATCH[i].1) {
      assert i == 0 || i == 1;
    }
  }

  const OPENED := State(map[], map[0 := map[]], map[])
  const LOCKED := State(map[], map[0 := map[]], map[1 := 0])
  const INSERTED := State(map[], map[0 := InsertWrites(map[], Rows(MUTUAL_BATCH))], map[1 := 0])
  const COMMITTED := State(Rows(MUTUAL_BATCH), map[], map[])

  lemma MutualBatchCommits()
    ensures Next(INSERTED, Commit(0), COMMITTED)
  {
    InsertedView(LOCKED, 0, Rows(MUTUAL_BATCH));
    assert INSERTED.View(0) == Rows(MUTUAL_BATCH);
    assert Closed(INSERTED, 0, INSERTED.View(0)) == COMMITTED;
  }

  lemma MutualBatchIsACycle()
    ensures !Acyclic(Edges(COMMITTED.committed))
  {
    MutualBatchRows();
    assert Climb(Edges(COMMITTED.committed), 1, 2) == Some(1);
  }

  lemma MutualBatchSteps(start: State)
    requires start == State(map[], map[], map[])
    ensures Next(start, Begin(0), OPENED) && Next(OPENED, Lock(0, 1), LOCKED)
    ensures Next(LOCKED, Insert(0, MUTUAL_BATCH), INSERTED)
  {
    MutualBatchAllowed(LOCKED);
    hide InsertAllowed, Rows, InsertWrites;
  }

  lemma FourSteps(s0: State, s1: State, s2: State, s3: State, s4: State, a: Step, b: Step, c: Step, d: Step)
    requires Start(s0) && Next(s0, a, s1) && Next(s1, b, s2) && Next(s2, c, s3) && Next(s3, d, s4)
    ensures Run([s0, s1, s2, s3, s4], [a, b, c, d])
  {
    hide Next;
    var states, steps := [s0, s1, s2, s3, s4], [a, b, c, d];
    forall i | 0 <= i < 4 ensures Next(states[i], steps[i], states[i + 1]) {
      assert i == 0 || i == 1 || i == 2 || i == 3;
    }
  }

  /** Such a statement passes every check, and its rows are committed as a cycle. */
  lemma MultiRowInsertCanCommitACycle()
    ensures exists states: seq<State>, steps: seq<Step> ::
      Run(states, steps) && !Acyclic(Edges(states[|steps|].committed))
  {
    var start := State(map[], map[], map[]);
    MutualBatchSteps(start);
    MutualBatchCommits();
    MutualBatchIsACycle();
    assert Start(start) by {
      assert Edges(start.committed) == map[];
    }
    hide *;
    FourSteps(start, OPENED, LOCKED, INSERTED, COMMITTED, Begin(0), Lock(0, 1), Insert(0, MUTUAL_BATCH), Commit(0));
    var states, steps := [start, OPENED, LOCKED, INSERTED, COMMITTED],
                         [Begin(0), Lock(0, 1), Insert(0, MUTUAL_BATCH), Commit(0)];
    assert states[|steps|] == COMMITTED;
  }

  // ---- why the lock is needed ----

  /** The steps of a guard that takes no lock. */
  ghost predicate NextWithoutLock(s: State, step: Step, s': State) {
    if step.SetParent? then
      && SetParentChecked(s, step.tx, step.id, step.parent, step.owner)
      && s' == s.Write(step.tx, step.id, Some(Moved(s.View(step.tx)[step.id], Some(step.parent), step.owner)))
    else Next(s, step, s')
  }

  ghost predicate RunWithoutLock(states: seq<State>, steps: seq<Step>) {
    && |states| == |steps| + 1 && Start(states[0])
    && forall i :: 0 <= i < |steps| ==> NextWithoutLock(states[i], steps[i], states[i + 1])
  }

  const ROOT := Brand(1, 7, None, ANY_OWNER)
  const UNDER_2 := Brand(1, 7, Some(2), ANY_OWNER)
  const UNDER_1 := Brand(1, 7, Some(1), ANY_OWNER)
  const ROOTS: Table := map[1 := ROOT, 2 := ROOT]
  const BOTH_OPEN := State(ROOTS, map[0 := map[], 1 := map[]], map[])
  const ONE_MOVED := State(ROOTS, map[0 := map[1 := Some(UNDER_2)], 1 := map[]], map[])
  const BOTH_MOVED := State(ROOTS, map[0 := map[1 := Some(UNDER_2)], 1 := map[2 := Some(UNDER_1)]], map[])
  const ONE_COMMITTED := State(map[1 := UNDER_2, 2 := ROOT], map[1 := map[2 := Some(UNDER_1)]], map[])
  const BOTH_COMMITTED := State(map[1 := UNDER_2, 2 := UNDER_1], map[], map[])

  lemma MovePassesCheck(s: State, tx: Tx, id: int, parent: int)
    requires || (s == BOTH_OPEN && tx == 0 && id == 1 && parent == 2)
             || (s == ONE_MOVED && tx == 1 && id == 2 && parent == 1)
    ensures SetParentChecked(s, tx, id, parent, ANY_OWNER) && s.View(tx) == ROOTS
  {
    assert s.View(tx) == ROOTS;
    assert Edges(ROOTS) == map[];
    assert !Reaches(Edges(ROOTS), parent, id) by {
      assert forall n: nat :: n > 0 ==> Climb(map[], parent, n) == None;
    }
  }

  lemma UnlockedMoves()
    ensures NextWithoutLock(BOTH_OPEN, SetParent(0, 1, 2, ANY_OWNER), ONE_MOVED)
    ensures NextWithoutLock(ONE_MOVED, SetParent(1, 2, 1, ANY_OWNER), BOTH_MOVED)
  {
    MovePassesCheck(BOTH_OPEN, 0, 1, 2);
    MovePassesCheck(ONE_MOVED, 1, 2, 1);
    hide SetParentChecked;
  }

  lemma UnlockedCommits()
    ensures NextWithoutLock(BOTH_MOVED, Commit(0), ONE_COMMITTED)
    ensures NextWithoutLock(ONE_COMMITTED, Commit(1), BOTH_COMMITTED)
  {
    assert BOTH_MOVED.View(0) == ONE_COMMITTED.committed;
    assert Closed(BOTH_MOVED, 0, BOTH_MOVED.View(0)) == ONE_COMMITTED;
    assert ONE_COMMITTED.View(1) == BOTH_COMMITTED.committed;
    assert Closed(ONE_COMMITTED, 1, ONE_COMMITTED.View(1)) == BOTH_COMMITTED;
  }

  lemma UnlockedBegins()
    ensures Start(State(ROOTS, map[], map[]))
    ensures NextWithoutLock(State(ROOTS, map[], map[]), Begin(0), State(ROOTS, map[0 := map[]], map[]))
    ensures NextWithoutLock(State(ROOTS, map[0 := map[]], map[]), Begin(1), BOTH_OPEN)
  {
    assert Edges(ROOTS) == map[];
  }

  lemma MutualMovesAreACycle()
    ensures !Acyclic(Edges(BOTH_COMMITTED.committed))
  {
    assert Climb(Edges(BOTH_COMMITTED.committed), 1, 2) == Some(1);
  }

  /** Why the lock is needed: without it two moves that each pass the ancestor walk are committed as a cycle. */
  lemma MovesWithoutLockClash()
    ensures exists states: seq<State>, steps: seq<Step> ::
      RunWithoutLock(states, steps) && !Acyclic(Edges(states[|steps|].committed))
  {
    UnlockedBegins();
    UnlockedMoves();
    UnlockedCommits();
    MutualMovesAreACycle();
    hide *;
    var states := [State(ROOTS, map[], map[]), State(ROOTS, map[0 := map[]], map[]),
                   BOTH_OPEN, ONE_MOVED, BOTH_MOVED, ONE_COMMITTED, BOTH_COMMITTED];
    var steps := [Begin(0), Begin(1), SetParent(0, 1, 2, ANY_OWNER), SetParent(1, 2, 1, ANY_OWNER),
                  Commit(0), Commit(1)];
    SixSteps(states, steps);
    assert states[|steps|] == BOTH_COMMITTED;
  }

  lemma SixSteps(states: seq<State>, steps: seq<Step>)
    requires |states| == 7 && |steps| == 6 && Start(states[0])
    requires NextWithoutLock(states[0], steps[0], states[1]) && NextWithoutLock(states[1], steps[1], states[2])
    requires NextWithoutLock(states[2], steps[2], states[3]) && NextWithoutLock(states[3], steps[3], states[4])
    requires NextWithoutLock(states[4], steps[4], states[5]) && NextWithoutLock(states[5], steps[5], states[6])
    ensures RunWithoutLock(states, steps)
  {
    hide NextWithoutLock;
    forall i | 0 <= i < 6 ensures NextWithoutLock(states[i], steps[i], states[i + 1]) {
      assert i == 0 || i == 1 || i == 2 || i == 3 || i == 4 || i == 5;
    }
  }

  // ---- what the guard does not watch ----

  /** One UPDATE that renumbers brands; what others name as parent stays as it is. */
  ghost predicate Renumbers(t: Table, ids: map<int, int>, t': Table) {
    && t.Keys == ids.Keys && (forall x, y :: x in ids && y in ids && ids[x] == ids[y] ==> x == y)
    && (forall x :: x in t ==> ids[x] in t' && t'[ids[x]] == t[x])
    && (forall x' :: x' in t' ==> exists x :: x in ids && ids[x] == x')
  }

  /** The number of no row that others name as parent changes. */
  predicate ParentsStay(t: Table, ids: map<int, int>) {
    forall x :: x in t && t[x].parent.Some? ==> t[x].parent.value in ids && ids[t[x].parent.value] == t[x].parent.value
  }

  /**
   * A table that meets the foreign key, such as one just renumbered, is a forest exactly when it is grounded:
   * no row is still climbing after as many steps as there are rows.
   */
  lemma TableForestIff(t: Table)
    requires ForeignKey(t)
    ensures Acyclic(Edges(t)) <==> Grounded(Edges(t), t.Keys)
  {
    var none: Links := map[];
    forall z | z in Edges(t) ensures Edges(t)[z] in t.Keys {
      assert t[z].parent.Some?;
    }
    BatchAcyclicIff(none, Edges(t), t.Keys, {});
    assert none + Edges(t) == Edges(t);
  }

  lemma {:induction false} RenumberedClimb(t: Table, ids: map<int, int>, t': Table, x: int, n: nat)
    requires ForeignKey(t) && Renumbers(t, ids, t') && ParentsStay(t, ids) && x in t && n > 0
    ensures Climb(Edges(t'), ids[x], n) == Climb(Edges(t), x, n)
    ensures Climb(Edges(t), x, n).Some? ==>
      Climb(Edges(t), x, n).value in ids && ids[Climb(Edges(t), x, n).value] == Climb(Edges(t), x, n).value
    decreases n
  {
    assert t'[ids[x]] == t[x];
    if t[x].parent.Some? {
      var p := t[x].parent.value;
      assert Edges(t)[x] == p && Edges(t')[ids[x]] == p && ids[p] == p;
      if n > 1 {
        RenumberedClimb(t, ids, t', p, n - 1);
      }
    }
  }

  /** Renumbering keeps the forest if every row that is a parent keeps its number: what a caller must see to. */
  lemma ParentsStayKeepsForest(t: Table, ids: map<int, int>, t': Table)
    requires ForeignKey(t) && Acyclic(Edges(t)) && Renumbers(t, ids, t') && ParentsStay(t, ids)
    ensures Acyclic(Edges(t'))
  {
    forall y: int, n: nat | n > 0 ensures Climb(Edges(t'), y, n) != Some(y) {
      if y in t' {
        var x :| x in ids && ids[x] == y;
        RenumberedClimb(t, ids, t', x, n);
        assert Climb(Edges(t), x, n) != Some(x);
      }
    }
  }

  const CHAIN: Table := map[1 := ROOT, 2 := UNDER_1, 3 := UNDER_2]
  const RENUMBERED: Table := map[5 := ROOT, 2 := UNDER_1, 1 := UNDER_2]

  /** `id` is no watched column: renumbering 1 to 5 and 3 to 1 meets the keys and leaves a cycle. */
  lemma RenumberingCanCloseACycle()
    ensures ForeignKey(CHAIN) && Acyclic(Edges(CHAIN)) && Renumbers(CHAIN, map[1 := 5, 2 := 2, 3 := 1], RENUMBERED)
    ensures ForeignKey(RENUMBERED) && !Acyclic(Edges(RENUMBERED))
  {
    hide *;
    ChainKeys();
    ChainIsRenumbered();
    ChainIsAForest();
    RenumberedIsACycle();
  }

  lemma ChainKeys()
    ensures ForeignKey(CHAIN) && ForeignKey(RENUMBERED)
  {
  }

  lemma RenumberedIsACycle()
    ensures !Acyclic(Edges(RENUMBERED))
  {
    assert Climb(Edges(RENUMBERED), 1, 2) == Some(1);
  }

  lemma ChainIsRenumbered()
    ensures Renumbers(CHAIN, map[1 := 5, 2 := 2, 3 := 1], RENUMBERED)
  {
    var ids: map<int, int> := map[1 := 5, 2 := 2, 3 := 1];
    assert ids[1] == 5 && ids[2] == 2 && ids[3] == 1;
  }

  lemma ChainIsAForest()
    ensures Acyclic(Edges(CHAIN))
  {
    var none: Links, one, two := map[], map[2 := 1], map[2 := 1, 3 := 2];
    assert Edges(CHAIN) == two && one == none[2 := 1] && two == one[3 := 2];
    assert Acyclic(none);
    assert !Reaches(none, 1, 2) by {
      assert forall n: nat :: n > 0 ==> Climb(none, 1, n) == None;
    }
    RelinkAcyclicIff(none, 2, 1);
    assert !Reaches(one, 2, 3) by {
      assert forall n: nat :: n > 0 ==> Climb(one, 2, n) == Climb(one, 1, n - 1);
      assert forall n: nat :: n > 0 ==> Climb(one, 1, n) == None;
    }
    RelinkAcyclicIff(one, 3, 2);
  }
}
