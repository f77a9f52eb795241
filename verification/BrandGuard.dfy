/**
 * `core.guard_brand_parent` and the UPDATE statement it guards, as code over a mutable table.
 */
module BrandGuard {
  import opened Basics
  import opened Forest
  import opened BrandSteps
  import opened BrandTree

  /** How an UPDATE of parent and owner ends; `Waits` leaves the statement blocked on a lock. */
  datatype Outcome = Done | Waits | WrongOwner | WouldCloseCycle | BadReference

  /** The parents of the working rows that exist: one round of the recursive query's join. */
  function JoinParents(v: Table, working: set<int>): set<int> {
    set a | a in working && a in v && v[a].parent.Some? && v[a].parent.value in v :: v[a].parent.value
  }

  /** A set of rows closed under existing parents contains every ancestor of its members. */
  lemma {:induction false} ClosedUnderParents(v: Table, found: set<int>, x: int, y: int, n: nat)
    requires JoinParents(v, found) <= found
    requires x in found && y in v && Climb(Edges(v), x, n) == Some(y)
    ensures y in found
    decreases n
  {
    if n > 0 {
      var p := Edges(v)[x];
      if p in v {
        assert p in JoinParents(v, found);
        ClosedUnderParents(v, found, p, y, n - 1);
      }
    }
  }

  /**
   * The recursive query: the rows reached from `start`, found by joining the newest rows with their
   * parents and dropping rows already found. It ends on every table, cyclic ones included.
   */
  method AncestorWalk(v: Table, start: int) returns (found: set<int>)
    ensures forall y :: y in found <==> start in v && y in v && Reaches(Edges(v), start, y)
  {
    found := if start in v then {start} else {};
    var working := found;
    ReachesSelf(Edges(v), start);
    while working != {}
      invariant working <= found <= v.Keys
      invariant start in v ==> start in found
      invariant start !in v ==> found == {}
      invariant forall y :: y in found ==> Reaches(Edges(v), start, y)
      invariant JoinParents(v, found - working) <= found
      decreases v.Keys - found, working
    {
      var joined := JoinParents(v, working);
      forall y | y in joined
        ensures Reaches(Edges(v), start, y)
      {
        var a :| a in working && v[a].parent == Some(y);
        ReachesSelf(Edges(v), y);
        ReachesParent(Edges(v), a, y);
        ReachesTransitive(Edges(v), start, a, y);
      }
      working, found := joined - found, found + joined;
    }
    forall y | start in v && y in v && Reaches(Edges(v), start, y)
      ensures y in found
    {
      var n: nat :| Climb(Edges(v), start, n) == Some(y);
      ClosedUnderParents(v, found, start, y, n);
    }
  }

  /** What the guard and the table's constraints decide, as one function of the state before. */
  ghost function UpdateOutcome(s: State, tx: Tx, id: int, parent: Option<int>, owner: Owner): Outcome
    requires tx in s.pending && id in s.View(tx)
  {
    var v := s.View(tx);
    var row := Moved(v[id], parent, owner);
    if !s.Unlocked(tx, id) then Waits
    else if parent.None? then Done
    else if row.tenant in s.locks && s.locks[row.tenant] != tx then Waits
    else if !OwnerAgrees(v, row) then WrongOwner
    else if WouldCycle(v, id, parent.value) then WouldCloseCycle
    else if parent.value == id || parent.value !in v || !SameScope(v[parent.value], row) then BadReference
    else if !KeyStable(s, tx, row) then Waits
    else Done
  }

  // ---- the same in columns ----

  /** Without a parent the guard does nothing: only the row itself can be locked. */
  lemma ClearingOutcome(s: State, tx: Tx, id: int, owner: Owner)
    requires tx in s.pending && id in s.View(tx)
    ensures UpdateOutcome(s, tx, id, None, owner) == if RowFree(s.pending, tx, id) then Done else Waits
  {
  }

  /**
   * Main result: when a move under `p` is done, and which refusal it meets otherwise. The owner counts as a
   * pair, tenant and organization must be the parent's, and the chain of parents above `p` must not hold the
   * row that moves.
   */
  lemma MoveOutcome(s: State, tx: Tx, id: int, p: int, owner: Owner)
    requires tx in s.pending && id in s.View(tx)
    ensures var v := s.View(tx);
      var outcome := UpdateOutcome(s, tx, id, Some(p), owner);
      var free := RowFree(s.pending, tx, id) && LockFree(s.locks, tx, v[id].tenant);
      var owned := p in v && v[p].owner.ownerType == owner.ownerType && v[p].owner.ownerId == owner.ownerId;
      var below := exists path :: ParentChain(v, path, p, id);
      var placed := p in v && v[p].tenant == v[id].tenant && v[p].org == v[id].org;
      var stays := ParentStays(s.pending, tx, p, v[id].tenant, v[id].org);
      && (outcome.Done? <==> free && owned && !below && placed && stays)
      && (outcome.WrongOwner? <==> free && p in v && !owned)
      && (outcome.WouldCloseCycle? <==> free && owned && below)
      && (outcome.BadReference? <==> free && (p in v ==> owned && !below && !placed))
  {
    var v := s.View(tx);
    ReachesIffChain(v, p, id);
    if p == id {
      ReachesSelf(Edges(v), id);
    }
    assert s.Unlocked(tx, id) <==> RowFree(s.pending, tx, id);
    assert KeyStable(s, tx, Moved(v[id], Some(p), owner))
      <==> ParentStays(s.pending, tx, p, v[id].tenant, v[id].org);
    hide Edges, Reaches, RowFree, ParentStays, KeyStable, ParentChain, State.Unlocked, State.View;
  }

  class BrandRows {
    var committed: Table
    var pending: map<Tx, Writes<int, Brand>>
    var locks: map<int, Tx>

    function Snapshot(): State
      reads this
    {
      State(committed, pending, locks)
    }

    constructor (committed: Table)
      ensures Snapshot() == State(committed, map[], map[])
    {
      this.committed := committed;
      pending, locks := map[], map[];
    }

    /** UPDATE core.brands SET parent_id, owner_type, owner_id WHERE id = ... */
    method UpdateParent(tx: Tx, id: int, parent: Option<int>, owner: Owner) returns (outcome: Outcome)
      requires tx in pending && id in Snapshot().View(tx)
      modifies this
      ensures outcome == UpdateOutcome(old(Snapshot()), tx, id, parent, owner)
      ensures outcome.Done? ==>
        var was := old(Snapshot()).View(tx)[id];
        && committed == old(committed)
        && pending == old(pending)[tx := old(pending)[tx][id := Some(Brand(was.tenant, was.org, parent, owner))]]
        && locks == if parent.None? then old(locks) else old(locks)[was.tenant := tx]
      ensures outcome.Done? && parent.None? ==> Next(old(Snapshot()), ClearParent(tx, id, owner), Snapshot())
      ensures outcome.Done? && parent.Some? ==>
                var tenant := old(Snapshot()).View(tx)[id].tenant;
                var locked := old(Snapshot()).(locks := old(locks)[tenant := tx]);
                && Next(old(Snapshot()), Lock(tx, tenant), locked)
                && Next(locked, SetParent(tx, id, parent.value, owner), Snapshot())
      ensures !outcome.Done? ==> committed == old(committed) && pending == old(pending)
      ensures !outcome.Done? ==>
                Snapshot() == old(Snapshot())
                || Next(old(Snapshot()), Lock(tx, old(Snapshot()).View(tx)[id].tenant), Snapshot())
    {
      var v := Snapshot().View(tx);
      var row := Moved(v[id], parent, owner);
      if !Snapshot().Unlocked(tx, id) {
        return Waits;
      }
      if parent.None? {
        pending := pending[tx := pending[tx][id := Some(row)]];
        return Done;
      }
      if row.tenant in locks && locks[row.tenant] != tx {
        return Waits;
      }
      locks := locks[row.tenant := tx];
      if !OwnerAgrees(v, row) {
        return WrongOwner;
      }
      var ancestors := AncestorWalk(v, parent.value);
      if id in ancestors {
        return WouldCloseCycle;
      }
      if parent.value == id || parent.value !in v || !SameScope(v[parent.value], row) {
        return BadReference;
      }
      if !KeyStable(Snapshot(), tx, row) {
        return Waits;
      }
      pending := pending[tx := pending[tx][id := Some(row)]];
      return Done;
    }

    /** COMMIT makes the private writes visible and only then lets go of the advisory locks. */
    method CommitTx(tx: Tx)
      requires tx in pending
      modifies this
      ensures Next(old(Snapshot()), Commit(tx), Snapshot())
      ensures forall x :: x in old(pending)[tx] ==>
        && (x in committed <==> old(pending)[tx][x].Some?)
        && (x in committed ==> Some(committed[x]) == old(pending)[tx][x])
      ensures forall x :: x !in old(pending)[tx] ==>
        (x in committed <==> x in old(committed)) && (x in committed ==> committed[x] == old(committed)[x])
      ensures pending.Keys == old(pending).Keys - {tx} && forall t :: t in pending ==> pending[t] == old(pending)[t]
      ensures forall b :: b in locks <==> b in old(locks) && old(locks)[b] != tx
      ensures forall b :: b in locks ==> locks[b] == old(locks)[b]
    {
      committed := Snapshot().View(tx);
      pending := pending - {tx};
      locks := map t | t in locks && locks[t] != tx :: locks[t];
    }
  }

  /** In every state a run can reach, a chain of parents holds the row exactly when the move would close a cycle. */
  lemma RefusedForCycleIff(s: State, tx: Tx, id: int, parent: int, owner: Owner)
    requires Inv(s) && tx in s.pending && id in s.View(tx)
    ensures var v := s.View(tx);
      var row := Brand(v[id].tenant, v[id].org, Some(parent), owner);
      UpdateOutcome(s, tx, id, Some(parent), owner) == WouldCloseCycle
      <==> && RowFree(s.pending, tx, id) && LockFree(s.locks, tx, row.tenant)
           && parent in v && v[parent].owner.ownerType == owner.ownerType && v[parent].owner.ownerId == owner.ownerId
           && !Acyclic(Edges(v[id := row]))
  {
    var v := s.View(tx);
    MoveOutcome(s, tx, id, parent, owner);
    ReachesIffChain(v, parent, id);
    if parent in v {
      CycleCheckExact(v, id, parent, owner);
      assert Moved(v[id], Some(parent), owner) == Brand(v[id].tenant, v[id].org, Some(parent), owner);
    }
    hide Inv, UpdateOutcome, RowFree, Acyclic, ParentChain, Reaches;
  }
}
