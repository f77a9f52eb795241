/**
 * Parent links as a functional graph: climbing, reachability and cycles.
 *
 * A table with a nullable self-reference is the partial map from a row to its parent.
 */
module Forest {
  import opened Basics

  type Links = map<int, int>

  /** The row reached from `x` by following `n` parent links, if the climb gets that far. */
  function Climb(g: Links, x: int, n: nat): Option<int>
    decreases n
  {
    if n == 0 then Some(x)
    else if x in g then Climb(g, g[x], n - 1)
    else None
  }

  /** `y` is `x` or one of its ancestors. */
  ghost predicate Reaches(g: Links, x: int, y: int) {
    exists n: nat :: Climb(g, x, n) == Some(y)
  }

  /** No row is its own proper ancestor. */
  ghost predicate Acyclic(g: Links) {
    forall x: int, n: nat :: n > 0 ==> Climb(g, x, n) != Some(x)
  }

  /** Every link of `h` is a link of `g`. */
  predicate Sublinks(h: Links, g: Links) {
    forall x :: x in h ==> x in g && g[x] == h[x]
  }

  lemma {:induction false} ClimbAdd(g: Links, x: int, a: nat, b: nat)
    ensures Climb(g, x, a).Some? ==> Climb(g, x, a + b) == Climb(g, Climb(g, x, a).value, b)
    ensures Climb(g, x, a).None? ==> Climb(g, x, a + b).None?
    decreases a
  {
    if a > 0 && x in g {
      ClimbAdd(g, g[x], a - 1, b);
    }
  }

  lemma ReachesTransitive(g: Links, x: int, y: int, z: int)
    requires Reaches(g, x, y) && Reaches(g, y, z)
    ensures Reaches(g, x, z)
  {
    var a: nat :| Climb(g, x, a) == Some(y);
    var b: nat :| Climb(g, y, b) == Some(z);
    ClimbAdd(g, x, a, b);
    assert Climb(g, x, a + b) == Some(z);
  }

  lemma ReachesSelf(g: Links, x: int)
    ensures Reaches(g, x, x)
  {
    assert Climb(g, x, 0) == Some(x);
  }

  lemma ReachesParent(g: Links, x: int, y: int)
    requires x in g
    ensures Reaches(g, g[x], y) ==> Reaches(g, x, y)
    ensures Reaches(g, x, y) && x != y ==> Reaches(g, g[x], y)
  {
    if Reaches(g, g[x], y) {
      var n: nat :| Climb(g, g[x], n) == Some(y);
      assert Climb(g, x, n + 1) == Some(y);
    }
    if Reaches(g, x, y) && x != y {
      var n: nat :| Climb(g, x, n) == Some(y);
      assert Climb(g, g[x], n - 1) == Some(y);
    }
  }

  lemma {:induction false} SublinksClimb(h: Links, g: Links, x: int, n: nat)
    requires Sublinks(h, g)
    ensures Climb(h, x, n).Some? ==> Climb(g, x, n) == Climb(h, x, n)
    decreases n
  {
    if n > 0 && x in h {
      SublinksClimb(h, g, h[x], n - 1);
    }
  }

  /** Removing links cannot close a cycle: why un-parenting needs no lock. */
  lemma SublinksAcyclic(h: Links, g: Links)
    requires Sublinks(h, g) && Acyclic(g)
    ensures Acyclic(h)
  {
    forall x: int, n: nat | n > 0
      ensures Climb(h, x, n) != Some(x)
    {
      SublinksClimb(h, g, x, n);
    }
  }

  /** Two link maps that agree except at `x`: a climb to `x` in one is a climb to `x` in the other. */
  lemma {:induction false} ClimbToChangedRow(g: Links, h: Links, x: int, y: int, n: nat)
    requires forall z :: z != x ==> ((z in g) <==> (z in h)) && (z in g ==> g[z] == h[z])
    requires Climb(g, y, n) == Some(x)
    ensures Reaches(h, y, x)
    decreases n
  {
    if y == x {
      ReachesSelf(h, x);
    } else {
      ClimbToChangedRow(g, h, x, g[y], n - 1);
      ReachesParent(h, y, x);
    }
  }

  /** The climb from `y` passes through `x` within its first `n` rows. */
  ghost predicate MeetsWithin(g: Links, y: int, x: int, n: nat) {
    exists k: nat :: k < n && Climb(g, y, k) == Some(x)
  }

  /** A climb from `y` in `h` either passes through `x` or is a climb in `g`. */
  lemma {:induction false} ClimbAvoiding(g: Links, h: Links, x: int, y: int, n: nat)
    requires forall z :: z != x ==> ((z in g) <==> (z in h)) && (z in g ==> g[z] == h[z])
    requires Climb(h, y, n).Some?
    ensures Climb(g, y, n) == Climb(h, y, n) || MeetsWithin(h, y, x, n)
    decreases n
  {
    if n > 0 {
      if y == x {
        assert Climb(h, y, 0) == Some(x);
      } else {
        ClimbAvoiding(g, h, x, h[y], n - 1);
        if MeetsWithin(h, h[y], x, n - 1) {
          var k: nat :| k < n - 1 && Climb(h, h[y], k) == Some(x);
          assert Climb(h, y, k + 1) == Some(x);
        }
      }
    }
  }

  /** A cycle through `y` that meets `x` is a cycle through `x`. */
  lemma RotateCycle(h: Links, x: int, y: int, k: nat, n: nat)
    requires k < n && Climb(h, y, n) == Some(y) && Climb(h, y, k) == Some(x)
    ensures Climb(h, x, n) == Some(x)
  {
    ClimbAdd(h, y, k, n - k);
    assert Climb(h, x, n - k) == Some(y);
    ClimbAdd(h, x, n - k, k);
    hide Climb;
    assert n - k + k == n;
  }

  /**
   * Giving `x` the parent `p` in a forest closes a cycle exactly when `x` is `p` or one of its
   * ancestors: the question the guard's recursive query asks.
   */
  lemma RelinkAcyclicIff(g: Links, x: int, p: int)
    requires Acyclic(g)
    ensures Acyclic(g[x := p]) <==> !Reaches(g, p, x)
  {
    var h := g[x := p];
    if Reaches(g, p, x) {
      var m: nat :| Climb(g, p, m) == Some(x);
      ClimbToChangedRow(g, h, x, p, m);
      var m': nat :| Climb(h, p, m') == Some(x);
      assert Climb(h, x, m' + 1) == Some(x);
    } else if !Acyclic(h) {
      var y: int, n: nat :| n > 0 && Climb(h, y, n) == Some(y);
      ClimbAvoiding(g, h, x, y, n);
      var k: nat :| k < n && Climb(h, y, k) == Some(x);
      RotateCycle(h, x, y, k, n);
      ClimbToChangedRow(h, g, x, p, n - 1);
    }
  }

  /** The links whose child belongs to a group, here the tenant of the child. */
  function GroupLinks(g: Links, group: map<int, int>, l: int): Links {
    map x | x in g && x in group && group[x] == l :: g[x]
  }

  /** When every link joins rows of one group, a climb never leaves its group. */
  lemma {:induction false} ClimbKeepsGroup(g: Links, group: map<int, int>, x: int, n: nat)
    requires forall c :: c in g ==> c in group && g[c] in group && group[g[c]] == group[c]
    requires x in group && Climb(g, x, n).Some?
    ensures Climb(GroupLinks(g, group, group[x]), x, n) == Climb(g, x, n)
    decreases n
  {
    if n > 0 {
      ClimbKeepsGroup(g, group, g[x], n - 1);
    }
  }

  /** Acyclicity can be checked one group at a time, so one lock per tenant is enough. */
  lemma AcyclicByGroup(g: Links, group: map<int, int>)
    requires forall c :: c in g ==> c in group && g[c] in group && group[g[c]] == group[c]
    ensures Acyclic(g) <==> forall l :: Acyclic(GroupLinks(g, group, l))
  {
    if Acyclic(g) {
      forall l ensures Acyclic(GroupLinks(g, group, l)) {
        SublinksAcyclic(GroupLinks(g, group, l), g);
      }
    }
    if forall l :: Acyclic(GroupLinks(g, group, l)) {
      forall x: int, n: nat | n > 0
        ensures Climb(g, x, n) != Some(x)
      {
        if x in group && Climb(g, x, n).Some? {
          ClimbKeepsGroup(g, group, x, n);
          assert Climb(GroupLinks(g, group, group[x]), x, n) != Some(x);
        }
      }
    }
  }

  /** `g` without the links that leave or enter `x`. */
  function Without(g: Links, x: int): Links {
    map z | z in g && z != x && g[z] != x :: g[z]
  }

  lemma {:induction false} ClimbWithout(g: Links, x: int, y: int, n: nat)
    requires y != x && !MeetsWithin(g, y, x, n + 1) && Climb(g, y, n).Some?
    ensures Climb(Without(g, x), y, n) == Climb(g, y, n)
    decreases n
  {
    if n > 0 {
      assert g[y] != x by {
        assert Climb(g, y, 1) == Some(g[y]);
      }
      assert !MeetsWithin(g, g[y], x, n) by {
        forall k: nat | k < n ensures Climb(g, g[y], k) != Some(x) {
          assert Climb(g, y, k + 1) == Climb(g, g[y], k);
        }
      }
      ClimbWithout(g, x, g[y], n - 1);
    }
  }

  /** In a forest over `ids` every climb ends within `|ids|` steps. */
  lemma {:induction false} AcyclicClimbEnds(g: Links, ids: set<int>, x: int)
    requires Acyclic(g) && x in ids
    requires forall z :: z in g ==> z in ids && g[z] in ids
    ensures Climb(g, x, |ids|).None?
    decreases |ids|
  {
    if x in g {
      var h, rest := Without(g, x), ids - {x};
      forall k: nat ensures Climb(g, g[x], k) != Some(x) {
        assert Climb(g, x, k + 1) == Climb(g, g[x], k);
      }
      assert Climb(g, g[x], 0) == Some(g[x]);
      SublinksAcyclic(h, g);
      AcyclicClimbEnds(h, rest, g[x]);
      if Climb(g, g[x], |rest|).Some? {
        ClimbWithout(g, x, g[x], |rest|);
      }
    }
  }

  lemma {:induction false} CycleNeverEnds(g: Links, x: int, n: nat, m: nat)
    requires n > 0 && Climb(g, x, n) == Some(x)
    ensures Climb(g, x, m).Some?
    decreases m
  {
    if m < n {
      ClimbAdd(g, x, m, n - m);
    } else {
      CycleNeverEnds(g, x, n, m - n);
      ClimbAdd(g, x, n, m - n);
    }
  }

  /** The links of a batch of new rows that stay inside the batch. */
  function InnerLinks(batch: Links, ids: set<int>): Links {
    map x | x in batch && x in ids && batch[x] in ids :: batch[x]
  }

  /** From each new row, following parents inside the batch leaves it within `|ids|` steps. */
  predicate Grounded(batch: Links, ids: set<int>) {
    forall x :: x in ids ==> Climb(InnerLinks(batch, ids), x, |ids|).None?
  }

  /** Two link maps with the same links out of a closed set climb alike from inside it. */
  lemma {:induction false} ClimbInside(g: Links, h: Links, known: set<int>, x: int, n: nat)
    requires forall z :: z in g && z in known ==> g[z] in known
    requires forall z :: z in known ==> (z in g <==> z in h) && (z in g ==> h[z] == g[z])
    requires x in known
    ensures Climb(h, x, n) == Climb(g, x, n)
    ensures Climb(g, x, n).Some? ==> Climb(g, x, n).value in known
    decreases n
  {
    if n > 0 && x in g {
      ClimbInside(g, h, known, g[x], n - 1);
    }
  }

  /** Inside a batch, a climb that has not reached the known rows uses inner links only. */
  lemma {:induction false} ClimbInnerOrKnown(table: Links, batch: Links, ids: set<int>, known: set<int>, x: int, n: nat)
    requires ids !! known && batch.Keys <= ids && table.Keys <= known
    requires forall z :: z in table ==> table[z] in known
    requires forall z :: z in batch ==> batch[z] in known + ids
    requires x in ids && Climb(table + batch, x, n).Some?
    ensures Climb(InnerLinks(batch, ids), x, n) == Climb(table + batch, x, n)
         || Climb(table + batch, x, n).value in known
    decreases n
  {
    if n > 0 {
      if batch[x] in known {
        ClimbInside(table + batch, table + batch, known, batch[x], n - 1);
      } else {
        ClimbInnerOrKnown(table, batch, ids, known, batch[x], n - 1);
      }
    }
  }

  function OuterLinks(g: Links, ids: set<int>): Links {
    map x | x in g && x !in ids :: g[x]
  }

  /** A climb that ends outside a closed set was outside it all along. */
  lemma {:induction false} ClimbOutside(g: Links, ids: set<int>, x: int, n: nat)
    requires forall z :: z in g && z in ids ==> g[z] in ids
    requires Climb(g, x, n).Some? && Climb(g, x, n).value !in ids
    ensures Climb(OuterLinks(g, ids), x, n) == Climb(g, x, n)
    decreases n
  {
    if x in ids {
      ClimbInside(g, g, ids, x, n);
    }
    if n > 0 {
      ClimbOutside(g, ids, g[x], n - 1);
    }
  }

  /** Acyclicity can be checked inside and outside a closed set. */
  lemma AcyclicByParts(g: Links, ids: set<int>)
    requires forall z :: z in g && z in ids ==> g[z] in ids
    requires Acyclic(InnerLinks(g, ids)) && Acyclic(OuterLinks(g, ids))
    ensures Acyclic(g)
  {
    forall x: int, n: nat | n > 0 ensures Climb(g, x, n) != Some(x) {
      if x in ids {
        ClimbInside(g, InnerLinks(g, ids), ids, x, n);
      } else if Climb(g, x, n) == Some(x) {
        ClimbOutside(g, ids, x, n);
      }
    }
  }

  /**
   * Inserting several rows in one statement, whose parents are looked for only at the end of the
   * statement, keeps the forest exactly when the batch is grounded.
   */
  lemma BatchAcyclicIff(table: Links, batch: Links, ids: set<int>, known: set<int>)
    requires Acyclic(table)
    requires ids !! known && batch.Keys <= ids && table.Keys <= known
    requires forall z :: z in table ==> table[z] in known
    requires forall z :: z in batch ==> batch[z] in known + ids
    ensures Acyclic(table + batch) <==> Grounded(batch, ids)
  {
    var inner := InnerLinks(batch, ids);
    if Acyclic(table + batch) {
      SublinksAcyclic(inner, table + batch);
      forall x | x in ids ensures Climb(inner, x, |ids|).None? {
        AcyclicClimbEnds(inner, ids, x);
      }
    }
    if Grounded(batch, ids) {
      forall x: int, n: nat | n > 0
        ensures Climb(table + batch, x, n) != Some(x)
      {
        if x in known {
          ClimbInside(table + batch, table, known, x, n);
        } else if x in ids && Climb(table + batch, x, n) == Some(x) {
          ClimbInnerOrKnown(table, batch, ids, known, x, n);
          CycleNeverEnds(inner, x, n, |ids|);
        }
      }
    }
  }

  /** One new row that is not its own parent is always grounded. */
  lemma SingleRowGrounded(batch: Links, x: int)
    requires batch.Keys <= {x} && (x in batch ==> batch[x] != x)
    ensures Grounded(batch, {x})
  {
    assert InnerLinks(batch, {x}) == map[];
  }
}
