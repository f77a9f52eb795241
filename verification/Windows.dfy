/** Half-open validity windows with optional bounds, and what it means for two links to clash. */
module Windows {
  import opened Basics

  /** A brand-manufacturer link: the columns the overlap check reads. Dates are day numbers. */
  datatype Link = Link(tenant: int, org: int, brand: int, manufacturer: int, kind: Option<string>,
                       from: Option<int>, to: Option<int>, deleted: bool)

  /** `ck_brand_manufacturers_valid_window` */
  predicate ValidWindow(l: Link) {
    l.from.Some? && l.to.Some? ==> l.from.value < l.to.value
  }

  predicate StartsBefore(from: Option<int>, to: Option<int>) {
    from.Some? && to.Some? ==> from.value < to.value
  }

  /** `daterange(a) && daterange(b)` for windows that are not empty. */
  predicate Overlaps(a: Link, b: Link) {
    StartsBefore(a.from, b.to) && StartsBefore(b.from, a.to)
  }

  predicate Covers(l: Link, day: int) {
    (l.from.Some? ==> l.from.value <= day) && (l.to.Some? ==> day < l.to.value)
  }

  /** Two valid windows overlap exactly when some day lies in both. */
  lemma OverlapsIffSharedDay(a: Link, b: Link)
    requires ValidWindow(a) && ValidWindow(b)
    ensures Overlaps(a, b) <==> exists day :: Covers(a, day) && Covers(b, day)
  {
    if Overlaps(a, b) {
      var day := match (a.from, b.from)
        case (Some(x), Some(y)) => if x < y then y else x
        case (Some(x), None) => x
        case (None, Some(y)) => y
        case (None, None) =>
          (match (a.to, b.to)
           case (Some(x), Some(y)) => if x < y then x - 1 else y - 1
           case (Some(x), None) => x - 1
           case (None, Some(y)) => y - 1
           case (None, None) => 0);
      assert Covers(a, day) && Covers(b, day);
    }
  }

  /** The columns the check compares; a NULL kind equals a NULL kind. */
  predicate SameKey(a: Link, b: Link) {
    a.tenant == b.tenant && a.org == b.org && a.brand == b.brand && a.manufacturer == b.manufacturer && a.kind == b.kind
  }

  predicate Clash(a: Link, b: Link) {
    !a.deleted && !b.deleted && SameKey(a, b) && Overlaps(a, b)
  }

  type Table = map<int, Link>

  /** No two live links of one key overlap. */
  predicate NoClash(t: Table) {
    forall a, b :: a in t && b in t && a != b ==> !Clash(t[a], t[b])
  }

  predicate AllValid(t: Table) {
    forall a :: a in t ==> ValidWindow(t[a])
  }

  /** `uq_brand_manufacturers_current`: one live open-ended link per key. */
  predicate UniqueCurrent(t: Table) {
    forall a, b :: a in t && b in t && a != b && !t[a].deleted && !t[b].deleted
                   && t[a].to.None? && t[b].to.None?
      ==> !SameKey(t[a], t[b])
  }

  /** What the rule means day by day. */
  ghost predicate OneLinkPerDay(t: Table) {
    forall a, b, day {:trigger Covers(t[a], day), Covers(t[b], day)} ::
      (a in t && b in t && !t[a].deleted && !t[b].deleted && SameKey(t[a], t[b])
       && Covers(t[a], day) && Covers(t[b], day))
      ==> a == b
  }

  /** No overlap is the same as: on every day at most one live link of a key is in force. */
  lemma NoClashIffOneLinkPerDay(t: Table)
    requires AllValid(t)
    ensures NoClash(t) <==> OneLinkPerDay(t)
  {
    forall a, b | a in t && b in t
      ensures Overlaps(t[a], t[b]) <==> exists day :: Covers(t[a], day) && Covers(t[b], day)
    {
      OverlapsIffSharedDay(t[a], t[b]);
    }
  }

  /** The unique index on open-ended links never refuses a table the overlap check accepts. */
  lemma NoClashImpliesUniqueCurrent(t: Table)
    requires NoClash(t)
    ensures UniqueCurrent(t)
  {
    forall a, b | a in t && b in t && a != b && !t[a].deleted && !t[b].deleted && t[a].to.None? && t[b].to.None?
      ensures !SameKey(t[a], t[b])
    {
      assert !Clash(t[a], t[b]);
    }
  }
}
