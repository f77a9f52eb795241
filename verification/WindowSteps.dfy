/** What each statement on brand-manufacturer links needs and what it does, column by column. */
module WindowSteps {
  import opened Basics
  import opened Windows
  import opened WindowChecks

  /** A transaction sees its own rows and brand scopes, and the committed ones it has not written. */
  lemma ViewRow(s: State, tx: Tx, x: int)
    requires tx in s.open
    ensures var w := s.open[tx].writes;
      && (x in w ==> (x in s.View(tx) <==> w[x].Some?) && (x in s.View(tx) ==> Some(s.View(tx)[x]) == w[x]))
      && (x !in w ==>
           (x in s.View(tx) <==> x in s.committed) && (x in s.View(tx) ==> s.View(tx)[x] == s.committed[x]))
  {
  }

  /** The brand's tenant and organization as the transaction sees them. */
  predicate BrandIn(s: State, tx: Tx, brand: int, tenant: int, org: int)
    requires tx in s.open
  {
    if brand in s.open[tx].scopes then s.open[tx].scopes[brand] == Scope(tenant, org)
    else brand in s.scopes && s.scopes[brand] == Scope(tenant, org)
  }

  /**
   * A link can be written if nobody else is writing it, its window is not empty, its brand has its tenant and
   * organization and nobody else is moving the brand. Only an UPDATE of a visible link that leaves brand,
   * manufacturer, kind, both dates and the deletion mark as they are escapes the check.
   */
  lemma WritePossibleIff(s: State, tx: Tx, id: int, row: Link, watched: bool)
    ensures (exists s' :: Next(s, Write(tx, id, row, watched), s'))
       <==> && tx in s.open && (forall other :: other in s.open && other != tx ==> id !in s.open[other].writes)
            && (row.from.Some? && row.to.Some? ==> row.from.value < row.to.value)
            && BrandIn(s, tx, row.brand, row.tenant, row.org)
            && (forall other :: other in s.open && other != tx ==> row.brand !in s.open[other].scopes)
            && (!watched ==>
                 && id in s.View(tx)
                 && var was := s.View(tx)[id];
                 && was.brand == row.brand && was.manufacturer == row.manufacturer && was.kind == row.kind
                 && was.from == row.from && was.to == row.to && was.deleted == row.deleted)
  {
    if WriteAllowed(s, tx, id, row, watched) {
      assert Next(s, Write(tx, id, row, watched), s.(open := s.open[tx := Written(s.open[tx], id, row, watched)]));
    }
  }

  lemma DeletePossibleIff(s: State, tx: Tx, id: int)
    ensures (exists s' :: Next(s, Delete(tx, id), s'))
       <==> && tx in s.open && id in s.View(tx)
            && (forall other :: other in s.open && other != tx ==> id !in s.open[other].writes)
  {
    if tx in s.open && id in s.View(tx) && s.Unlocked(tx, id) {
      assert Next(s, Delete(tx, id), s.(open := s.open[tx := s.open[tx].(writes := s.open[tx].writes[id := None])]));
    }
  }

  lemma RescopePossibleIff(s: State, tx: Tx, brand: int, scope: Scope)
    ensures (exists s' :: Next(s, Rescope(tx, brand, scope), s'))
       <==> && tx in s.open && (forall x :: x in s.View(tx) ==> s.View(tx)[x].brand != brand)
            && (forall other :: other in s.open && other != tx ==> brand !in s.open[other].scopes)
            && forall other, x :: other in s.open && other != tx && x in s.open[other].writes ==>
                 s.open[other].writes[x].Some? ==> s.open[other].writes[x].value.brand != brand
  {
    if RescopeAllowed(s, tx, brand) {
      var o := s.open[tx].(scopes := s.open[tx].scopes[brand := scope]);
      assert Next(s, Rescope(tx, brand, scope), s.(open := s.open[tx := o]));
    }
  }

  lemma FirePossibleIff(s: State, tx: Tx)
    ensures (exists s' :: Next(s, Fire(tx), s'))
       <==> && tx in s.open && s.open[tx].queue != []
            && EventPasses(s.locks, tx, s.View(tx), s.open[tx].queue[0])
  {
    if tx in s.open && s.open[tx].queue != [] {
      ExcludedIff(s.View(tx), s.open[tx].queue[0].id, s.open[tx].queue[0].row);
    }
    hide Excluded, ClashesWith;
    if FireAllowed(s, tx) {
      assert Next(s, Fire(tx), Fired(s, tx));
    }
  }

  /** What each step leaves, field by field. */
  lemma StepWrites(s: State, step: Step, s': State)
    requires Next(s, step, s')
    ensures match step
      case Begin(tx) => tx !in s.open && s' == s.(open := s.open[tx := Open(map[], map[], [])])
      case Write(tx, id, row, watched) =>
        var o := s.open[tx];
        s' == s.(open := s.open[tx := Open(o.writes[id := Some(row)], o.scopes,
                                           if watched then o.queue + [Event(id, row)] else o.queue)])
      case Delete(tx, id) =>
        var o := s.open[tx];
        s' == s.(open := s.open[tx := Open(o.writes[id := None], o.scopes, o.queue)])
      case Rescope(tx, brand, scope) =>
        var o := s.open[tx];
        s' == s.(open := s.open[tx := Open(o.writes, o.scopes[brand := scope], o.queue)])
      case Fire(tx) =>
        var o := s.open[tx];
        && s'.committed == s.committed && s'.scopes == s.scopes
        && s'.open == s.open[tx := Open(o.writes, o.scopes, o.queue[1..])]
        && s'.locks == if o.queue[0].row.deleted then s.locks else s.locks[o.queue[0].row.brand := tx]
      case Commit(tx) =>
        && tx in s.open && s.open[tx].queue == [] && s'.committed == s.View(tx) && Ends(s, tx, s')
        && (forall b :: b in s'.scopes <==> b in s.scopes || b in s.open[tx].scopes)
        && (forall b :: b in s'.scopes ==> BrandIn(s, tx, b, s'.scopes[b].tenant, s'.scopes[b].org))
      case Abort(tx) =>
        tx in s.open && s'.committed == s.committed && s'.scopes == s.scopes && Ends(s, tx, s')
  {
  }

  /** The transaction is gone, and with it its locks only. */
  ghost predicate Ends(s: State, tx: Tx, s': State) {
    && s'.open == s.open - {tx} && (forall b :: b in s'.locks <==> b in s.locks && s.locks[b] != tx)
    && (forall b :: b in s'.locks ==> s'.locks[b] == s.locks[b])
  }
}
