/** The tax migration's statements over the tax tables, the crosswalk and the id sequences. */
module TaxTables {
  import opened Basics
  import opened Json
  import opened Statements
  import opened Taxes

  /** A row of `sync.sync_records` or `sync.sync_payloads`. */
  datatype Crosswalk = Crosswalk(
    module_: string, externalId: string, entityTable: Option<string>, entityId: Option<int>)

  type CrosswalkTable = map<int, Crosswalk>

  const TAXES := "tax.taxes"
  const COMPONENTS := "tax.tax_components"

  // ---- the crosswalk ----

  predicate Names(r: Crosswalk, table: string) {
    r.entityTable == Some(table)
  }

  predicate Resolves(r: Crosswalk, ids: set<int>) {
    r.entityId.Some? && r.entityId.value in ids
  }

  /** DELETE the rows of `from` whose entity was not carried over to `ids`. */
  function DropDangling(rows: CrosswalkTable, from: string, ids: set<int>): CrosswalkTable {
    map k | k in rows && (Names(rows[k], from) ==> Resolves(rows[k], ids)) :: rows[k]
  }

  /** UPDATE the surviving rows of `from` to name `to`. */
  function Repoint(rows: CrosswalkTable, from: string, to: string): CrosswalkTable {
    map k | k in rows :: if Names(rows[k], from) then rows[k].(entityTable := Some(to)) else rows[k]
  }

  function Follow(rows: CrosswalkTable, from: string, to: string, ids: set<int>): CrosswalkTable {
    Repoint(DropDangling(rows, from, ids), from, to)
  }

  predicate AllResolve(rows: CrosswalkTable, table: string, ids: set<int>) {
    forall k :: k in rows && Names(rows[k], table) ==> Resolves(rows[k], ids)
  }

  /** No crosswalk row names the dropped table. */
  lemma NoneNamesDropped(rows: CrosswalkTable, from: string, to: string, ids: set<int>)
    requires from != to
    ensures forall k :: k in Follow(rows, from, to, ids) ==> !Names(Follow(rows, from, to, ids)[k], from)
  {
  }

  /** Every row naming the new table has its target, exactly when the rows that named it before had. */
  lemma FollowResolvesIff(rows: CrosswalkTable, from: string, to: string, ids: set<int>)
    requires from != to
    ensures AllResolve(Follow(rows, from, to, ids), to, ids) <==> AllResolve(rows, to, ids)
  {
    var after := Follow(rows, from, to, ids);
    if AllResolve(after, to, ids) {
      forall k | k in rows && Names(rows[k], to) ensures Resolves(rows[k], ids) {
        assert k in after && after[k] == rows[k];
      }
    }
  }

  /** A row is kept exactly when it was not dangling, and only its table name changes. */
  lemma FollowKeeps(rows: CrosswalkTable, from: string, to: string, ids: set<int>, k: int)
    requires k in rows
    ensures k in Follow(rows, from, to, ids) <==> (Names(rows[k], from) ==> Resolves(rows[k], ids))
    ensures k in Follow(rows, from, to, ids) ==>
      Follow(rows, from, to, ids)[k] == if Names(rows[k], from) then rows[k].(entityTable := Some(to)) else rows[k]
  {
  }

  /** Up and down again returns the crosswalk, less the rows of taxes not carried, if none named the new table. */
  lemma CrosswalkRoundTrip(rows: CrosswalkTable, from: string, to: string, ids: set<int>)
    requires from != to
    requires forall k :: k in rows ==> !Names(rows[k], to)
    ensures Follow(Follow(rows, from, to, ids), to, from, ids) == DropDangling(rows, from, ids)
  {
    var up := Follow(rows, from, to, ids);
    var down := Follow(up, to, from, ids);
    var kept := DropDangling(rows, from, ids);
    forall k | k in kept ensures k in down && down[k] == kept[k] {
      FollowKeeps(rows, from, to, ids, k);
      FollowKeeps(up, to, from, ids, k);
    }
    forall k | k in down ensures k in kept {
      FollowKeeps(up, to, from, ids, k);
      FollowKeeps(rows, from, to, ids, k);
    }
  }

  // ---- the sequence ----

  /** `setval(seq, last, called)` */
  datatype Sequence = Sequence(last: int, called: bool) {
    function Next(): int {
      if called then last + 1 else last
    }
  }

  /** A sequence set to the largest id, or to one that is still free. */
  predicate SetTo(s: Sequence, ids: set<int>) {
    && (s.called <==> ids != {}) && s.last >= 1 && (ids == {} ==> s.last == 1)
    && (forall i :: i in ids ==> i <= s.last) && (s.last in ids || s.last == 1)
  }

  /** `setval(GREATEST(COALESCE(MAX(id), 0), 1), COUNT(*) > 0)` */
  method ResetSequence(ids: set<int>) returns (s: Sequence)
    ensures SetTo(s, ids)
  {
    var rest, max := ids, 0;
    var found := false;
    while rest != {}
      invariant rest <= ids
      invariant forall i :: i in ids && i !in rest ==> found && i <= max
      invariant found ==> max in ids
      invariant !found ==> max == 0
      decreases rest
    {
      var i := PickOne(rest);
      if !found || i > max {
        found, max := true, i;
      }
      rest := rest - {i};
    }
    s := Sequence(if max > 1 then max else 1, ids != {});
  }

  /** The next id is larger than every stored one, so it is free. */
  lemma NextIdIsFree(ids: set<int>, s: Sequence)
    requires SetTo(s, ids)
    ensures s.Next() >= 1 && forall i :: i in ids ==> i < s.Next()
  {
  }

  // ---- the tables ----

  /** The rows the way up copies. */
  function CopiedUp(taxes: map<int, Tax>): map<int, Component> {
    map i | i in taxes && Valid(taxes[i]) :: Carry(taxes[i])
  }

  /** The rows the way down copies, notes filled in: groups have no old home. */
  function CopiedDown(components: map<int, Component>, render: Rendering): map<int, Tax> {
    map i | i in components && LeafType(components[i].taxType) :: CarryBack(components[i], None, render)
  }

  predicate Echoes(r: Crosswalk, i: int) {
    r.module_ == "taxes" && Names(r, COMPONENTS) && r.entityId == Some(i)
  }

  /** A tax's Zoho id after the echo: that of a crosswalk row of it, the old value without one. */
  ghost predicate Echoed(before: Option<string>, after: Option<string>, records: CrosswalkTable, i: int) {
    if exists k :: k in records && Echoes(records[k], i)
    then exists k :: k in records && Echoes(records[k], i) && after == Some(records[k].externalId)
    else after == before
  }

  /** `UPDATE taxes SET zoho_id = x.external_id FROM sync_records x`: with several matches, any one. */
  method EchoZohoIds(taxes: map<int, Tax>, records: CrosswalkTable) returns (echoed: map<int, Tax>)
    ensures echoed.Keys == taxes.Keys
    ensures forall i :: i in taxes ==> echoed[i] == taxes[i].(zohoId := echoed[i].zohoId)
    ensures forall i :: i in taxes ==> Echoed(taxes[i].zohoId, echoed[i].zohoId, records, i)
  {
    echoed := taxes;
    var rest := taxes.Keys;
    while rest != {}
      invariant rest <= taxes.Keys && echoed.Keys == taxes.Keys
      invariant forall i :: i in rest ==> echoed[i] == taxes[i]
      invariant forall i :: i in taxes ==> echoed[i] == taxes[i].(zohoId := echoed[i].zohoId)
      invariant forall i :: i in taxes && i !in rest ==> Echoed(taxes[i].zohoId, echoed[i].zohoId, records, i)
      decreases rest
    {
      var i := PickOne(rest);
      var matches := set k | k in records && Echoes(records[k], i);
      if matches != {} {
        var k := PickOne(matches);
        echoed := echoed[i := taxes[i].(zohoId := Some(records[k].externalId))];
      } else {
        assert forall k :: k in records && Echoes(records[k], i) ==> k in matches;
      }
      rest := rest - {i};
    }
  }

  /** Up and down again leaves exactly the valid rows, each unchanged but for what its columns could not keep. */
  lemma TaxesRoundTrip(taxes: map<int, Tax>, render: Rendering)
    ensures var back := CopiedDown(CopiedUp(taxes), render);
      && back.Keys == (set i | i in taxes && Valid(taxes[i]))
      && forall i :: i in back ==>
           (back[i] == taxes[i].(zohoId := None)
            <==> && (taxes[i].specificType.Some? ==> NormalType(taxes[i].specificType.value))
                 && "legacy_notes" !in taxes[i].appMetadata)
  {
    var back := CopiedDown(CopiedUp(taxes), render);
    forall i | i in taxes && Valid(taxes[i])
      ensures i in back && back[i] == CarryBack(Carry(taxes[i]), None, render)
    {
      assert i in CopiedUp(taxes);
    }
    forall i | i in back
      ensures back[i] == taxes[i].(zohoId := None)
         <==> && (taxes[i].specificType.Some? ==> NormalType(taxes[i].specificType.value))
              && "legacy_notes" !in taxes[i].appMetadata
    {
      RowRoundTripIff(taxes[i], None, render);
    }
  }

  /** A crosswalk row of tax `i`, under either table's name. */
  predicate RowOf(r: Crosswalk, i: int) {
    r.module_ == "taxes" && (Names(r, TAXES) || Names(r, COMPONENTS)) && r.entityId == Some(i)
  }

  predicate CrosswalkAgrees(rows: CrosswalkTable, zohoId: Option<string>, i: int) {
    && (forall k :: k in rows && RowOf(rows[k], i) ==> zohoId == Some(rows[k].externalId))
    && (zohoId.Some? ==> exists k :: k in rows && RowOf(rows[k], i))
  }

  lemma EchoesAfter(rows: CrosswalkTable, ids: set<int>, i: int, k: int)
    requires i in ids
    ensures var up := Follow(rows, TAXES, COMPONENTS, ids);
      k in up && Echoes(up[k], i) <==> k in rows && RowOf(rows[k], i)
    ensures k in rows && RowOf(rows[k], i) ==> Follow(rows, TAXES, COMPONENTS, ids)[k].externalId == rows[k].externalId
  {
    if k in rows {
      FollowKeeps(rows, TAXES, COMPONENTS, ids, k);
    }
  }

  /** The echo surely gives a tax its Zoho id back exactly when every crosswalk row of it carries that id. */
  lemma EchoRestoresIff(rows: CrosswalkTable, ids: set<int>, i: int, zohoId: Option<string>)
    requires i in ids
    ensures (forall z :: Echoed(None, z, Follow(rows, TAXES, COMPONENTS, ids), i) ==> z == zohoId)
       <==> CrosswalkAgrees(rows, zohoId, i)
  {
    var up := Follow(rows, TAXES, COMPONENTS, ids);
    forall k
      ensures k in up && Echoes(up[k], i) <==> k in rows && RowOf(rows[k], i)
      ensures k in rows && RowOf(rows[k], i) ==> up[k].externalId == rows[k].externalId
    {
      EchoesAfter(rows, ids, i, k);
    }
    if forall z :: Echoed(None, z, up, i) ==> z == zohoId {
      forall k | k in rows && RowOf(rows[k], i) ensures zohoId == Some(rows[k].externalId) {
        assert Echoed(None, Some(up[k].externalId), up, i);
      }
      if zohoId.Some? && !exists k :: k in rows && RowOf(rows[k], i) {
        assert Echoed(None, None, up, i);
      }
    }
  }

  /** What the way down may make of tax `i`. */
  ghost predicate TaxOutcome(components: map<int, Component>, records: CrosswalkTable, render: Rendering,
                             i: int, t: Tax)
  {
    var copied := CopiedDown(components, render);
    i in copied && t == copied[i].(zohoId := t.zohoId) && Echoed(None, t.zohoId, records, i)
  }

  /** The columns of a valid row and its crosswalk rows that bring it back. */
  predicate ComesBack(taxes: map<int, Tax>, records: CrosswalkTable, i: int)
    requires i in taxes
  {
    && (taxes[i].specificType.Some? ==> NormalType(taxes[i].specificType.value))
    && "legacy_notes" !in taxes[i].appMetadata
    && CrosswalkAgrees(records, taxes[i].zohoId, i)
  }

  /** Main result: up and down surely give a valid tax back, in every column, exactly under these conditions. */
  lemma TaxRoundTripIff(taxes: map<int, Tax>, records: CrosswalkTable, render: Rendering, i: int)
    requires i in taxes && Valid(taxes[i])
    ensures var components := CopiedUp(taxes);
      var after := Follow(records, TAXES, COMPONENTS, components.Keys);
      (forall t :: TaxOutcome(components, after, render, i, t) ==> t == taxes[i]) <==> ComesBack(taxes, records, i)
  {
    var components := CopiedUp(taxes);
    var after := Follow(records, TAXES, COMPONENTS, components.Keys);
    var copied := CopiedDown(components, render);
    assert i in components;
    TaxesRoundTrip(taxes, render);
    EchoRestoresIff(records, components.Keys, i, taxes[i].zohoId);
    EchoHappens(after, i);
    assert i in copied;
    hide CopiedUp, CopiedDown, Follow, Echoed, CrosswalkAgrees, NormalType, Valid;
    if forall t :: TaxOutcome(components, after, render, i, t) ==> t == taxes[i] {
      forall z | Echoed(None, z, after, i)
        ensures z == taxes[i].zohoId && copied[i].(zohoId := z) == taxes[i]
      {
        assert TaxOutcome(components, after, render, i, copied[i].(zohoId := z));
      }
      var z :| Echoed(None, z, after, i);
      assert copied[i].(zohoId := z) == taxes[i];
      assert copied[i] == taxes[i].(zohoId := None) by {
        CopiedWithoutEcho(components, render, i);
      }
    }
  }

  lemma CopiedWithoutEcho(components: map<int, Component>, render: Rendering, i: int)
    requires i in CopiedDown(components, render)
    ensures CopiedDown(components, render)[i].zohoId == None
  {
  }

  lemma EchoHappens(records: CrosswalkTable, i: int)
    ensures exists z :: Echoed(None, z, records, i)
  {
    if k :| k in records && Echoes(records[k], i) {
      assert Echoed(None, Some(records[k].externalId), records, i);
    } else {
      assert Echoed(None, None, records, i);
    }
  }

  // ---- the tables in columns ----

  /** The rows the way up carries: a name, a rate below a thousand percent and a leaf type. */
  predicate Carried(t: Tax) {
    && t.name.Some? && t.name.value != "" && t.rate.Some? && 0 <= t.rate.value < 10_000_000
    && (t.taxType == Some("tax") || t.taxType == Some("compound_tax"))
  }

  /**
   * A crosswalk table after its rows follow from table `from` to table `to`: a row of `from` goes if it names
   * no row in `ids`, and else names `to`; every other row stays as it is.
   */
  predicate Followed(before: CrosswalkTable, after: CrosswalkTable, from: string, to: string, ids: set<int>) {
    && (forall k :: k in after ==> k in before)
    && (forall k :: k in before && before[k].entityTable == Some(from) ==>
          && (k in after <==> before[k].entityId.Some? && before[k].entityId.value in ids)
          && (k in after ==> after[k] == before[k].(entityTable := Some(to))))
    && (forall k :: k in before && before[k].entityTable != Some(from) ==> k in after && after[k] == before[k])
  }

  lemma FollowMeans(rows: CrosswalkTable, from: string, to: string, ids: set<int>)
    ensures Followed(rows, Follow(rows, from, to, ids), from, to, ids)
  {
    forall k | k in rows ensures k in rows {
      FollowKeeps(rows, from, to, ids, k);
    }
  }

  /** The Zoho id of tax `i`: that of one of its crosswalk rows, if there is any. */
  ghost predicate IsEcho(records: CrosswalkTable, i: int, zohoId: Option<string>) {
    if exists k :: k in records && IsRecordOf(records[k], i)
    then exists k :: k in records && IsRecordOf(records[k], i) && zohoId == Some(records[k].externalId)
    else zohoId == None
  }

  predicate IsRecordOf(r: Crosswalk, i: int) {
    r.module_ == "taxes" && r.entityTable == Some("tax.tax_components") && r.entityId == Some(i)
  }

  lemma EchoMeans(records: CrosswalkTable, i: int, zohoId: Option<string>)
    requires Echoed(None, zohoId, records, i)
    ensures IsEcho(records, i, zohoId)
  {
    forall k | k in records ensures Echoes(records[k], i) <==> IsRecordOf(records[k], i) {
    }
    hide Echoes, IsRecordOf;
  }

  /** The components are those of the carried taxes. */
  ghost predicate ComponentsFor(taxes: map<int, Tax>, components: map<int, Component>) {
    forall i :: (i in components <==> i in taxes && Carried(taxes[i]))
                && (i in components ==> IsComponentFor(taxes[i], components[i]))
  }

  lemma CopiedUpMeans(taxes: map<int, Tax>)
    ensures ComponentsFor(taxes, CopiedUp(taxes))
  {
    forall i | i in CopiedUp(taxes) ensures IsComponentFor(taxes[i], CopiedUp(taxes)[i]) {
      ComponentValues(taxes[i]);
    }
    hide IsComponentFor;
  }

  /** The taxes are those of the components that are no groups. */
  ghost predicate TaxesFor(components: map<int, Component>, records: CrosswalkTable, taxes: map<int, Tax>,
                           render: Rendering)
  {
    forall i ::
      && (i in taxes <==> i in components && components[i].taxType in {"tax", "compound_tax"})
      && (i in taxes ==> IsTaxFor(components[i], taxes[i], render) && IsEcho(records, i, taxes[i].zohoId))
  }

  lemma EchoedOutcomes(components: map<int, Component>, records: CrosswalkTable, echoed: map<int, Tax>,
                       render: Rendering)
    requires var copied := CopiedDown(components, render);
      && echoed.Keys == copied.Keys && (forall i :: i in copied ==> echoed[i] == copied[i].(zohoId := echoed[i].zohoId))
      && forall i :: i in copied ==> Echoed(copied[i].zohoId, echoed[i].zohoId, records, i)
    ensures forall i :: i in echoed ==> TaxOutcome(components, records, render, i, echoed[i])
    ensures TaxesFor(components, records, echoed, render)
  {
    forall i | i in echoed ensures TaxOutcome(components, records, render, i, echoed[i]) {
      assert i in CopiedDown(components, render);
      CopiedWithoutEcho(components, render, i);
    }
    OutcomeMeans(components, records, echoed, render);
  }

  lemma OutcomeMeans(components: map<int, Component>, records: CrosswalkTable, taxes: map<int, Tax>, render: Rendering)
    requires taxes.Keys == CopiedDown(components, render).Keys
    requires forall i :: i in taxes ==> TaxOutcome(components, records, render, i, taxes[i])
    ensures TaxesFor(components, records, taxes, render)
  {
    forall i | i in taxes
      ensures IsTaxFor(components[i], taxes[i], render) && IsEcho(records, i, taxes[i].zohoId)
    {
      assert TaxOutcome(components, records, render, i, taxes[i]);
      TaxValues(components[i], None, render);
      EchoMeans(records, i, taxes[i].zohoId);
    }
    assert forall i :: i in taxes <==> i in CopiedDown(components, render);
    hide IsTaxFor, IsEcho, TaxOutcome;
  }

  class TaxTables {
    var taxes: map<int, Tax>
    var components: map<int, Component>
    var records: CrosswalkTable
    var payloads: CrosswalkTable
    var nextTax: Sequence
    var nextComponent: Sequence

    constructor (taxes: map<int, Tax>, records: CrosswalkTable, payloads: CrosswalkTable)
      ensures this.taxes == taxes && this.records == records && this.payloads == payloads
      ensures components == map[]
    {
      this.taxes, this.records, this.payloads := taxes, records, payloads;
      components := map[];
      nextTax, nextComponent := Sequence(1, false), Sequence(1, false);
    }

    method Upgrade()
      requires components == map[]
      modifies this
      ensures taxes == map[] && components == CopiedUp(old(taxes))
      ensures records == Follow(old(records), TAXES, COMPONENTS, components.Keys)
      ensures payloads == Follow(old(payloads), TAXES, COMPONENTS, components.Keys)
      ensures forall i :: i in components ==> MeetsChecks(components[i])
      ensures nextComponent.Next() >= 1 && forall i :: i in components ==> i < nextComponent.Next()
      ensures ComponentsFor(old(taxes), components) && SetTo(nextComponent, components.Keys)
      ensures Followed(old(records), records, "tax.taxes", "tax.tax_components", components.Keys)
      ensures Followed(old(payloads), payloads, "tax.taxes", "tax.tax_components", components.Keys)
    {
      hide ComponentsFor, Followed, SetTo, Resolves, Names, MeetsChecks;
      CopiedUpMeans(taxes);
      FollowMeans(records, TAXES, COMPONENTS, CopiedUp(taxes).Keys);
      FollowMeans(payloads, TAXES, COMPONENTS, CopiedUp(taxes).Keys);
      components := CopiedUp(taxes);
      forall i | i in components ensures MeetsChecks(components[i]) {
        CarriedRowsMeetChecks(taxes[i]);
      }
      nextComponent := ResetSequence(components.Keys);
      NextIdIsFree(components.Keys, nextComponent);
      records := DropDangling(records, TAXES, components.Keys);
      records := Repoint(records, TAXES, COMPONENTS);
      payloads := DropDangling(payloads, TAXES, components.Keys);
      payloads := Repoint(payloads, TAXES, COMPONENTS);
      taxes := map[];
    }

    method Downgrade(render: Rendering)
      requires taxes == map[]
      modifies this
      ensures components == map[]
      ensures taxes.Keys == CopiedDown(old(components), render).Keys
      ensures forall i :: i in taxes ==> TaxOutcome(old(components), old(records), render, i, taxes[i])
      ensures records == Follow(old(records), COMPONENTS, TAXES, taxes.Keys)
      ensures payloads == Follow(old(payloads), COMPONENTS, TAXES, taxes.Keys)
      ensures nextTax.Next() >= 1 && forall i :: i in taxes ==> i < nextTax.Next()
      ensures TaxesFor(old(components), old(records), taxes, render) && SetTo(nextTax, taxes.Keys)
      ensures Followed(old(records), records, "tax.tax_components", "tax.taxes", taxes.Keys)
      ensures Followed(old(payloads), payloads, "tax.tax_components", "tax.taxes", taxes.Keys)
    {
      hide TaxesFor, TaxOutcome, Followed, SetTo, Echoed, CopiedDown, DropDangling, Repoint;
      FollowMeans(records, COMPONENTS, TAXES, CopiedDown(components, render).Keys);
      FollowMeans(payloads, COMPONENTS, TAXES, CopiedDown(components, render).Keys);
      taxes := CopiedDown(components, render);
      nextTax := ResetSequence(taxes.Keys);
      NextIdIsFree(taxes.Keys, nextTax);
      taxes := EchoZohoIds(taxes, records);
      EchoedOutcomes(components, records, taxes, render);
      records := DropDangling(records, COMPONENTS, taxes.Keys);
      records := Repoint(records, COMPONENTS, TAXES);
      payloads := DropDangling(payloads, COMPONENTS, taxes.Keys);
      payloads := Repoint(payloads, COMPONENTS, TAXES);
      components := map[];
    }

    /** Up and straight down: the valid rows are there again, and those that come back are unchanged. */
    method UpThenDown(render: Rendering)
      requires components == map[]
      modifies this
      ensures taxes.Keys == set i | i in old(taxes) && Valid(old(taxes)[i])
      ensures forall i :: i in taxes && ComesBack(old(taxes), old(records), i) ==> taxes[i] == old(taxes)[i]
    {
      Upgrade();
      ghost var carried, moved := components, records;
      Downgrade(render);
      TaxesRoundTrip(old(taxes), render);
      forall i | i in taxes && ComesBack(old(taxes), old(records), i) ensures taxes[i] == old(taxes)[i] {
        TaxRoundTripIff(old(taxes), old(records), render, i);
        assert TaxOutcome(carried, moved, render, i, taxes[i]);
      }
    }
  }
}
