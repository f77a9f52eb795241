/** Exchange rates get a source in their uniqueness key, and lose it again on the way down. */
module ExchangeRates {
  import opened Basics

  /** A row of `currency.exchange_rates`; dates are ordinals. */
  datatype Rate = Rate(
    tenant: int, currency: int, date: int, source: Option<string>, value: real, deleted: bool,
    externalSource: Option<string>, externalId: Option<string>)

  type Rates = map<int, Rate>

  const MANUAL := "manual"

  /** Two live rates for one tenant, currency and date: the old key. */
  predicate SameDay(a: Rate, b: Rate) {
    !a.deleted && !b.deleted && a.tenant == b.tenant && a.currency == b.currency && a.date == b.date
  }

  /** The new key; as in any unique index, missing sources differ from each other. */
  predicate SameQuote(a: Rate, b: Rate) {
    SameDay(a, b) && a.source.Some? && a.source == b.source
  }

  predicate OnePerDay(rates: Rates) {
    forall i, j :: i in rates && j in rates && SameDay(rates[i], rates[j]) ==> i == j
  }

  predicate OnePerQuote(rates: Rates) {
    forall i, j :: i in rates && j in rates && SameQuote(rates[i], rates[j]) ==> i == j
  }

  predicate AllSourced(rates: Rates) {
    forall i :: i in rates ==> rates[i].source.Some?
  }

  /** `UPDATE ... SET rate_source = 'manual' WHERE rate_source IS NULL` */
  function Backfill(rates: Rates): Rates {
    map i | i in rates :: if rates[i].source.None? then rates[i].(source := Some(MANUAL)) else rates[i]
  }

  /** Row `i` gives way to a live row of the same day with a greater id. */
  predicate Superseded(rates: Rates, i: int)
    requires i in rates
  {
    exists j :: j in rates && i < j && SameDay(rates[i], rates[j])
  }

  /** The self-join DELETE. */
  function Narrow(rates: Rates): Rates {
    map i | i in rates && !Superseded(rates, i) :: rates[i]
  }

  function DropExternal(rates: Rates): Rates {
    map i | i in rates :: rates[i].(externalSource := None, externalId := None)
  }

  /** The old key allows at most what the new one does, so the new index can be built on the backfilled rows. */
  lemma BackfillMeetsNewKey(rates: Rates)
    requires OnePerDay(rates)
    ensures OnePerDay(Backfill(rates)) && OnePerQuote(Backfill(rates)) && AllSourced(Backfill(rates))
  {
    var filled := Backfill(rates);
    forall i, j | i in filled && j in filled && SameDay(filled[i], filled[j]) ensures i == j {
      assert SameDay(rates[i], rates[j]);
    }
  }

  /** Without the backfill the new index would let two unsourced rates of one day in. */
  lemma MissingSourcesDefeatTheKey()
    ensures var r := Rate(1, 2, 3, None, 1.0, false, None, None);
      var rates := map[10 := r, 11 := r];
      OnePerQuote(rates) && !OnePerDay(rates)
  {
    var r := Rate(1, 2, 3, None, 1.0, false, None, None);
    var rates := map[10 := r, 11 := r];
    assert SameDay(rates[10], rates[11]);
  }

  /** Among the rows of one day there is one with the greatest id. */
  lemma {:induction false} GreatestOfDay(rates: Rates, i: int) returns (k: int)
    requires i in rates && !rates[i].deleted
    ensures k in rates && SameDay(rates[i], rates[k]) && i <= k && !Superseded(rates, k)
    decreases set j | j in rates && i < j
  {
    k := i;
    if Superseded(rates, i) {
      var j :| j in rates && i < j && SameDay(rates[i], rates[j]);
      var above, higher := set x | x in rates && i < x, set x | x in rates && j < x;
      assert j in above && j !in higher && higher <= above;
      k := GreatestOfDay(rates, j);
    }
  }

  /**
   * Main result: a live row stays exactly when it has the greatest id of its day; deleted rows stay; no day
   * is lost.
   */
  lemma NarrowKeepsNewest(rates: Rates)
    ensures OnePerDay(Narrow(rates))
    ensures forall i :: i in Narrow(rates) ==> i in rates && Narrow(rates)[i] == rates[i]
    ensures forall i :: i in rates ==>
      (i in Narrow(rates) <==> rates[i].deleted || forall j :: j in rates && SameDay(rates[i], rates[j]) ==> j <= i)
    ensures forall i :: i in rates && !rates[i].deleted
                        ==> exists k :: k in Narrow(rates) && SameDay(rates[i], rates[k])
  {
    forall i | i in rates && !rates[i].deleted ensures exists k :: k in Narrow(rates) && SameDay(rates[i], rates[k]) {
      var k := GreatestOfDay(rates, i);
      assert k in Narrow(rates);
    }
    var kept := Narrow(rates);
    forall i, j | i in kept && j in kept && SameDay(kept[i], kept[j]) ensures i == j {
      assert SameDay(kept[j], kept[i]) && !Superseded(rates, i) && !Superseded(rates, j);
    }
  }

  /** Narrowing deletes nothing exactly when the old key already held. */
  lemma NarrowDeletesNothingIff(rates: Rates)
    ensures Narrow(rates) == rates <==> OnePerDay(rates)
  {
    NarrowKeepsNewest(rates);
    if OnePerDay(rates) {
      forall i | i in rates ensures i in Narrow(rates) {
        assert !Superseded(rates, i);
      }
    }
  }

  /** Main result: up and down again deletes no row, and changes none exactly when every rate had a source. */
  lemma UpDownIff(rates: Rates)
    requires OnePerDay(rates)
    requires forall i :: i in rates ==> rates[i].externalSource == None && rates[i].externalId == None
    ensures var back := DropExternal(Narrow(Backfill(rates)));
      back.Keys == rates.Keys && (back == rates <==> AllSourced(rates))
  {
    var filled := Backfill(rates);
    BackfillMeetsNewKey(rates);
    NarrowDeletesNothingIff(filled);
    var back := DropExternal(filled);
    assert forall i :: i in rates ==> i in back && back[i] == filled[i];
    if AllSourced(rates) {
      assert back == rates;
    }
    if back == rates {
      assert forall i :: i in rates ==> back[i].source.Some?;
    }
  }

  /** A rate without a source comes back as a manual one. */
  lemma MissingSourceComesBackManual()
    ensures var rates := map[10 := Rate(1, 2, 3, None, 1.0, false, None, None)];
      var back := DropExternal(Narrow(Backfill(rates)));
      OnePerDay(rates) && back != rates && 10 in back && back[10].source == Some(MANUAL)
  {
    var rates := map[10 := Rate(1, 2, 3, None, 1.0, false, None, None)];
    UpDownIff(rates);
    assert rates[10].source.None?;
    NarrowDeletesNothingIff(Backfill(rates));
    BackfillMeetsNewKey(rates);
  }

  /** No live rate of the same tenant, currency and date has a greater id. */
  predicate NewestOfDay(rates: Rates, i: int)
    requires i in rates
  {
    forall j :: j in rates && j > i ==>
      rates[j].deleted || rates[j].tenant != rates[i].tenant || rates[j].currency != rates[i].currency
      || rates[j].date != rates[i].date
  }

  lemma KeptIff(rates: Rates, i: int)
    requires i in rates
    ensures i in Narrow(rates) <==> rates[i].deleted || NewestOfDay(rates, i)
  {
  }

  class RateTable {
    var rates: Rates

    constructor (rates: Rates)
      ensures this.rates == rates
    {
      this.rates := rates;
    }

    method Upgrade()
      requires OnePerDay(rates)
      modifies this
      ensures rates == Backfill(old(rates))
      ensures rates.Keys == old(rates).Keys && forall i :: i in rates ==>
        rates[i] == if old(rates)[i].source == None then old(rates)[i].(source := Some("manual")) else old(rates)[i]
      ensures OnePerQuote(rates) && AllSourced(rates)
    {
      rates := Backfill(rates);
      BackfillMeetsNewKey(old(rates));
    }

    /** Whatever was inserted meanwhile, the old index can be built. */
    method Downgrade()
      modifies this
      ensures rates == DropExternal(Narrow(old(rates)))
      ensures forall i :: i in rates <==> i in old(rates) && (old(rates)[i].deleted || NewestOfDay(old(rates), i))
      ensures forall i :: i in rates ==> rates[i] == old(rates)[i].(externalSource := None, externalId := None)
      ensures OnePerDay(rates)
    {
      forall i | i in rates {
        KeptIff(rates, i);
      }
      rates := Narrow(rates);
      NarrowKeepsNewest(old(rates));
      rates := DropExternal(rates);
      forall i, j | i in rates && j in rates && SameDay(rates[i], rates[j]) ensures i == j {
        assert SameDay(Narrow(old(rates))[i], Narrow(old(rates))[j]);
      }
    }
  }
}
