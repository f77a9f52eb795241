/**
 * `organizations.currency_id` is repointed from one currency table to another through the currency code,
 * and cleared where that fails. The way down is the same with the tables exchanged.
 */
module CurrencyLinks {
  import opened Basics
  import opened Statements

  /** A row of `zoho_currencies` or of `currency.currencies`. */
  datatype Currency = Currency(tenant: int, code: Option<string>, deleted: bool)

  type Currencies = map<int, Currency>

  /** Row `b` of the new table is a live currency with the tenant and code of row `a` of the old one. */
  predicate Matches(source: Currencies, target: Currencies, a: int, b: int) {
    && a in source && b in target && !target[b].deleted
    && target[b].tenant == source[a].tenant && target[b].code == source[a].code && source[a].code.Some?
  }

  predicate Translatable(source: Currencies, target: Currencies, link: Option<int>) {
    link.Some? && exists b :: b in target && Matches(source, target, link.value, b)
  }

  /** What the first UPDATE may leave in a link; several matches leave it to chance. */
  predicate Translated(source: Currencies, target: Currencies, link: Option<int>, next: Option<int>) {
    if Translatable(source, target, link) then next.Some? && Matches(source, target, link.value, next.value)
    else next == link
  }

  /** What the second UPDATE makes of a link. */
  function Cleared(target: Currencies, link: Option<int>): Option<int> {
    if link.Some? && link.value !in target then None else link
  }

  /** What both statements may leave in a link. */
  ghost predicate Outcome(source: Currencies, target: Currencies, link: Option<int>, last: Option<int>) {
    exists next :: Translated(source, target, link, next) && last == Cleared(target, next)
  }

  /** A row of the old table whose currency is not in the new one, but whose id is. */
  predicate Collides(source: Currencies, target: Currencies, link: Option<int>) {
    link.Some? && link.value in target && !Translatable(source, target, link)
  }

  /** The link the migration promises: the same currency, or none. */
  predicate Faithful(source: Currencies, target: Currencies, link: Option<int>, last: Option<int>) {
    if Translatable(source, target, link) then last.Some? && Matches(source, target, link.value, last.value)
    else last == None
  }

  /** The new foreign key holds, whatever the tables hold. */
  lemma ForeignKeyHolds(source: Currencies, target: Currencies, link: Option<int>, last: Option<int>)
    requires Outcome(source, target, link, last)
    ensures last.Some? ==> last.value in target
  {
  }

  /** Main result: a link ends as promised exactly when it is not taken for a row of the new table by its id. */
  lemma FaithfulIff(source: Currencies, target: Currencies, link: Option<int>, last: Option<int>)
    requires Outcome(source, target, link, last)
    ensures Faithful(source, target, link, last) <==> !Collides(source, target, link)
  {
  }

  /** A colliding link is kept and then points at a currency of another tenant or code, or a deleted one. */
  lemma CollisionIsBelieved(source: Currencies, target: Currencies, link: Option<int>, last: Option<int>)
    requires Outcome(source, target, link, last) && Collides(source, target, link)
    ensures last == link && !Matches(source, target, link.value, last.value)
  {
  }

  /** Mirror row 1 is a euro that tenant 7 has no canonical currency for; canonical row 1 is another tenant's yen. */
  lemma WrongCurrency()
    ensures var mirror := map[1 := Currency(7, Some("EUR"), false)];
      var canonical := map[1 := Currency(8, Some("JPY"), false)];
      Outcome(mirror, canonical, Some(1), Some(1)) && !Faithful(mirror, canonical, Some(1), Some(1))
  {
    var mirror, canonical := map[1 := Currency(7, Some("EUR"), false)], map[1 := Currency(8, Some("JPY"), false)];
    assert !Matches(mirror, canonical, 1, 1);
    assert Translated(mirror, canonical, Some(1), Some(1));
    assert Outcome(mirror, canonical, Some(1), Some(1));
  }

  predicate SameLiveCode(a: Currency, b: Currency) {
    !a.deleted && !b.deleted && a.tenant == b.tenant && a.code == b.code && a.code.Some?
  }

  /** One live currency per tenant and code: the canonical table's unique index. */
  predicate UniqueCodes(target: Currencies) {
    forall a, b :: a in target && b in target && SameLiveCode(target[a], target[b]) ==> a == b
  }

  /** On the way up the outcome is determined. */
  lemma OneOutcome(source: Currencies, target: Currencies, link: Option<int>, a: Option<int>, b: Option<int>)
    requires UniqueCodes(target)
    requires Outcome(source, target, link, a) && Outcome(source, target, link, b)
    ensures a == b
  {
    var p :| Translated(source, target, link, p) && a == Cleared(target, p);
    var q :| Translated(source, target, link, q) && b == Cleared(target, q);
    if Translatable(source, target, link) {
      assert p.value == q.value;
    }
  }

  /** `z` is the only live mirror row with canonical row `c`'s tenant and code. */
  predicate SoleMatch(canonical: Currencies, mirror: Currencies, c: int, z: int) {
    Matches(canonical, mirror, c, z) && forall y :: y in mirror && Matches(canonical, mirror, c, y) ==> y == z
  }

  /**
   * Main result: a link translated to `c` on the way up surely comes back on the way down exactly when
   * its mirror row is the only live one of its currency, or none is and both rows have one id.
   */
  lemma LinkRoundTripIff(mirror: Currencies, canonical: Currencies, z: int, c: int)
    requires Matches(mirror, canonical, z, c)
    ensures (forall back :: Outcome(canonical, mirror, Some(c), back) ==> back == Some(z))
       <==> || SoleMatch(canonical, mirror, c, z)
            || (c == z && !Translatable(canonical, mirror, Some(c)))
  {
    if forall back :: Outcome(canonical, mirror, Some(c), back) ==> back == Some(z) {
      if Translatable(canonical, mirror, Some(c)) {
        forall y | y in mirror && Matches(canonical, mirror, c, y) ensures y == z {
          assert Translated(canonical, mirror, Some(c), Some(y));
          assert Cleared(mirror, Some(y)) == Some(y);
          assert Outcome(canonical, mirror, Some(c), Some(y));
        }
      } else {
        assert Translated(canonical, mirror, Some(c), Some(c));
        assert Outcome(canonical, mirror, Some(c), Cleared(mirror, Some(c)));
      }
    }
  }

  /** Row `b` is a live currency of row `a`'s tenant and code. */
  predicate SameCurrency(a: Currency, b: Currency) {
    !b.deleted && b.tenant == a.tenant && a.code.Some? && b.code == a.code
  }

  /**
   * A link goes to a row with the same currency if there is one; without, it stays if the new table has a row
   * of that id, whatever that row is, and is cleared otherwise.
   */
  ghost predicate Repointed(source: Currencies, target: Currencies, link: Option<int>, last: Option<int>) {
    if link.Some? && link.value in source && exists b :: b in target && SameCurrency(source[link.value], target[b])
    then last.Some? && last.value in target && SameCurrency(source[link.value], target[last.value])
    else last == if link.Some? && link.value in target then link else None
  }

  lemma OutcomeMeans(source: Currencies, target: Currencies, link: Option<int>, last: Option<int>)
    ensures Outcome(source, target, link, last) <==> Repointed(source, target, link, last)
  {
    if link.Some? {
      forall b | b in target
        ensures Matches(source, target, link.value, b)
           <==> link.value in source && SameCurrency(source[link.value], target[b])
      {
      }
    }
    if Repointed(source, target, link, last) {
      var next := if Translatable(source, target, link) then last else link;
      assert Translated(source, target, link, next) && last == Cleared(target, next);
    }
  }

  /** `organizations.currency_id`, by organization. */
  class Organizations {
    var currency: map<int, Option<int>>

    constructor (currency: map<int, Option<int>>)
      ensures this.currency == currency
    {
      this.currency := currency;
    }

    /** `UPDATE ... SET currency_id = c.id FROM old JOIN new`: with several matches, any one. */
    method Translate(source: Currencies, target: Currencies)
      modifies this
      ensures currency.Keys == old(currency).Keys
      ensures forall o :: o in currency ==> Translated(source, target, old(currency)[o], currency[o])
    {
      ghost var before := currency;
      var rest := currency.Keys;
      while rest != {}
        invariant rest <= currency.Keys && currency.Keys == before.Keys
        invariant forall o :: o in rest ==> currency[o] == before[o]
        invariant forall o :: o in currency && o !in rest ==> Translated(source, target, before[o], currency[o])
        decreases rest
      {
        var o := PickOne(rest);
        if currency[o].Some? {
          var link := currency[o].value;
          var matches := set b | b in target && Matches(source, target, link, b);
          if matches != {} {
            var b := PickOne(matches);
            currency := currency[o := Some(b)];
          } else {
            assert forall b :: b in target && Matches(source, target, link, b) ==> b in matches;
          }
        }
        rest := rest - {o};
      }
    }

    /** Links to rows of the new table stay, every other link is cleared. */
    method Clear(target: Currencies)
      modifies this
      ensures currency.Keys == old(currency).Keys
      ensures forall o :: o in currency ==>
        if old(currency)[o].Some? && old(currency)[o].value in target then currency[o] == old(currency)[o]
        else currency[o] == None
    {
      currency := map o | o in currency :: Cleared(target, currency[o]);
    }

    /** Either direction of the migration. */
    method Repoint(source: Currencies, target: Currencies)
      modifies this
      ensures currency.Keys == old(currency).Keys
      ensures forall o :: o in currency ==> Outcome(source, target, old(currency)[o], currency[o])
      ensures forall o :: o in currency ==> Repointed(source, target, old(currency)[o], currency[o])
      ensures forall o :: o in currency && currency[o].Some? ==> currency[o].value in target
      ensures (forall o :: o in currency ==> Faithful(source, target, old(currency)[o], currency[o]))
         <==> (forall o :: o in currency ==> !Collides(source, target, old(currency)[o]))
    {
      Translate(source, target);
      Clear(target);
      forall o | o in currency
        ensures Outcome(source, target, old(currency)[o], currency[o])
        ensures Repointed(source, target, old(currency)[o], currency[o])
        ensures Faithful(source, target, old(currency)[o], currency[o]) <==> !Collides(source, target, old(currency)[o])
      {
        FaithfulIff(source, target, old(currency)[o], currency[o]);
        OutcomeMeans(source, target, old(currency)[o], currency[o]);
      }
    }
  }
}
