/**
 * Taxes move from `tax.taxes` to `tax.tax_components` and back; their crosswalk rows follow.
 * Columns copied one for one, other than those named here, are left out.
 */
module Taxes {
  import opened Basics
  import opened Json
  import opened OwnerNames

  /** A row of the old table; a rate counts ten-thousandths, as NUMERIC(9,4) stores it. */
  datatype Tax = Tax(
    uuid: string, tenant: int, name: Option<string>, rate: Option<int>, taxType: Option<string>,
    specificType: Option<string>, notes: Option<string>, zohoId: Option<string>, appMetadata: Object)

  /** A row of the new table. */
  datatype Component = Component(
    uuid: string, tenant: int, name: string, rate: int, taxType: string, specificType: Option<string>,
    appMetadata: Object)

  // ---- one row ----

  predicate LeafType(s: string) {
    s == "tax" || s == "compound_tax"
  }

  /** `_VALID_OLD_ROW` */
  predicate Valid(t: Tax) {
    && t.name.Some? && t.name.value != ""
    && t.rate.Some? && 0 <= t.rate.value < 1000 * 10_000
    && t.taxType.Some? && LeafType(t.taxType.value)
  }

  /** The new table's column types and CHECKs; NUMERIC(7,4) holds seven digits, four after the point. */
  predicate MeetsChecks(c: Component) {
    && -10_000_000 < c.rate < 10_000_000 && c.rate >= 0
    && (LeafType(c.taxType) || c.taxType == "tax_group")
    && (c.taxType == "tax_group" ==> c.specificType == None)
  }

  /** `btrim` */
  function Trim(s: string): (t: string)
    ensures t != "" ==> t[0] != ' ' && t[|t| - 1] != ' '
    ensures s != "" && s[0] != ' ' && s[|s| - 1] != ' ' ==> t == s
  {
    if s == "" then ""
    else if s[0] == ' ' then Trim(s[1..])
    else if s[|s| - 1] == ' ' then Trim(s[..|s| - 1])
    else s
  }

  /** The kind without padding or case; the generic `tax` says nothing. */
  function SpecificType(s: Option<string>): Option<string> {
    if s == None then None
    else
      var t := Lower(Trim(s.value));
      if t == "" || t == "tax" then None else Some(t)
  }

  function Carry(t: Tax): Component
    requires Valid(t)
  {
    Component(t.uuid, t.tenant, t.name.value, t.rate.value, t.taxType.value, SpecificType(t.specificType),
              if t.notes == None then t.appMetadata else t.appMetadata["legacy_notes" := JString(t.notes.value)])
  }

  /** The row the downgrade inserts and fills: notes from the metadata, the Zoho echo from the crosswalk. */
  function CarryBack(c: Component, zohoId: Option<string>, render: Rendering): Tax {
    Tax(c.uuid, c.tenant, Some(c.name), Some(c.rate), Some(c.taxType), c.specificType,
        GetText(Some(JObject(c.appMetadata)), "legacy_notes", render), zohoId, c.appMetadata - {"legacy_notes"})
  }

  lemma CarriedRowsMeetChecks(t: Tax)
    requires Valid(t)
    ensures MeetsChecks(Carry(t))
  {
  }

  /** A kind that is stored as it is. */
  predicate NormalType(s: string) {
    && s != "" && s != "tax" && s[0] != ' ' && s[|s| - 1] != ' '
    && forall i :: 0 <= i < |s| ==> !IsUpper(s[i])
  }

  lemma SpecificTypeNormal(s: Option<string>)
    ensures SpecificType(s).Some? ==> NormalType(SpecificType(s).value)
    ensures SpecificType(s) == s <==> (s.Some? ==> NormalType(s.value))
    ensures SpecificType(SpecificType(s)) == SpecificType(s)
  {
    if s.Some? {
      LowerKeepsEnds(Trim(s.value));
      if NormalType(s.value) {
        assert Lower(s.value) == s.value;
      }
      var n := SpecificType(s);
      if n.Some? {
        assert Lower(n.value) == n.value;
      }
    }
  }

  lemma LowerKeepsEnds(s: string)
    ensures s != "" && s[0] != ' ' && s[|s| - 1] != ' ' ==> Lower(s)[0] != ' ' && Lower(s)[|s| - 1] != ' '
    ensures forall i :: 0 <= i < |s| ==> !IsUpper(Lower(s)[i])
  {
  }

  // ---- the same in columns ----

  predicate Blank(s: string) {
    forall i :: 0 <= i < |s| ==> s[i] == ' '
  }

  /** `core` is what is left of `s` without the blanks around it. */
  predicate PaddedTo(s: string, before: string, core: string, after: string) {
    && s == before + core + after && Blank(before) && Blank(after)
    && (core != "" ==> core[0] != ' ' && core[|core| - 1] != ' ')
  }

  lemma {:induction false} TrimPadded(before: string, core: string, after: string)
    requires PaddedTo(before + core + after, before, core, after)
    ensures Trim(before + core + after) == core
    decreases |before| + |after|
  {
    var s := before + core + after;
    if before != "" {
      assert s[0] == ' ' && s[1..] == before[1..] + core + after;
      TrimPadded(before[1..], core, after);
    } else if after != "" && core == "" {
      assert s[0] == ' ' && s[1..] == "" + core + after[1..];
      TrimPadded("", core, after[1..]);
    } else if after != "" {
      assert s[0] == core[0] && s[|s| - 1] == ' ' && s[..|s| - 1] == "" + core + after[..|after| - 1];
      TrimPadded("", core, after[..|after| - 1]);
      hide PaddedTo;
    } else {
      assert s == core;
    }
  }

  lemma {:induction false} TrimLeaves(s: string) returns (before: string, after: string)
    ensures PaddedTo(s, before, Trim(s), after)
    decreases |s|
  {
    before, after := "", "";
    if s != "" && s[0] == ' ' {
      before, after := TrimLeaves(s[1..]);
      assert Trim(s) == Trim(s[1..]);
      PadFront(s[1..], before, Trim(s), after);
      assert s == " " + s[1..];
      before := " " + before;
    } else if s != "" && s[|s| - 1] == ' ' {
      before, after := TrimLeaves(s[..|s| - 1]);
      assert Trim(s) == Trim(s[..|s| - 1]);
      PadBack(s[..|s| - 1], before, Trim(s), after);
      assert s == s[..|s| - 1] + " ";
      after := after + " ";
    } else {
      assert s == "" + s + "";
    }
  }

  lemma PadFront(s: string, before: string, core: string, after: string)
    requires PaddedTo(s, before, core, after)
    ensures PaddedTo(" " + s, " " + before, core, after)
  {
    assert " " + s == " " + before + core + after;
  }

  lemma PadBack(s: string, before: string, core: string, after: string)
    requires PaddedTo(s, before, core, after)
    ensures PaddedTo(s + " ", before, core, after + " ")
  {
    assert s + " " == before + core + (after + " ");
  }

  predicate IsTaxWord(s: string) {
    |s| == 3 && ToLower(s[0]) == 't' && ToLower(s[1]) == 'a' && ToLower(s[2]) == 'x'
  }

  /** Main result: the kind stored for a padded text is its core in lower case, none for an empty core or `tax`. */
  lemma SpecificTypeOf(before: string, core: string, after: string)
    requires PaddedTo(before + core + after, before, core, after)
    ensures SpecificType(Some(before + core + after))
         == if core == "" || IsTaxWord(core) then None else Some(Lower(core))
  {
    TrimPadded(before, core, after);
    assert Lower(core) == "" <==> core == "";
    if Lower(core) == "tax" {
      assert Lower(core)[0] == 't' && Lower(core)[1] == 'a' && Lower(core)[2] == 'x';
    }
    assert IsTaxWord(core) ==> Lower(core) == "tax";
  }

  /** The kind stored for a legacy one: in lower case, without the blanks around it; none for a generic one. */
  ghost predicate IsKindFor(legacy: Option<string>, kind: Option<string>) {
    if legacy == None then kind == None
    else exists before, core, after :: PaddedTo(legacy.value, before, core, after)
           && kind == if core == "" || IsTaxWord(core) then None else Some(Lower(core))
  }

  lemma KindValue(legacy: Option<string>)
    ensures IsKindFor(legacy, SpecificType(legacy))
  {
    if legacy.Some? {
      var before, after := TrimLeaves(legacy.value);
      SpecificTypeOf(before, Trim(legacy.value), after);
    }
  }

  /** The new row of an old one. */
  ghost predicate IsComponentFor(t: Tax, c: Component) {
    && c.uuid == t.uuid && c.tenant == t.tenant && Some(c.name) == t.name && Some(c.rate) == t.rate
    && Some(c.taxType) == t.taxType && IsKindFor(t.specificType, c.specificType)
    && c.appMetadata - {"legacy_notes"} == t.appMetadata - {"legacy_notes"}
    && Get(Some(JObject(c.appMetadata)), "legacy_notes")
       == if t.notes.Some? then Some(JString(t.notes.value)) else Get(Some(JObject(t.appMetadata)), "legacy_notes")
  }

  lemma ComponentValues(t: Tax)
    requires Valid(t)
    ensures IsComponentFor(t, Carry(t))
  {
    KindValue(t.specificType);
    hide IsKindFor, SpecificType;
  }

  /** The old row of a new one, its Zoho id apart. */
  predicate IsTaxFor(c: Component, t: Tax, render: Rendering) {
    && t.uuid == c.uuid && t.tenant == c.tenant && t.name == Some(c.name) && t.rate == Some(c.rate)
    && t.taxType == Some(c.taxType) && t.specificType == c.specificType
    && t.notes == GetText(Some(JObject(c.appMetadata)), "legacy_notes", render)
    && t.appMetadata == c.appMetadata - {"legacy_notes"}
  }

  lemma TaxValues(c: Component, zohoId: Option<string>, render: Rendering)
    ensures IsTaxFor(c, CarryBack(c, zohoId, render), render) && CarryBack(c, zohoId, render).zohoId == zohoId
  {
  }

  /** Notes come back unless the row had none and its metadata already held some under the key. */
  predicate NotesSurvive(t: Tax, render: Rendering) {
    t.notes.Some? || GetText(Some(JObject(t.appMetadata)), "legacy_notes", render) == None
  }

  /** Main result for one row: everything but the Zoho echo comes back exactly when three columns are in order. */
  lemma RowRoundTripIff(t: Tax, zohoId: Option<string>, render: Rendering)
    requires Valid(t)
    ensures CarryBack(Carry(t), zohoId, render) == t.(zohoId := zohoId)
       <==> && (t.specificType.Some? ==> NormalType(t.specificType.value))
            && "legacy_notes" !in t.appMetadata
  {
    var back := CarryBack(Carry(t), zohoId, render);
    SpecificTypeNormal(t.specificType);
    assert back.appMetadata == t.appMetadata - {"legacy_notes"};
    if "legacy_notes" !in t.appMetadata {
      assert back.appMetadata == t.appMetadata;
    }
  }

  lemma NotesRoundTripIff(t: Tax, zohoId: Option<string>, render: Rendering)
    requires Valid(t)
    ensures CarryBack(Carry(t), zohoId, render).notes == t.notes <==> NotesSurvive(t, render)
  {
  }

  /** Going down and up again keeps a carried row, its metadata aside if the key was not text. */
  lemma CarriedIsNormal(t: Tax, zohoId: Option<string>, render: Rendering)
    requires Valid(t)
    ensures var c := Carry(t);
      var back := CarryBack(c, zohoId, render);
      && Valid(back)
      && Carry(back).(appMetadata := map[]) == c.(appMetadata := map[])
      && (Carry(back) == c <==> Get(Some(JObject(c.appMetadata)), "legacy_notes").Some?
                                ==> c.appMetadata["legacy_notes"].JString?)
  {
    SpecificTypeNormal(t.specificType);
    var c := Carry(t);
    var back := CarryBack(c, zohoId, render);
    if "legacy_notes" in c.appMetadata && c.appMetadata["legacy_notes"].JString? {
      assert Carry(back).appMetadata == c.appMetadata;
    }
    if "legacy_notes" !in c.appMetadata {
      assert Carry(back).appMetadata == c.appMetadata;
    }
  }

  /** A tax without notes whose metadata used the key: the text turns up as notes and leaves the metadata. */
  lemma TakenKeyBecomesNotes(zohoId: Option<string>, render: Rendering)
    ensures var t := Tax("u", 1, Some("GST5"), Some(50_000), Some("tax"), None, None, None,
                         map["legacy_notes" := JString("imported")]);
      var back := CarryBack(Carry(t), zohoId, render);
      Valid(t) && t.notes == None && back.notes == Some("imported") && back.appMetadata == map[]
  {
    var t := Tax("u", 1, Some("GST5"), Some(50_000), Some("tax"), None, None, None,
                 map["legacy_notes" := JString("imported")]);
    assert CarryBack(Carry(t), zohoId, render).appMetadata == map[];
  }
}
