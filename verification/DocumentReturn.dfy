/** The way straight down after the way up: when it is refused, and what it makes of the tables. */
module DocumentReturn {
  import opened DocumentLosses
  import opened DocumentNormalForm
  import opened DocumentRows
  import opened DocumentTables
  import opened DocumentTags
  import opened Statements

  lemma CopiedFilesOwned(legacy: LegacyTable, documents: map<int, Document>, files: map<int, FileRow>, casts: Casts)
    requires FilesCopied(legacy, documents, files, casts)
    ensures FilesOwned(documents, files)
  {
    hide ToFile;
    forall f | f in files ensures files[f].document in documents {
      assert IsFileOf(legacy, documents, files[f], casts);
    }
  }

  predicate AllReturnable(legacy: LegacyTable, casts: Casts) {
    forall id :: id in legacy ==> Returnable(legacy[id], casts)
  }

  /** The taggings after up and down. */
  predicate TagsReturned(m: NewTables, before: map<int, Tag>, after: map<int, Tag>) {
    UniqueUuids(m.documents) && after == TagsDown(m.documents, TagsUp(m.documents, before))
  }

  /** What the way up leaves of `before`, and ids for the way down. */
  ghost predicate Straight(before: LegacyTable, m: NewTables, drawn: map<int, string>, casts: Casts) {
    m.CopiedFrom(before, casts) && FilesOwned(m.documents, m.files) && m.files.Keys <= drawn.Keys
  }

  function Rows(m: NewTables, drawn: map<int, string>, casts: Casts): map<int, Legacy>
    requires FilesOwned(m.documents, m.files) && m.files.Keys <= drawn.Keys
  {
    RestoredRows(m.documents, m.files, m.links, drawn, casts)
  }

  /** The legacy row a file was copied from. */
  function SourceOf(m: NewTables, f: int): string
    requires f in m.files && m.files[f].document in m.documents
  {
    m.documents[m.files[f].document].uuid
  }

  lemma StraightRow(before: LegacyTable, m: NewTables, drawn: map<int, string>, casts: Casts, f: int)
    requires Straight(before, m, drawn, casts) && f in m.files
    ensures SourceOf(m, f) in before && f in Rows(m, drawn, casts)
    ensures Rows(m, drawn, casts)[f] == RoundTrip(before[SourceOf(m, f)], casts)
  {
    hide RoundTrip, Restore, ToDocument, ToFile, ToLink, DocumentsCopied, FilesCopied, LinksCopied;
    RestoredUnderItsId(before, m.documents, m.files, m.links, drawn, casts, f);
  }

  lemma StraightSourceOnce(before: LegacyTable, m: NewTables, drawn: map<int, string>, casts: Casts, f: int, g: int)
    requires Straight(before, m, drawn, casts) && f in m.files && g in m.files && SourceOf(m, f) == SourceOf(m, g)
    ensures f == g
  {
    hide ToDocument, ToFile, ToLink, LinksCopied;
  }

  lemma SameZohoIdBefore(l: Legacy, k: Legacy, casts: Casts)
    ensures SameZohoId(RoundTrip(l, casts), RoundTrip(k, casts)) <==> SameZohoId(l, k)
  {
    RestoredExactly(l, casts);
    RestoredExactly(k, casts);
    hide RoundTrip;
  }

  lemma ZohoIdsStayUnique(before: LegacyTable, m: NewTables, drawn: map<int, string>, casts: Casts)
    requires Straight(before, m, drawn, casts) && UniqueZohoIds(before)
    ensures UniqueZohoIds(Rows(m, drawn, casts))
  {
    var rows := Rows(m, drawn, casts);
    hide Straight, Rows, SourceOf, RoundTrip, SameZohoId;
    forall f, g | f in rows && g in rows && SameZohoId(rows[f], rows[g]) ensures f == g {
      StraightRow(before, m, drawn, casts, f);
      StraightRow(before, m, drawn, casts, g);
      SameZohoIdBefore(before[SourceOf(m, f)], before[SourceOf(m, g)], casts);
      StraightSourceOnce(before, m, drawn, casts, f, g);
    }
  }

  /**
   * Main result: after the way up, the legacy table takes every restored row exactly when each row it was
   * migrated from was returnable.
   */
  lemma StraightDownTakenIff(before: LegacyTable, m: NewTables, drawn: map<int, string>, casts: Casts)
    requires Straight(before, m, drawn, casts) && UuidTable(before) && TakesRows(before) && AllMigratable(before)
    ensures TakesRows(Rows(m, drawn, casts)) <==> AllReturnable(before, casts)
  {
    var rows := Rows(m, drawn, casts);
    ZohoIdsStayUnique(before, m, drawn, casts);
    forall f | f in m.files
      ensures f in rows && SourceOf(m, f) in before
      ensures FitsLegacy(rows[f]) <==> Returnable(before[SourceOf(m, f)], casts)
    {
      StraightRow(before, m, drawn, casts, f);
      RestoredRowFitsIff(before[SourceOf(m, f)], casts);
    }
    forall id | id in before ensures exists f :: f in m.files && SourceOf(m, f) == id {
      var f := FileOfOldId(before, m.documents, m.files, casts, id);
      assert SourceOf(m, f) == id;
    }
    hide FitsLegacy, Returnable, SourceOf, Migratable, UniqueZohoIds;
  }

  lemma DrawnIsFresh(before: LegacyTable, m: NewTables, draw: int -> string, drawn: map<int, string>, casts: Casts)
    requires m.CopiedFrom(before, casts) && drawn == map f | f in m.files :: draw(f)
    requires forall f, g :: draw(f) == draw(g) ==> f == g
    requires forall f :: draw(f) !in before
    ensures Straight(before, m, drawn, casts) && FreshIds(drawn, m.documents, m.files)
  {
    CopiedFilesOwned(before, m.documents, m.files, casts);
    UuidsKnown(before, m.documents);
    hide FilesCopied, LinksCopied, DocumentsCopied;
    assert forall f :: f in drawn ==> drawn[f] == draw(f);
  }

  /** The legacy rows after up and down. */
  ghost predicate Returned(before: LegacyTable, after: LegacyTable, casts: Casts) {
    after.Keys == before.Keys && forall id :: id in before ==> after[id] == RoundTrip(before[id], casts)
  }

  lemma StraightDown(before: LegacyTable, m: NewTables, drawn: map<int, string>, casts: Casts, after: LegacyTable)
    requires Straight(before, m, drawn, casts)
    requires Inserted(after, RestoredIds(m.documents, m.files, drawn), Rows(m, drawn, casts), m.files.Keys)
    ensures Returned(before, after, casts)
  {
    TablesRoundTrip(before, m.documents, m.files, m.links, drawn, casts, after);
    hide RoundTrip, DocumentsCopied, FilesCopied, LinksCopied;
  }

  lemma AllMigratableAgainIff(before: LegacyTable, after: LegacyTable, casts: Casts)
    requires AllMigratable(before) && Returned(before, after, casts)
    ensures AllMigratable(after) <==> forall id :: id in before ==> OwnNameFits(before[id], casts)
  {
    forall id | id in before ensures Migratable(after[id]) <==> OwnNameFits(before[id], casts) {
      MigratableAgainIff(before[id], casts);
    }
    hide Migratable, OwnNameFits, RoundTrip;
  }

  lemma ReturnedTable(before: LegacyTable, after: LegacyTable, casts: Casts)
    requires UuidTable(before) && Returned(before, after, casts)
    ensures UuidTable(after) && |after| == |before|
  {
    assert |after| == |after.Keys| && |before| == |before.Keys|;
    hide RoundTrip, IsUuid;
  }

  lemma NextUpMeetsKey(before: LegacyTable, m: NewTables, wereTags: map<int, Tag>, tags: map<int, Tag>,
                       numbered: map<int, Document>)
    requires UuidTable(before) && DocumentsCopied(before, m.documents) && TagsReturned(m, wereTags, tags)
    requires Numbered(m.documents.Keys, |before|) && Numbered(numbered.Keys, |before|)
    ensures !TagsClash(numbered, tags)
  {
    hide DocumentsCopied, Numbered;
    SameNumbers(numbered.Keys, m.documents.Keys, |before|);
    ReturnedTagsDoNotClash(before, m.documents, wereTags, numbered);
  }

  lemma UpAgain(before: LegacyTable, after: LegacyTable, a: NewTables, b: NewTables, casts: Casts)
    requires a.CopiedFrom(before, casts) && b.CopiedFrom(after, casts) && Returned(before, after, casts)
    ensures SameUpToIds(a, b) <==> forall id :: id in before ==> Normalises(before[id], casts)
  {
    hide NewTables.CopiedFrom, RoundTrip, Normalises, SameUpToIds;
    TablesNormalFormIff(a, b, before, after, casts);
  }
}
