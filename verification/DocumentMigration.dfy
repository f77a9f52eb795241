/** The document migration's statements in sequence, up and down. */
module DocumentMigration {
  import opened DocumentLosses
  import opened DocumentNormalForm
  import opened DocumentReturn
  import opened DocumentRows
  import opened DocumentTables
  import opened DocumentTags
  import opened DocumentValues
  import opened Statements

  /** A statement that breaks a CHECK, a column's width or a key fails, and everything is rolled back. */
  datatype Outcome = Migrated | RowRefused | DuplicateTag | LostRows

  predicate DocumentsMeetChecks<K(!new)>(rows: map<K, Document>) {
    forall k :: k in rows ==> MeetsDocumentChecks(rows[k])
  }

  predicate FilesMeetChecks(rows: map<int, FileRow>) {
    forall k :: k in rows ==> MeetsFileChecks(rows[k].file) && rows[k].pageIndex >= 0
  }

  predicate LinksMeetChecks(rows: map<int, LinkRow>) {
    forall k :: k in rows ==> MeetsLinkChecks(rows[k].link)
  }

  /** Documents always meet the CHECKs; files and links do exactly when every row can be migrated. */
  lemma SelectedMeetChecksIff(legacy: LegacyTable, documents: map<int, Document>, casts: Casts)
    ensures DocumentsMeetChecks(SelectedDocuments(legacy))
    ensures DocumentsCopied(legacy, documents) ==>
      (FilesMeetChecks(SelectedFiles(legacy, documents, casts)) && LinksMeetChecks(SelectedLinks(legacy, documents))
       <==> AllMigratable(legacy))
  {
    hide MeetsDocumentChecks, MeetsFileChecks, MeetsLinkChecks, ToDocument, ToFile, ToLink;
    forall id | id in legacy ensures MeetsDocumentChecks(ToDocument(legacy[id])) {
      MigratedRowsMeetChecksIff(legacy[id], casts);
    }
    if DocumentsCopied(legacy, documents) {
      SelectedFilesMeetChecksIff(legacy, documents, casts);
      SelectedLinksMeetChecksIff(legacy, documents, casts);
    }
    hide DocumentsCopied, FilesMeetChecks, LinksMeetChecks, OwnerNameFits;
  }

  lemma SelectedFilesMeetChecksIff(legacy: LegacyTable, documents: map<int, Document>, casts: Casts)
    requires DocumentsCopied(legacy, documents)
    ensures FilesMeetChecks(SelectedFiles(legacy, documents, casts))
       <==> forall id :: id in legacy ==> legacy[id].fileSize >= 0
  {
    hide MeetsFileChecks, ToDocument, ToFile, ToLink;
    var rows := SelectedFiles(legacy, documents, casts);
    forall d | d in rows
      ensures MeetsFileChecks(rows[d].file) <==> legacy[documents[d].uuid].fileSize >= 0
    {
      MigratedRowsMeetChecksIff(legacy[documents[d].uuid], casts);
    }
    forall id | id in legacy && FilesMeetChecks(rows) ensures legacy[id].fileSize >= 0 {
      var d :| d in documents && documents[d].uuid == id;
      assert d in rows;
    }
  }

  lemma SelectedLinksMeetChecksIff(legacy: LegacyTable, documents: map<int, Document>, casts: Casts)
    requires DocumentsCopied(legacy, documents)
    ensures LinksMeetChecks(SelectedLinks(legacy, documents))
       <==> forall id :: id in legacy ==> OwnerNameFits(legacy[id])
  {
    hide MeetsLinkChecks, ToDocument, ToFile, ToLink, OwnerNameFits;
    var rows := SelectedLinks(legacy, documents);
    forall id | id in legacy
      ensures OwnerNameFits(legacy[id]) <==> (ToLink(legacy[id]).Some? ==> MeetsLinkChecks(ToLink(legacy[id]).value))
    {
      MigratedRowsMeetChecksIff(legacy[id], casts);
    }
    forall id | id in legacy && LinksMeetChecks(rows) ensures OwnerNameFits(legacy[id]) {
      var d :| d in documents && documents[d].uuid == id;
      assert ToLink(legacy[id]).Some? ==> d in rows;
    }
  }

  method RestoreRows(documents: map<int, Document>, files: map<int, FileRow>, links: map<int, LinkRow>,
                     drawn: map<int, string>, casts: Casts) returns (legacy: LegacyTable)
    requires UniqueUuids(documents) && FilesOwned(documents, files) && FreshIds(drawn, documents, files)
    ensures Inserted(legacy, RestoredIds(documents, files, drawn),
                     RestoredRows(documents, files, links, drawn, casts), files.Keys)
  {
    RestoredIdsDiffer(documents, files, drawn);
    var rows := RestoredRows(documents, files, links, drawn, casts);
    var table := InsertKeyed(RestoredIds(documents, files, drawn), rows);
    RestoredTable(documents, files, links, drawn, casts, table);
    legacy := table;
  }

  class Tables {
    var legacy: LegacyTable
    var documents: map<int, Document>
    var files: map<int, FileRow>
    var links: map<int, LinkRow>
    var tags: map<int, Tag>

    /** The state before the way up: the new tables have just been created. */
    constructor (legacy: LegacyTable, tags: map<int, Tag>)
      ensures this.legacy == legacy && this.tags == tags
      ensures documents == map[] && files == map[] && links == map[]
    {
      this.legacy, this.tags := legacy, tags;
      documents, files, links := map[], map[], map[];
    }

    /** A selected row that breaks a CHECK fails the statement; so below. */
    method CopyDocuments() returns (ok: bool)
      requires documents == map[]
      modifies `documents
      ensures ok <==> DocumentsMeetChecks(SelectedDocuments(legacy))
      ensures ok ==> DocumentsCopied(legacy, documents) && Numbered(documents.Keys, |legacy|)
      ensures ok ==> DocumentsMeetChecks(documents)
      ensures !ok ==> documents == map[]
    {
      var rows := SelectedDocuments(legacy);
      ok := DocumentsMeetChecks(rows);
      if ok {
        ghost var source;
        documents, source := InsertSelected(rows);
        DocumentsInserted(legacy, documents, source);
      }
    }

    /** One file for each legacy row, its document found by uuid. */
    method CopyFiles(casts: Casts) returns (ok: bool)
      requires files == map[] && DocumentsCopied(legacy, documents)
      modifies `files
      ensures ok <==> FilesMeetChecks(SelectedFiles(legacy, documents, casts))
      ensures ok ==> FilesCopied(legacy, documents, files, casts) && FilesMeetChecks(files)
      ensures !ok ==> files == map[]
    {
      var rows := SelectedFiles(legacy, documents, casts);
      ok := FilesMeetChecks(rows);
      if ok {
        ghost var source;
        files, source := InsertSelected(rows);
        UuidsKnown(legacy, documents);
        FilesInserted(legacy, documents, files, source, casts);
      }
    }

    /** One attachment link for each legacy row with a linkable owner. */
    method CopyLinks() returns (ok: bool)
      requires links == map[] && DocumentsCopied(legacy, documents)
      modifies `links
      ensures ok <==> LinksMeetChecks(SelectedLinks(legacy, documents))
      ensures ok ==> LinksCopied(legacy, documents, links) && LinksMeetChecks(links)
      ensures !ok ==> links == map[]
    {
      var rows := SelectedLinks(legacy, documents);
      ok := LinksMeetChecks(rows);
      if ok {
        ghost var source;
        links, source := InsertSelected(rows);
        LinksInserted(legacy, documents, links, source);
      }
    }

    method CopyAll(casts: Casts) returns (ok: bool)
      requires documents == map[] && files == map[] && links == map[]
      modifies `documents, `files, `links
      ensures ok <==> AllMigratable(legacy)
      ensures ok ==> Numbered(documents.Keys, |legacy|)
      ensures ok ==> DocumentsCopied(legacy, documents) && FilesCopied(legacy, documents, files, casts)
      ensures ok ==> LinksCopied(legacy, documents, links)
      ensures ok ==> DocumentsMeetChecks(documents) && FilesMeetChecks(files) && LinksMeetChecks(links)
    {
      hide *;
      SelectedMeetChecksIff(legacy, map[], casts);
      ok := CopyDocuments();
      SelectedMeetChecksIff(legacy, documents, casts);
      if ok {
        ok := CopyFiles(casts);
      }
      if ok {
        ok := CopyLinks();
      }
    }

    /**
     * The whole way up. It fails for a row that cannot be migrated, or for a tag set on a document both by
     * uuid and by the number it gets, and for nothing else: the row-count check never stops it. `numbered`
     * are the documents under the ids generated for them.
     */
    method Upgrade(casts: Casts) returns (outcome: Outcome, ghost numbered: map<int, Document>)
      requires documents == map[] && files == map[] && links == map[]
      requires UuidTable(legacy) && UniqueTags(tags)
      modifies this
      ensures outcome.RowRefused? <==> !AllMigratable(old(legacy))
      ensures !outcome.RowRefused? ==>
        && DocumentsCopied(old(legacy), numbered) && Numbered(numbered.Keys, |old(legacy)|)
        && outcome == if TagsClash(numbered, old(tags)) then DuplicateTag else Migrated
      ensures !outcome.Migrated? ==>
        legacy == old(legacy) && tags == old(tags) && documents == map[] && files == map[] && links == map[]
      ensures outcome.Migrated? ==> legacy == map[] && documents == numbered
      ensures outcome.Migrated? ==> FilesCopied(old(legacy), documents, files, casts)
      ensures outcome.Migrated? ==> LinksCopied(old(legacy), documents, links)
      ensures outcome.Migrated? ==> DocumentsMeetChecks(documents) && FilesMeetChecks(files) && LinksMeetChecks(links)
      ensures outcome.Migrated? ==> tags == TagsUp(documents, old(tags)) && UniqueTags(tags)
      ensures outcome.Migrated? ==>
        && DocumentsFor(old(legacy), documents) && FilesFor(old(legacy), documents, files, casts)
        && LinksFor(old(legacy), documents, links)
    {
      hide *;
      var ok := CopyAll(casts);
      numbered := documents;
      if !ok {
        documents, files, links := map[], map[], map[];
        return RowRefused, numbered;
      }
      CopiedUuidKeys(legacy, documents);
      RemapKeepsKeyIff(documents, tags);
      CountsAgree(legacy, documents, files, casts);
      var remapped := TagsUp(documents, tags);
      if !UniqueTags(remapped) {
        documents, files, links := map[], map[], map[];
        return DuplicateTag, numbered;
      }
      CopiedRows(legacy, documents, files, links, casts);
      tags := remapped;
      if !(|legacy| == |documents| == |files|) {
        return LostRows, numbered;
      }
      legacy := map[];
      return Migrated, numbered;
    }

    /**
     * One legacy row for each file; `drawn` are the ids generated for all but first files. The statement fails
     * for a row the legacy table does not take.
     */
    method RestoreLegacy(casts: Casts, drawn: map<int, string>) returns (ok: bool)
      requires legacy == map[] && UniqueUuids(documents) && FilesOwned(documents, files)
      requires FreshIds(drawn, documents, files)
      modifies `legacy
      ensures ok <==> TakesRows(RestoredRows(documents, files, links, drawn, casts))
      ensures ok ==> Inserted(legacy, RestoredIds(documents, files, drawn),
                              RestoredRows(documents, files, links, drawn, casts), files.Keys)
      ensures !ok ==> legacy == map[]
    {
      ok := TakesRows(RestoredRows(documents, files, links, drawn, casts));
      if ok {
        legacy := RestoreRows(documents, files, links, drawn, casts);
      }
    }

    /** The whole way down, the new tables dropped. */
    method Downgrade(casts: Casts, drawn: map<int, string>) returns (outcome: Outcome)
      requires legacy == map[] && UniqueUuids(documents) && FilesOwned(documents, files)
      requires FreshIds(drawn, documents, files) && UuidKeys(documents) && UniqueTags(tags)
      modifies this
      ensures outcome.RowRefused? <==> !TakesRows(RestoredRows(old(documents), old(files), old(links), drawn, casts))
      ensures outcome.RowRefused? <==>
        || (exists f :: f in old(files) && !FileFits(old(documents), old(files), old(links), casts, f))
        || (exists f, g :: f in old(files) && g in old(files) && f != g
                           && SameLiveZohoId(old(documents), old(files), f, g))
      ensures !outcome.RowRefused? ==>
        outcome == if TagsClash(old(documents), old(tags)) then DuplicateTag else Migrated
      ensures !outcome.Migrated? ==>
        && legacy == map[] && tags == old(tags) && documents == old(documents) && files == old(files)
        && links == old(links)
      ensures outcome.Migrated? ==>
        && Inserted(legacy, RestoredIds(old(documents), old(files), drawn),
                    RestoredRows(old(documents), old(files), old(links), drawn, casts), old(files).Keys)
        && RowsFor(old(documents), old(files), old(links), drawn, casts, legacy)
        && tags == TagsDown(old(documents), old(tags)) && UniqueTags(tags)
        && documents == map[] && files == map[] && links == map[]
    {
      hide *;
      TakenIff(documents, files, links, drawn, casts);
      var ok := RestoreLegacy(casts, drawn);
      if !ok {
        return RowRefused;
      }
      RestoredRowsMean(documents, files, links, drawn, casts, legacy);
      RemapKeepsKeyIff(documents, tags);
      var remapped := TagsDown(documents, tags);
      if !UniqueTags(remapped) {
        legacy := map[];
        return DuplicateTag;
      }
      tags := remapped;
      documents, files, links := map[], map[], map[];
      return Migrated;
    }

    /**
     * Up and straight down, from the legacy tables. `draw` generates new ids; `first` is what the way up left.
     * The way down fails only for a row that is not returnable: it always meets the tags' key.
     */
    method UpThenDown(casts: Casts, draw: int -> string) returns (outcome: Outcome, ghost first: NewTables)
      requires documents == map[] && files == map[] && links == map[]
      requires UuidTable(legacy) && TakesRows(legacy) && UniqueTags(tags)
      requires forall f, g :: draw(f) == draw(g) ==> f == g
      requires forall f :: draw(f) !in legacy
      modifies this
      ensures AllMigratable(old(legacy)) ==>
        DocumentsCopied(old(legacy), first.documents) && Numbered(first.documents.Keys, |old(legacy)|)
      ensures outcome.Migrated? <==>
        AllMigratable(old(legacy)) && !TagsClash(first.documents, old(tags)) && AllReturnable(old(legacy), casts)
      ensures outcome.Migrated? ==> first.CopiedFrom(old(legacy), casts) && Returned(old(legacy), legacy, casts)
      ensures outcome.Migrated? ==> documents == map[] && files == map[] && links == map[]
      ensures outcome.Migrated? ==> TagsReturned(first, old(tags), tags) && UniqueTags(tags)
    {
      hide DocumentsCopied, FilesCopied, LinksCopied, DocumentsMeetChecks, FilesMeetChecks, LinksMeetChecks,
        RestoredRows, RestoredIds, Inserted, TakesRows, UniqueTags, TagsUp, TagsDown, TagsClash, AllReturnable,
        AllMigratable, UuidKeys, UuidTable, FreshIds, UniqueUuids, FilesOwned, Returned, Numbered;
      ghost var before, wereTags := legacy, tags;
      ghost var numbered;
      outcome, numbered := Upgrade(casts);
      first := NewTables(numbered, files, links);
      if !outcome.Migrated? {
        return outcome, first;
      }
      var drawn := map f | f in files :: draw(f);
      DrawnIsFresh(before, first, draw, drawn, casts);
      StraightDownTakenIff(before, first, drawn, casts);
      CopiedUuidKeys(before, documents);
      RemappedTagsDoNotClash(documents, wereTags);
      outcome := Downgrade(casts, drawn);
      if outcome.Migrated? {
        StraightDown(before, first, drawn, casts, legacy);
      }
    }

    /**
     * Up, down and up again; `after` are the legacy rows in between. The second way up, too, always meets the
     * tags' key.
     */
    method UpDownUp(casts: Casts, draw: int -> string)
      returns (outcome: Outcome, ghost first: NewTables, ghost after: LegacyTable)
      requires documents == map[] && files == map[] && links == map[]
      requires UuidTable(legacy) && TakesRows(legacy) && UniqueTags(tags)
      requires forall f, g :: draw(f) == draw(g) ==> f == g
      requires forall f :: draw(f) !in legacy
      modifies this
      ensures AllMigratable(old(legacy)) ==>
        DocumentsCopied(old(legacy), first.documents) && Numbered(first.documents.Keys, |old(legacy)|)
      ensures outcome.Migrated? <==>
        && AllMigratable(old(legacy)) && !TagsClash(first.documents, old(tags)) && AllReturnable(old(legacy), casts)
        && forall id :: id in old(legacy) ==> OwnNameFits(old(legacy)[id], casts)
      ensures outcome.Migrated? ==>
        && first.CopiedFrom(old(legacy), casts) && Returned(old(legacy), after, casts)
        && NewTables(documents, files, links).CopiedFrom(after, casts)
      ensures outcome.Migrated? ==>
        (SameUpToIds(first, NewTables(documents, files, links))
         <==> forall id :: id in old(legacy) ==> Normalises(old(legacy)[id], casts))
    {
      hide DocumentsCopied, FilesCopied, LinksCopied, DocumentsMeetChecks, FilesMeetChecks, LinksMeetChecks,
        TakesRows, UniqueTags, TagsUp, TagsDown, TagsClash, AllReturnable, OwnNameFits, Normalises, SameUpToIds,
        AllMigratable, RoundTrip, Numbered, Returned, TagsReturned, UuidTable;
      ghost var before, wereTags := legacy, tags;
      outcome, first := UpThenDown(casts, draw);
      after := legacy;
      if outcome.Migrated? {
        ghost var numbered;
        ReturnedTable(before, after, casts);
        AllMigratableAgainIff(before, after, casts);
        ghost var returned := tags;
        outcome, numbered := Upgrade(casts);
        if !outcome.RowRefused? {
          NextUpMeetsKey(before, first, wereTags, returned, numbered);
          UpAgain(before, after, first, NewTables(documents, files, links), casts);
        }
      }
    }
  }
}
