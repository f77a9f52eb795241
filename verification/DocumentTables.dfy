/** The document tables as the migration's statements change them, up and down. */
module DocumentTables {
  import opened Basics
  import opened DocumentRows
  import opened Statements

  datatype FileRow = FileRow(document: int, file: File, isPrimary: bool, pageIndex: int)

  datatype LinkRow = LinkRow(document: int, link: Link, role: string)

  type LegacyTable = t: map<string, Legacy> | forall id :: id in t ==> t[id].id == id witness map[]

  predicate AllMigratable(legacy: LegacyTable) {
    forall id :: id in legacy ==> Migratable(legacy[id])
  }

  /** `row_number() OVER (PARTITION BY document_id ORDER BY is_primary DESC, page_index, id)` */
  function FileRanks(files: map<int, FileRow>, d: int): map<int, Rank> {
    map f | f in files && files[f].document == d :: Rank(if files[f].isPrimary then 0 else 1, files[f].pageIndex)
  }

  /** `ORDER BY (link_role = 'attachment') DESC, (link_role = 'owner') DESC, id` */
  function LinkRanks(links: map<int, LinkRow>, d: int): map<int, Rank> {
    map k | k in links && links[k].document == d
      :: Rank(if links[k].role == "attachment" then 0 else if links[k].role == "owner" then 1 else 2, 0)
  }

  function ChosenLink(links: map<int, LinkRow>, d: int): Option<Link> {
    var k := First(LinkRanks(links, d));
    if k.Some? then Some(links[k.value].link) else None
  }

  predicate KeepsUuid(files: map<int, FileRow>, f: int)
    requires f in files
  {
    First(FileRanks(files, files[f].document)) == Some(f)
  }

  /** A document with files hands its uuid to exactly one of them. */
  lemma OneFileKeepsUuid(files: map<int, FileRow>, d: int)
    ensures (exists f :: f in files && files[f].document == d)
        ==> exists f :: f in files && files[f].document == d && KeepsUuid(files, f)
    ensures forall f, g :: (f in files && files[f].document == d && KeepsUuid(files, f))
                           && (g in files && files[g].document == d && KeepsUuid(files, g))
                           ==> f == g
  {
    var ranks := FileRanks(files, d);
    if f :| f in files && files[f].document == d {
      assert f in ranks;
      var k := First(ranks).value;
      assert k in files && KeepsUuid(files, k);
    }
  }

  // ---- what the way up builds ----

  predicate UniqueUuids(documents: map<int, Document>) {
    forall d, e :: d in documents && e in documents && documents[d].uuid == documents[e].uuid ==> d == e
  }

  predicate IsDocumentOf(legacy: LegacyTable, d: Document) {
    d.uuid in legacy && d == ToDocument(legacy[d.uuid])
  }

  /** Each legacy row owns one document. */
  ghost predicate DocumentsCopied(legacy: LegacyTable, documents: map<int, Document>) {
    && UniqueUuids(documents)
    && (forall d :: d in documents ==> IsDocumentOf(legacy, documents[d]))
    && (forall id :: id in legacy ==> exists d :: d in documents && documents[d].uuid == id)
  }

  /** The selected document rows. */
  function SelectedDocuments(legacy: LegacyTable): map<string, Document> {
    map id | id in legacy :: ToDocument(legacy[id])
  }

  lemma DocumentsInserted(legacy: LegacyTable, documents: map<int, Document>, source: map<int, string>)
    requires var rows := SelectedDocuments(legacy); Stored(documents, source, rows, rows.Keys)
    ensures DocumentsCopied(legacy, documents) && Numbered(documents.Keys, |legacy|)
  {
    var rows := SelectedDocuments(legacy);
    assert rows.Keys == legacy.Keys && |legacy| == |legacy.Keys|;
    StoredFrom(documents, source, rows);
    hide SelectedDocuments, IsDocumentOf, ToDocument;
    forall d | d in documents ensures documents[d].uuid == source[d] && IsDocumentOf(legacy, documents[d]) {
      SelectedDocumentOf(legacy, source[d]);
    }
    forall id | id in legacy ensures exists d :: d in documents && documents[d].uuid == id {
      var d := StoredAt(documents, source, rows, id);
      assert documents[d].uuid == id;
    }
  }

  lemma SelectedDocumentOf(legacy: LegacyTable, id: string)
    requires id in legacy
    ensures var d := SelectedDocuments(legacy)[id]; d.uuid == id && IsDocumentOf(legacy, d)
  {
    hide Homeless, Ocr;
  }

  lemma UuidsKnown(legacy: LegacyTable, documents: map<int, Document>)
    requires DocumentsCopied(legacy, documents)
    ensures forall d :: d in documents ==> documents[d].uuid in legacy
  {
    hide ToDocument;
    forall d | d in documents ensures documents[d].uuid in legacy {
      assert IsDocumentOf(legacy, documents[d]);
    }
  }

  predicate IsFileOf(legacy: LegacyTable, documents: map<int, Document>, f: FileRow, casts: Casts) {
    && f.document in documents && documents[f.document].uuid in legacy
    && f == FileRow(f.document, ToFile(legacy[documents[f.document].uuid], casts), true, 0)
  }

  /** The selected file rows: `documents_legacy JOIN documents ON uuid = id`. */
  function SelectedFiles(legacy: LegacyTable, documents: map<int, Document>, casts: Casts): map<int, FileRow> {
    map d | d in documents && documents[d].uuid in legacy
      :: FileRow(d, ToFile(legacy[documents[d].uuid], casts), true, 0)
  }

  /** Each document owns one file. */
  ghost predicate FilesCopied(legacy: LegacyTable, documents: map<int, Document>, files: map<int, FileRow>,
                              casts: Casts)
  {
    && (forall f :: f in files ==> IsFileOf(legacy, documents, files[f], casts))
    && (forall f, g :: f in files && g in files && files[f].document == files[g].document ==> f == g)
    && (forall d :: d in documents ==> exists f :: f in files && files[f].document == d)
  }

  lemma SelectedFileOf(legacy: LegacyTable, documents: map<int, Document>, casts: Casts, d: int)
    ensures var rows := SelectedFiles(legacy, documents, casts);
      && (d in documents && documents[d].uuid in legacy ==> d in rows)
      && (d in rows ==> rows[d].document == d && IsFileOf(legacy, documents, rows[d], casts))
  {
    hide ToFile;
  }

  lemma FilesInserted(legacy: LegacyTable, documents: map<int, Document>, files: map<int, FileRow>,
                      source: map<int, int>, casts: Casts)
    requires forall d :: d in documents ==> documents[d].uuid in legacy
    requires var rows := SelectedFiles(legacy, documents, casts); Stored(files, source, rows, rows.Keys)
    ensures FilesCopied(legacy, documents, files, casts)
  {
    var rows := SelectedFiles(legacy, documents, casts);
    StoredFrom(files, source, rows);
    hide SelectedFiles, IsFileOf, ToFile, Stored;
    forall f | f in files ensures files[f].document == source[f] && IsFileOf(legacy, documents, files[f], casts) {
      SelectedFileOf(legacy, documents, casts, source[f]);
    }
    forall d | d in documents ensures exists f :: f in files && files[f].document == d {
      SelectedFileOf(legacy, documents, casts, d);
      var f := StoredAt(files, source, rows, d);
      assert files[f].document == d;
    }
  }

  /** The selected link rows: the same join, for linkable owners. */
  function SelectedLinks(legacy: LegacyTable, documents: map<int, Document>): map<int, LinkRow> {
    map d | d in documents && documents[d].uuid in legacy && ToLink(legacy[documents[d].uuid]).Some?
      :: LinkRow(d, ToLink(legacy[documents[d].uuid]).value, "attachment")
  }

  predicate IsLinkOf(legacy: LegacyTable, documents: map<int, Document>, k: LinkRow) {
    && k.document in documents && documents[k.document].uuid in legacy
    && k.role == "attachment" && ToLink(legacy[documents[k.document].uuid]) == Some(k.link)
  }

  /** Each document with an owner owns one link. */
  ghost predicate LinksCopied(legacy: LegacyTable, documents: map<int, Document>, links: map<int, LinkRow>) {
    && (forall k :: k in links ==> IsLinkOf(legacy, documents, links[k]))
    && (forall j, k :: j in links && k in links && links[j].document == links[k].document ==> j == k)
    && (forall d :: d in documents && documents[d].uuid in legacy && ToLink(legacy[documents[d].uuid]).Some?
                    ==> exists k :: k in links && links[k].document == d)
  }

  lemma SelectedLinkOf(legacy: LegacyTable, documents: map<int, Document>, d: int)
    ensures var rows := SelectedLinks(legacy, documents);
      && (d in documents && documents[d].uuid in legacy && ToLink(legacy[documents[d].uuid]).Some? ==> d in rows)
      && (d in rows ==> rows[d].document == d && IsLinkOf(legacy, documents, rows[d]))
  {
    hide ToLink;
  }

  lemma LinksInserted(legacy: LegacyTable, documents: map<int, Document>, links: map<int, LinkRow>,
                      source: map<int, int>)
    requires var rows := SelectedLinks(legacy, documents); Stored(links, source, rows, rows.Keys)
    ensures LinksCopied(legacy, documents, links)
  {
    var rows := SelectedLinks(legacy, documents);
    StoredFrom(links, source, rows);
    hide SelectedLinks, IsLinkOf, ToLink, Stored;
    forall k | k in links ensures links[k].document == source[k] && IsLinkOf(legacy, documents, links[k]) {
      SelectedLinkOf(legacy, documents, source[k]);
    }
    forall d | d in documents && documents[d].uuid in legacy && ToLink(legacy[documents[d].uuid]).Some?
      ensures exists k :: k in links && links[k].document == d
    {
      SelectedLinkOf(legacy, documents, d);
      var k := StoredAt(links, source, rows, d);
      assert links[k].document == d;
    }
  }

  lemma UuidsCount(ids: set<string>, documents: map<int, Document>)
    requires UniqueUuids(documents)
    requires forall d :: d in documents ==> documents[d].uuid in ids
    requires forall id :: id in ids ==> exists d :: d in documents && documents[d].uuid == id
    ensures |documents| == |ids|
  {
    var uuids := map d | d in documents :: documents[d].uuid;
    forall c, d | c in uuids && d in uuids && uuids[c] == uuids[d] ensures c == d {
      assert documents[c].uuid == documents[d].uuid;
    }
    InjectiveSize(uuids);
    assert uuids.Values == ids by {
      assert forall d :: d in uuids ==> uuids[d] == documents[d].uuid;
      forall id | id in ids ensures id in uuids.Values {
        var d :| d in documents && documents[d].uuid == id;
        assert d in uuids && uuids[d] == id;
      }
    }
    assert uuids.Keys == documents.Keys;
    assert |uuids| == |uuids.Keys|;
  }

  lemma FilesCount(ids: set<int>, files: map<int, FileRow>)
    requires forall f, g :: f in files && g in files && files[f].document == files[g].document ==> f == g
    requires forall f :: f in files ==> files[f].document in ids
    requires forall d :: d in ids ==> exists f :: f in files && files[f].document == d
    ensures |files| == |ids|
  {
    var owners := map f | f in files :: files[f].document;
    forall f, g | f in owners && g in owners && owners[f] == owners[g] ensures f == g {
      assert files[f].document == files[g].document;
    }
    InjectiveSize(owners);
    assert owners.Values == ids by {
      assert forall f :: f in owners ==> owners[f] == files[f].document;
      forall d | d in ids ensures d in owners.Values {
        var f :| f in files && files[f].document == d;
        assert f in owners && owners[f] == d;
      }
    }
    assert owners.Keys == files.Keys;
    assert |owners| == |owners.Keys|;
  }

  /** Conservation: the row-count check of the way up cannot fail. */
  lemma CountsAgree(legacy: LegacyTable, documents: map<int, Document>, files: map<int, FileRow>, casts: Casts)
    requires DocumentsCopied(legacy, documents) && FilesCopied(legacy, documents, files, casts)
    ensures |legacy| == |documents| == |files|
  {
    hide RoundTrip, Restore, RestoredRow, ToDocument, ToFile, ToLink;
    forall d | d in documents ensures documents[d].uuid in legacy.Keys {
      assert IsDocumentOf(legacy, documents[d]);
    }
    forall f | f in files ensures files[f].document in documents.Keys {
      assert IsFileOf(legacy, documents, files[f], casts);
    }
    UuidsCount(legacy.Keys, documents);
    FilesCount(documents.Keys, files);
  }

  // ---- what the way down builds ----

  /** New ids drawn for the files that do not keep a document's uuid: all different, none in use. */
  predicate FreshIds(drawn: map<int, string>, documents: map<int, Document>, files: map<int, FileRow>) {
    && files.Keys <= drawn.Keys
    && (forall f, g :: f in drawn && g in drawn && drawn[f] == drawn[g] ==> f == g)
    && (forall f, d :: f in drawn && d in documents ==> drawn[f] != documents[d].uuid)
  }

  /** Every file belongs to a document: the foreign key. */
  predicate FilesOwned(documents: map<int, Document>, files: map<int, FileRow>) {
    forall f :: f in files ==> files[f].document in documents
  }

  function RestoredId(documents: map<int, Document>, files: map<int, FileRow>, drawn: map<int, string>, f: int): string
    requires f in files && files[f].document in documents && f in drawn
  {
    if KeepsUuid(files, f) then documents[files[f].document].uuid else drawn[f]
  }

  lemma RestoredIdOnce(documents: map<int, Document>, files: map<int, FileRow>, drawn: map<int, string>, f: int, g: int)
    requires UniqueUuids(documents) && FilesOwned(documents, files) && FreshIds(drawn, documents, files)
    requires f in files && g in files
    requires RestoredId(documents, files, drawn, f) == RestoredId(documents, files, drawn, g)
    ensures f == g
  {
    var d := files[f].document;
    if KeepsUuid(files, f) && KeepsUuid(files, g) {
      assert documents[d].uuid == documents[files[g].document].uuid;
      OneFileKeepsUuid(files, d);
    }
  }

  function RestoredRow(documents: map<int, Document>, files: map<int, FileRow>, links: map<int, LinkRow>,
                       drawn: map<int, string>, casts: Casts, f: int): Legacy
    requires f in files && files[f].document in documents && f in drawn
  {
    var d := files[f].document;
    Restore(RestoredId(documents, files, drawn, f), documents[d], files[f].file, ChosenLink(links, d), casts)
  }

  /** The result of the restoring query: one row for each file. */
  function RestoredRows(documents: map<int, Document>, files: map<int, FileRow>, links: map<int, LinkRow>,
                        drawn: map<int, string>, casts: Casts): map<int, Legacy>
    requires FilesOwned(documents, files) && files.Keys <= drawn.Keys
  {
    map f | f in files :: RestoredRow(documents, files, links, drawn, casts, f)
  }

  function RestoredIds(documents: map<int, Document>, files: map<int, FileRow>, drawn: map<int, string>)
    : map<int, string>
    requires FilesOwned(documents, files) && files.Keys <= drawn.Keys
  {
    map f | f in files :: RestoredId(documents, files, drawn, f)
  }

  lemma RestoredIdsDiffer(documents: map<int, Document>, files: map<int, FileRow>, drawn: map<int, string>)
    requires UniqueUuids(documents) && FilesOwned(documents, files) && FreshIds(drawn, documents, files)
    ensures Distinct(RestoredIds(documents, files, drawn))
  {
    var ids := RestoredIds(documents, files, drawn);
    forall f, g | f in ids && g in ids && ids[f] == ids[g] ensures f == g {
      RestoredIdOnce(documents, files, drawn, f, g);
    }
  }

  /** The restored table is keyed by its rows' ids. */
  lemma RestoredTable(documents: map<int, Document>, files: map<int, FileRow>, links: map<int, LinkRow>,
                      drawn: map<int, string>, casts: Casts, table: map<string, Legacy>)
    requires FilesOwned(documents, files) && files.Keys <= drawn.Keys
    requires Inserted(table, RestoredIds(documents, files, drawn),
                      RestoredRows(documents, files, links, drawn, casts), files.Keys)
    ensures forall id :: id in table ==> table[id].id == id
  {
    var ids := RestoredIds(documents, files, drawn);
    hide KeepsUuid, ChosenLink, FileType, Amount, OwnerColumn, RestoredMetadata;
    forall id | id in table ensures table[id].id == id {
      var f :| f in files.Keys && ids[f] == id;
      assert table[id] == RestoredRow(documents, files, links, drawn, casts, f);
    }
  }

  lemma SoleFileKeepsUuid(files: map<int, FileRow>, f: int)
    requires f in files
    requires forall g :: g in files && files[g].document == files[f].document ==> g == f
    ensures KeepsUuid(files, f)
  {
    assert f in FileRanks(files, files[f].document);
  }

  lemma SoleLinkChosen(links: map<int, LinkRow>, d: int, link: Option<Link>)
    requires forall k :: k in links && links[k].document == d ==> link == Some(links[k].link)
    requires link.Some? ==> exists k :: k in links && links[k].document == d
    ensures ChosenLink(links, d) == link
  {
    if link.Some? {
      var k :| k in links && links[k].document == d;
      assert k in LinkRanks(links, d);
    }
  }

  lemma CopiedLinkChosen(legacy: LegacyTable, documents: map<int, Document>, links: map<int, LinkRow>, d: int)
    requires LinksCopied(legacy, documents, links)
    requires d in documents && documents[d].uuid in legacy
    ensures ChosenLink(links, d) == ToLink(legacy[documents[d].uuid])
  {
    forall k | k in links && links[k].document == d
      ensures ToLink(legacy[documents[d].uuid]) == Some(links[k].link)
    {
      assert IsLinkOf(legacy, documents, links[k]);
    }
    SoleLinkChosen(links, d, ToLink(legacy[documents[d].uuid]));
  }

  /** A document copied on the way up is restored under its old id, as the one-row round trip. */
  lemma RestoredUnderItsId(legacy: LegacyTable, documents: map<int, Document>, files: map<int, FileRow>,
                           links: map<int, LinkRow>, drawn: map<int, string>, casts: Casts, f: int)
    requires DocumentsCopied(legacy, documents) && FilesCopied(legacy, documents, files, casts)
    requires LinksCopied(legacy, documents, links)
    requires f in files && f in drawn && files[f].document in documents
    ensures var id := documents[files[f].document].uuid;
      && id in legacy && RestoredId(documents, files, drawn, f) == id
      && RestoredRow(documents, files, links, drawn, casts, f) == RoundTrip(legacy[id], casts)
  {
    var d := files[f].document;
    assert IsFileOf(legacy, documents, files[f], casts) && IsDocumentOf(legacy, documents[d]);
    SoleFileKeepsUuid(files, f);
    CopiedLinkChosen(legacy, documents, links, d);
  }

  lemma FileOfOldId(before: LegacyTable, documents: map<int, Document>, files: map<int, FileRow>, casts: Casts,
                    id: string)
    returns (f: int)
    requires DocumentsCopied(before, documents) && FilesCopied(before, documents, files, casts)
    requires id in before
    ensures f in files && files[f].document in documents && documents[files[f].document].uuid == id
  {
    var d :| d in documents && documents[d].uuid == id;
    f :| f in files && files[f].document == d;
  }

  lemma RowOfFile(documents: map<int, Document>, files: map<int, FileRow>, links: map<int, LinkRow>,
                  drawn: map<int, string>, casts: Casts, after: LegacyTable, f: int)
    requires FilesOwned(documents, files) && files.Keys <= drawn.Keys && f in files
    requires Inserted(after, RestoredIds(documents, files, drawn),
                      RestoredRows(documents, files, links, drawn, casts), files.Keys)
    ensures RestoredId(documents, files, drawn, f) in after
    ensures after[RestoredId(documents, files, drawn, f)] == RestoredRow(documents, files, links, drawn, casts, f)
  {
    assert RestoredIds(documents, files, drawn)[f] == RestoredId(documents, files, drawn, f);
    var rows := RestoredRows(documents, files, links, drawn, casts);
    assert rows[f] == RestoredRow(documents, files, links, drawn, casts, f);
  }

  lemma OldIdRestored(before: LegacyTable, documents: map<int, Document>, files: map<int, FileRow>,
                      links: map<int, LinkRow>, drawn: map<int, string>, casts: Casts, after: LegacyTable, id: string)
    requires DocumentsCopied(before, documents) && FilesCopied(before, documents, files, casts)
    requires LinksCopied(before, documents, links) && FilesOwned(documents, files) && files.Keys <= drawn.Keys
    requires Inserted(after, RestoredIds(documents, files, drawn),
                      RestoredRows(documents, files, links, drawn, casts), files.Keys)
    requires id in before
    ensures id in after && after[id] == RoundTrip(before[id], casts)
  {
    hide RoundTrip, Restore, RestoredRow, ToDocument, ToFile, ToLink;
    var f := FileOfOldId(before, documents, files, casts, id);
    RestoredUnderItsId(before, documents, files, links, drawn, casts, f);
    RowOfFile(documents, files, links, drawn, casts, after, f);
  }

  lemma NoNewId(before: LegacyTable, documents: map<int, Document>, files: map<int, FileRow>,
                links: map<int, LinkRow>, drawn: map<int, string>, casts: Casts, after: LegacyTable, id: string)
    requires DocumentsCopied(before, documents) && FilesCopied(before, documents, files, casts)
    requires LinksCopied(before, documents, links) && FilesOwned(documents, files) && files.Keys <= drawn.Keys
    requires Inserted(after, RestoredIds(documents, files, drawn),
                      RestoredRows(documents, files, links, drawn, casts), files.Keys)
    requires id in after
    ensures id in before
  {
    hide RoundTrip, Restore, RestoredRow, ToDocument, ToFile, ToLink;
    var ids := RestoredIds(documents, files, drawn);
    var f :| f in files.Keys && ids[f] == id;
    RestoredUnderItsId(before, documents, files, links, drawn, casts, f);
  }

  /** Main result: down right after up restores the same ids, each row as its round trip. */
  lemma TablesRoundTrip(before: LegacyTable, documents: map<int, Document>, files: map<int, FileRow>,
                        links: map<int, LinkRow>, drawn: map<int, string>, casts: Casts, after: LegacyTable)
    requires DocumentsCopied(before, documents) && FilesCopied(before, documents, files, casts)
    requires LinksCopied(before, documents, links) && FilesOwned(documents, files) && files.Keys <= drawn.Keys
    requires Inserted(after, RestoredIds(documents, files, drawn),
                      RestoredRows(documents, files, links, drawn, casts), files.Keys)
    ensures after.Keys == before.Keys
    ensures forall id :: id in before ==> after[id] == RoundTrip(before[id], casts)
  {
    hide RoundTrip, Restore, RestoredRow, ToDocument, ToFile, ToLink, RestoredIds, RestoredRows, Inserted,
      DocumentsCopied, FilesCopied, LinksCopied;
    forall id | id in before ensures id in after && after[id] == RoundTrip(before[id], casts) {
      OldIdRestored(before, documents, files, links, drawn, casts, after, id);
    }
    forall id | id in after ensures id in before {
      NoNewId(before, documents, files, links, drawn, casts, after, id);
    }
  }

  /**
   * Conservation on the way down, for any document tables: one row per file, and a document's uuid is
   * a row's id exactly when the document has a file.
   */
  lemma OneRowPerFile(documents: map<int, Document>, files: map<int, FileRow>, links: map<int, LinkRow>,
                      drawn: map<int, string>, casts: Casts, after: LegacyTable)
    requires UniqueUuids(documents) && FilesOwned(documents, files) && FreshIds(drawn, documents, files)
    requires Inserted(after, RestoredIds(documents, files, drawn),
                      RestoredRows(documents, files, links, drawn, casts), files.Keys)
    ensures |after| == |files|
    ensures forall d :: d in documents ==>
      (documents[d].uuid in after <==> exists f :: f in files && files[f].document == d)
  {
    hide RoundTrip, Restore, RestoredRow, ToDocument, ToFile, ToLink;
    var ids := RestoredIds(documents, files, drawn);
    RestoredIdsDiffer(documents, files, drawn);
    InsertedCount(after, ids, RestoredRows(documents, files, links, drawn, casts), files.Keys);
    assert |files| == |files.Keys|;
    forall d | d in documents
      ensures documents[d].uuid in after <==> exists f :: f in files && files[f].document == d
    {
      UuidKept(documents, files, drawn, after.Keys, d);
    }
  }

  lemma UuidKept(documents: map<int, Document>, files: map<int, FileRow>, drawn: map<int, string>,
                 after: set<string>, d: int)
    requires UniqueUuids(documents) && FilesOwned(documents, files) && FreshIds(drawn, documents, files)
    requires var ids := RestoredIds(documents, files, drawn);
      && (forall f :: f in files ==> ids[f] in after)
      && (forall id :: id in after ==> exists f :: f in files && ids[f] == id)
    requires d in documents
    ensures documents[d].uuid in after <==> exists f :: f in files && files[f].document == d
  {
    hide RoundTrip, Restore, RestoredRow, ToDocument, ToFile, ToLink;
    var ids := RestoredIds(documents, files, drawn);
    OneFileKeepsUuid(files, d);
    if documents[d].uuid in after {
      var f :| f in files && ids[f] == documents[d].uuid;
      assert RestoredId(documents, files, drawn, f) == documents[d].uuid;
      assert files[f].document == d;
    }
    if g :| g in files && files[g].document == d {
      var f :| f in files && files[f].document == d && KeepsUuid(files, f);
      assert ids[f] == documents[d].uuid;
    }
  }

  // ---- the restored rows' constraints ----

  predicate SameZohoId(l: Legacy, m: Legacy) {
    l.deletedAt.None? && m.deletedAt.None? && l.zohoId.Some? && l.zohoId == m.zohoId
  }

  /** `uq_documents_zoho_id_live` */
  predicate UniqueZohoIds<K(!new)>(rows: map<K, Legacy>) {
    forall j, k :: j in rows && k in rows && SameZohoId(rows[j], rows[k]) ==> j == k
  }

  /** The legacy table takes these rows: each fits its columns and no two live ones share a Zoho id. */
  predicate TakesRows<K(!new)>(rows: map<K, Legacy>) {
    (forall k :: k in rows ==> FitsLegacy(rows[k])) && UniqueZohoIds(rows)
  }
}
