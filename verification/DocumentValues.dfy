/** The rows the document migration writes, column by column, up and down. */
module DocumentValues {
  import opened Basics
  import opened Decimals
  import opened DocumentLosses
  import opened DocumentRows
  import opened DocumentTables
  import opened Json
  import opened OwnerNames
  import opened Statements

  // ---- the way up ----

  function TextMember(v: Option<string>): Option<Json> {
    if v.Some? then Some(JString(v.value)) else None
  }

  function BoolMember(v: Option<bool>): Option<Json> {
    if v.Some? then Some(JBool(v.value)) else None
  }

  function NumberMember(v: Option<int>): Option<Json> {
    if v.Some? then Some(JNumber(v.value as real)) else None
  }

  /** An object with one member for each legacy column that has no other home. */
  predicate KeepsColumns(g: Option<Json>, l: Legacy) {
    && Get(g, "document_status") == TextMember(l.documentStatus) && Get(g, "is_visible") == BoolMember(l.isVisible)
    && Get(g, "display_order") == NumberMember(l.displayOrder) && Get(g, "contains_pii") == BoolMember(l.containsPii)
    && Get(g, "download_count") == NumberMember(l.downloadCount) && Get(g, "version") == TextMember(l.version)
    && Get(g, "revision") == NumberMember(l.revision) && Get(g, "checksum_md5") == TextMember(l.md5)
    && Get(g, "documentable_type") == TextMember(l.ownerType) && Get(g, "documentable_id") == TextMember(l.ownerId)
    && Get(g, "access_permissions") == Stripped(l.accessPermissions)
    && Get(g, "version_history") == Stripped(l.versionHistory) && Get(g, "metadata") == Stripped(l.metadata)
  }

  predicate IsMetadataFor(l: Legacy, m: Object) {
    && m - {"legacy"} == l.appMetadata - {"legacy"}
    && if NoHomeless(l) then Get(Some(JObject(m)), "legacy") == Get(Some(JObject(l.appMetadata)), "legacy")
       else
         && "legacy" in m && m["legacy"].JObject? && m["legacy"].fields.Keys <= HOMELESS
         && KeepsColumns(Some(m["legacy"]), l)
  }

  predicate HasReceipt(l: Legacy) {
    l.vendorName.Some? || l.scannedDate.Some? || (l.scannedAmount.Some? && l.scannedAmount.value != 0.0)
  }

  predicate IsReceiptFor(l: Legacy, ocr: Option<Json>) {
    if !HasReceipt(l) then ocr == None
    else
      && ocr.Some? && ocr.value.JObject?
      && ocr.value.fields.Keys <= {"vendor_name", "scanned_amount", "scanned_receipt_date"}
      && Get(ocr, "vendor_name") == TextMember(l.vendorName)
      && Get(ocr, "scanned_receipt_date") == TextMember(l.scannedDate)
      && Get(ocr, "scanned_amount")
         == if l.scannedAmount.Some? && l.scannedAmount.value != 0.0 then Some(JNumber(l.scannedAmount.value)) else None
  }

  /** The document of a legacy row. */
  predicate IsDocumentFor(l: Legacy, d: Document) {
    && d.uuid == l.id
    && (d.status == if l.isBlocked == Some(true) then "suspended"
                    else if l.status in {"active", "suspended", "archived"} then l.status else "active")
    && (if l.isVerified == Some(true)
        then d.isVerified && d.verificationStatus == "verified" && d.verifiedAt == Some(l.updatedAt)
        else !d.isVerified && d.verificationStatus == "uploaded" && d.verifiedAt == None)
    && (if l.isActive == Some(false)
        then && d.deactivatedAt == Some(l.updatedAt)
             && d.deactivationReason == Some("Migrated from the legacy documents table: was inactive")
        else d.deactivatedAt == None && d.deactivationReason == None)
    && IsReceiptFor(l, d.ocr) && IsMetadataFor(l, d.appMetadata)
    && d.createdAt == l.createdAt && d.updatedAt == l.updatedAt && d.deletedAt == l.deletedAt
    && d.rowVersion == l.rowVersion
  }

  lemma KeptMeans(g: Option<Json>, l: Legacy)
    requires DocumentRows.Kept(g, l)
    ensures KeepsColumns(g, l)
  {
    hide Get;
  }

  lemma MetadataValues(l: Legacy)
    ensures IsMetadataFor(l, ToDocument(l).appMetadata)
  {
    LegacyMember(l);
    MetadataRest(l);
    NoHomelessIff(l);
    HoldsColumnsIff(Some(JObject(Homeless(l))), l);
    if !NoHomeless(l) {
      KeptMeans(Some(JObject(Homeless(l))), l);
    }
    hide ToDocument, Homeless, NoHomeless, DocumentRows.Kept, KeepsColumns, HOMELESS;
  }

  lemma ReceiptValues(l: Legacy)
    ensures IsReceiptFor(l, ToDocument(l).ocr)
  {
    OcrColumn(l);
    hide Homeless, Get, StripNulls;
  }

  /** Main result: every column of the migrated document, from the legacy row's columns. */
  lemma DocumentColumns(l: Legacy)
    ensures IsDocumentFor(l, ToDocument(l))
  {
    MetadataValues(l);
    ReceiptValues(l);
    hide Homeless, Ocr, HasOcr, IsReceiptFor, IsMetadataFor;
  }

  /** The file of a legacy row. */
  predicate IsFileFor(l: Legacy, f: File, casts: Casts) {
    && f.fileName == l.fileName && f.mimeType == l.mimeType && f.sizeBytes == Some(l.fileSize)
    && IsHashFor(l.sha256, f.sha256)
    && (if HasText(PathText(l, casts)) then f.provider == "local_disk" && Some(f.key) == PathText(l, casts)
        else f.provider == "s3" && f.key == if HasText(l.s3Key) then l.s3Key.value else "legacy-missing/" + l.id)
    && f.bucket == l.s3Bucket && f.region == l.s3Region && f.storageClass == l.s3Class
    && f.storageVersion == l.s3Version && f.etag == l.s3Etag && f.storageMetadata == l.s3Metadata
    && (f.virusScanned <==> l.virusScanned == Some(true))
    && (f.processingStatus == if Says(l.processingStatus, "processing") then "processing"
                              else if SaysDone(l.processingStatus) then "done"
                              else if SaysFailed(l.processingStatus) then "failed" else "pending")
    && AreResultsFor(l, f.processingResults)
    && (f.uploadedBy == if l.uploadedById.Some? && IsIdText(l.uploadedById.value)
                        then Some(ToNumber(l.uploadedById.value)) else None)
    && f.uploadedAt == l.createdAt && f.zohoId == l.zohoId && f.folderId == l.folderId && f.folderName == l.folderName
    && f.createdAt == l.createdAt && f.updatedAt == l.updatedAt && f.deletedAt == l.deletedAt
  }

  /** One to eighteen digits. */
  predicate IsIdText(s: string) {
    1 <= |s| <= 18 && forall i :: 0 <= i < |s| ==> '0' <= s[i] <= '9'
  }

  /** Sixty-four hexadecimal digits are stored in lower case, anything else not at all. */
  predicate IsHashFor(legacy: Option<string>, stored: Option<string>) {
    if legacy.Some? && |legacy.value| == 64 && forall c :: c in legacy.value ==> IsHexDigit(c) then
      stored.Some? && |stored.value| == 64 && forall i :: 0 <= i < 64 ==> stored.value[i] == ToLower(legacy.value[i])
    else stored == None
  }

  predicate IsHexDigit(c: char) {
    '0' <= c <= '9' || 'a' <= c <= 'f' || 'A' <= c <= 'F'
  }

  predicate AreResultsFor(l: Legacy, results: Option<Json>) {
    if l.processingResults == None && l.extractedText == None then results == None
    else
      && results.Some? && results.value.JObject?
      && results.value.fields.Keys <= {"legacy_results", "extracted_text"}
      && Get(results, "legacy_results") == Stripped(l.processingResults)
      && Get(results, "extracted_text") == Stripped(l.extractedText)
  }

  lemma HashValue(l: Legacy)
    ensures IsHashFor(l.sha256, StoredHash(l))
  {
    if l.sha256.Some? {
      var s := l.sha256.value;
      assert forall i :: 0 <= i < |s| ==> s[i] in s;
      assert forall c :: IsHexDigit(c) <==> IsDigit(c) || 'a' <= ToLower(c) <= 'f';
    }
  }

  lemma ResultsValues(l: Legacy)
    ensures AreResultsFor(l, Results(l))
  {
    ResultsObject(l);
    ResultsKeys(l);
    ResultsStored(l);
    hide Results, Stripped;
  }

  /** Main result: every column of the migrated file. */
  lemma FileColumns(l: Legacy, casts: Casts)
    ensures IsFileFor(l, ToFile(l, casts), casts)
  {
    HashValue(l);
    ResultsValues(l);
    ProgressOf(l.processingStatus);
    hide IsHashFor, AreResultsFor, Results, StoredHash, ProcessingStatus, Says, SaysDone, SaysFailed;
  }

  /** The link of a legacy row, if its owner is named and has a positive number of one to eighteen digits. */
  predicate IsLinkFor(l: Legacy, k: Option<Link>) {
    if HasText(l.ownerType) && l.ownerId.Some? && IsIdText(l.ownerId.value) && ToNumber(l.ownerId.value) > 0 then
      && k.Some? && k.value.ownerType == LinkName(l.ownerType.value) && k.value.ownerId == ToNumber(l.ownerId.value)
      && (k.value.sortOrder == if l.displayOrder.Some? then l.displayOrder.value else 0)
      && IsContextFor(Get(l.metadata, "is_inline"), Get(l.metadata, "content_id"), k.value.context)
    else k == None
  }

  /** The mail hints that are there and not null; NULL without any. */
  predicate IsContextFor(inline: Option<Json>, contentId: Option<Json>, context: Option<Json>) {
    if Stripped(inline) == None && Stripped(contentId) == None then context == None
    else
      && context.Some? && context.value.JObject? && context.value.fields.Keys <= {"is_inline", "content_id"}
      && Get(context, "is_inline") == Stripped(inline) && Get(context, "content_id") == Stripped(contentId)
  }

  lemma ContextValues(inline: Option<Json>, contentId: Option<Json>)
    ensures IsContextFor(inline, contentId, NonEmptyObject(Hints(inline, contentId)))
  {
    HintsKept(inline, contentId);
    HintsAt(inline, contentId);
    HintsKeys(inline, contentId);
    var m := Hints(inline, contentId);
    assert Stripped(inline) == None && Stripped(contentId) == None ==> m == map[] by {
      if Stripped(inline) == None && Stripped(contentId) == None {
        assert "is_inline" !in m && "content_id" !in m;
        assert forall k :: k in m ==> k in {"is_inline", "content_id"};
        assert m.Keys == {};
      }
    }
    hide Hints, Stripped;
  }

  /** Main result: every column of the migrated link, and when there is one. */
  lemma LinkColumns(l: Legacy)
    ensures IsLinkFor(l, ToLink(l))
  {
    ContextValues(Get(l.metadata, "is_inline"), Get(l.metadata, "content_id"));
    hide IsContextFor, Hints, Get, LinkName, ToNumber;
  }

  /** One document for each legacy row. */
  ghost predicate DocumentsFor(legacy: LegacyTable, documents: map<int, Document>) {
    && (forall id :: id in legacy ==> exists d :: d in documents && documents[d].uuid == id)
    && (forall d, e :: d in documents && e in documents && documents[d].uuid == documents[e].uuid ==> d == e)
    && (forall d :: d in documents ==>
          documents[d].uuid in legacy && IsDocumentFor(legacy[documents[d].uuid], documents[d]))
  }

  predicate FileRowFor(legacy: LegacyTable, documents: map<int, Document>, row: FileRow, casts: Casts) {
    && row.document in documents && row.isPrimary && row.pageIndex == 0
    && documents[row.document].uuid in legacy && IsFileFor(legacy[documents[row.document].uuid], row.file, casts)
  }

  /** One file for each document, its primary one. */
  ghost predicate FilesFor(legacy: LegacyTable, documents: map<int, Document>, files: map<int, FileRow>, casts: Casts) {
    && (forall d :: d in documents ==> exists f :: f in files && files[f].document == d)
    && (forall f, g :: f in files && g in files && files[f].document == files[g].document ==> f == g)
    && (forall f :: f in files ==> FileRowFor(legacy, documents, files[f], casts))
  }

  predicate LinkRowFor(legacy: LegacyTable, documents: map<int, Document>, row: LinkRow) {
    && row.document in documents && row.role == "attachment"
    && documents[row.document].uuid in legacy && IsLinkFor(legacy[documents[row.document].uuid], Some(row.link))
  }

  /** One attachment for each document that has an owner to link. */
  ghost predicate LinksFor(legacy: LegacyTable, documents: map<int, Document>, links: map<int, LinkRow>) {
    && (forall k :: k in links ==> LinkRowFor(legacy, documents, links[k]))
    && (forall j, k :: j in links && k in links && links[j].document == links[k].document ==> j == k)
    && (forall d :: d in documents && documents[d].uuid in legacy && (forall k :: k in links ==> links[k].document != d)
          ==> IsLinkFor(legacy[documents[d].uuid], None))
  }

  lemma CopiedDocumentsMean(legacy: LegacyTable, documents: map<int, Document>, d: int)
    requires DocumentsCopied(legacy, documents) && d in documents
    ensures documents[d].uuid in legacy && IsDocumentFor(legacy[documents[d].uuid], documents[d])
  {
    assert IsDocumentOf(legacy, documents[d]);
    DocumentColumns(legacy[documents[d].uuid]);
    hide ToDocument, IsDocumentFor;
  }

  lemma CopiedFileMeans(legacy: LegacyTable, documents: map<int, Document>, row: FileRow, casts: Casts)
    requires IsFileOf(legacy, documents, row, casts)
    ensures FileRowFor(legacy, documents, row, casts)
  {
    FileColumns(legacy[documents[row.document].uuid], casts);
    hide ToFile, IsFileFor;
  }

  lemma CopiedLinksMean(legacy: LegacyTable, documents: map<int, Document>, links: map<int, LinkRow>)
    requires LinksCopied(legacy, documents, links)
    ensures LinksFor(legacy, documents, links)
  {
    hide ToLink, IsLinkFor;
    forall k | k in links ensures LinkRowFor(legacy, documents, links[k]) {
      assert IsLinkOf(legacy, documents, links[k]);
      LinkColumns(legacy[documents[links[k].document].uuid]);
    }
    forall d | d in documents && documents[d].uuid in legacy && (forall k :: k in links ==> links[k].document != d)
      ensures IsLinkFor(legacy[documents[d].uuid], None)
    {
      LinkColumns(legacy[documents[d].uuid]);
    }
  }

  lemma CopiedDocumentRows(legacy: LegacyTable, documents: map<int, Document>)
    requires DocumentsCopied(legacy, documents)
    ensures DocumentsFor(legacy, documents)
  {
    hide IsDocumentFor, IsDocumentOf;
    forall d | d in documents
      ensures documents[d].uuid in legacy && IsDocumentFor(legacy[documents[d].uuid], documents[d])
    {
      CopiedDocumentsMean(legacy, documents, d);
    }
  }

  lemma CopiedFileRows(legacy: LegacyTable, documents: map<int, Document>, files: map<int, FileRow>, casts: Casts)
    requires FilesCopied(legacy, documents, files, casts)
    ensures FilesFor(legacy, documents, files, casts)
  {
    hide FileRowFor, IsFileOf;
    forall f | f in files ensures FileRowFor(legacy, documents, files[f], casts) {
      CopiedFileMeans(legacy, documents, files[f], casts);
    }
  }

  /** What the copies leave is these rows. */
  lemma CopiedRows(legacy: LegacyTable, documents: map<int, Document>, files: map<int, FileRow>,
                   links: map<int, LinkRow>, casts: Casts)
    requires DocumentsCopied(legacy, documents) && FilesCopied(legacy, documents, files, casts)
    requires LinksCopied(legacy, documents, links)
    ensures DocumentsFor(legacy, documents) && FilesFor(legacy, documents, files, casts)
    ensures LinksFor(legacy, documents, links)
  {
    hide *;
    CopiedDocumentRows(legacy, documents);
    CopiedFileRows(legacy, documents, files, casts);
    CopiedLinksMean(legacy, documents, links);
  }

  // ---- the way down ----

  /** File `f` comes before file `g` of its document: the primary one first, then by page, then by id. */
  predicate FileBefore(files: map<int, FileRow>, f: int, g: int)
    requires f in files && g in files
  {
    if files[f].isPrimary != files[g].isPrimary then files[f].isPrimary
    else files[f].pageIndex < files[g].pageIndex || (files[f].pageIndex == files[g].pageIndex && f < g)
  }

  predicate FirstFile(files: map<int, FileRow>, f: int)
    requires f in files
  {
    forall g :: g in files && g != f && files[g].document == files[f].document ==> FileBefore(files, f, g)
  }

  /** The document's uuid goes to its first file. */
  lemma FirstFileKeepsUuid(files: map<int, FileRow>, f: int)
    requires f in files
    ensures KeepsUuid(files, f) <==> FirstFile(files, f)
  {
    var d := files[f].document;
    var ranks := FileRanks(files, d);
    assert f in ranks;
    forall g | g in files && g != f && files[g].document == d
      ensures g in ranks && (Precedes(ranks[f], f, ranks[g], g) <==> FileBefore(files, f, g))
    {
    }
    assert FirstFile(files, f) <==> IsFirst(ranks, f);
    if IsFirst(ranks, f) {
      OneFirst(ranks, f, First(ranks).value);
    }
  }

  /** A link's place among those of its document: attachments, then owners, then the rest, each by id. */
  predicate LinkBefore(links: map<int, LinkRow>, j: int, k: int)
    requires j in links && k in links
  {
    if (links[j].role == "attachment") != (links[k].role == "attachment") then links[j].role == "attachment"
    else if (links[j].role == "owner") != (links[k].role == "owner") then links[j].role == "owner"
    else j < k
  }

  /** The link a document is restored with: its first one, or none. */
  ghost predicate IsFirstLink(links: map<int, LinkRow>, d: int, link: Option<Link>) {
    if link.None? then forall k :: k in links ==> links[k].document != d
    else exists k :: k in links && links[k].document == d && links[k].link == link.value
                     && forall j :: j in links && j != k && links[j].document == d ==> LinkBefore(links, k, j)
  }

  lemma ChosenLinkIsFirst(links: map<int, LinkRow>, d: int)
    ensures IsFirstLink(links, d, ChosenLink(links, d))
  {
    var ranks := LinkRanks(links, d);
    var chosen := First(ranks);
    forall k | k in links && links[k].document == d ensures k in ranks {
    }
    if chosen.Some? {
      var k := chosen.value;
      forall j | j in links && j != k && links[j].document == d ensures LinkBefore(links, k, j) {
        assert Precedes(ranks[k], k, ranks[j], j);
      }
    }
  }

  /** The owner that a document's metadata keeps under `legacy`. */
  function KeptOwner(d: Document, key: string, casts: Casts): Option<string> {
    GetText(Get(Some(JObject(d.appMetadata)), "legacy"), key, casts.render)
  }

  predicate IsAmountOf(ocr: Option<Json>, amount: Option<real>, casts: Casts) {
    match Get(ocr, "scanned_amount")
    case None => amount == Some(0.0)
    case Some(JNumber(n)) => amount == Some(n)
    case Some(JNull) => amount == Some(0.0)
    case Some(JString(text)) => amount == if text == "" then Some(0.0) else Some(casts.parse(text))
    case Some(other) =>
      amount == if casts.render(other) == "" then Some(0.0) else Some(casts.parse(casts.render(other)))
  }

  predicate IsMetadataOf(f: File, link: Option<Link>, metadata: Option<Json>) {
    var context := if link.Some? then link.value.context else None;
    var inline, contentId := Stripped(Get(context, "is_inline")), Stripped(Get(context, "content_id"));
    if f.provider != "local_disk" && inline == None && contentId == None then metadata == None
    else
      && metadata.Some? && metadata.value.JObject?
      && metadata.value.fields.Keys <= {"is_inline", "content_id", "local_path"}
      && Get(metadata, "is_inline") == inline && Get(metadata, "content_id") == contentId
      && Get(metadata, "local_path") == if f.provider == "local_disk" then Some(JString(f.key)) else None
  }

  /** The legacy row, under `id`, of file `f` of document `d`, restored with `link`. */
  predicate IsRowFor(id: string, d: Document, f: File, link: Option<Link>, r: Legacy, casts: Casts) {
    && r.id == id
    && (if link.Some?
        then r.ownerType == Some(Camel(link.value.ownerType)) && r.ownerId == Some(IntText(link.value.ownerId))
        else && r.ownerType == KeptOwner(d, "documentable_type", casts)
             && r.ownerId == KeptOwner(d, "documentable_id", casts))
    && r.fileName == f.fileName && r.fileType == Varchar(FileType(f.fileName), 50)
    && (r.fileSize == if f.sizeBytes.Some? then f.sizeBytes.value else 0) && r.mimeType == f.mimeType
    && r.zohoId == f.zohoId && r.folderId == f.folderId && r.folderName == f.folderName
    && (r.status == if d.status in {"active", "suspended", "archived"} then d.status else "active")
    && r.documentStatus == Some("uploaded") && r.isActive == Some(d.deactivatedAt == None)
    && r.isVerified == Some(d.isVerified) && r.isBlocked == Some(d.status == "suspended") && r.isVisible == Some(true)
    && r.displayOrder == Some(if link.Some? then link.value.sortOrder else 0)
    && r.s3Bucket == f.bucket && (r.s3Key == if f.provider == "local_disk" then None else Some(f.key))
    && r.s3Version == f.storageVersion && r.s3Region == f.region && r.s3Class == f.storageClass
    && r.s3Etag == f.etag && r.s3Metadata == f.storageMetadata && r.processingStatus == Some(f.processingStatus)
    && r.processingResults == Get(f.processingResults, "legacy_results")
    && r.extractedText == Get(f.processingResults, "extracted_text")
    && IsAmountOf(d.ocr, r.scannedAmount, casts) && r.vendorName == GetText(d.ocr, "vendor_name", casts.render)
    && r.scannedDate == NonEmpty(GetText(d.ocr, "scanned_receipt_date", casts.render))
    && r.sha256 == f.sha256 && r.virusScanned == Some(f.virusScanned)
    && r.md5 == None && r.containsPii == None && r.accessPermissions == None && r.downloadCount == None
    && r.version == None && r.revision == None && r.versionHistory == None
    && IsMetadataOf(f, link, r.metadata)
    && (r.uploadedById == if f.uploadedBy.Some? then Some(IntText(f.uploadedBy.value)) else None)
    && r.appMetadata == d.appMetadata - {"legacy"} && r.createdAt == f.createdAt && r.updatedAt == f.updatedAt
    && (r.deletedAt == if f.deletedAt.Some? then f.deletedAt else d.deletedAt) && r.rowVersion == d.rowVersion
  }

  lemma RestoredMetadataValues(f: File, link: Option<Link>)
    ensures IsMetadataOf(f, link, RestoredMetadata(f, link))
  {
    MetadataKept(f, link);
    RestoredMetadataKeys(f, link);
    var m := RestoredMetadata(f, link);
    if m.Some? {
      var k :| k in m.value.fields;
      assert Get(m, k).Some?;
    }
    hide RestoredMetadata, Stripped;
  }

  lemma AmountValue(ocr: Option<Json>, casts: Casts)
    ensures IsAmountOf(ocr, Some(Amount(ocr, casts)), casts)
  {
  }

  /** Main result: every column of a restored row, from the document's, the file's and the link's. */
  lemma RowColumns(id: string, d: Document, f: File, link: Option<Link>, casts: Casts)
    ensures IsRowFor(id, d, f, link, Restore(id, d, f, link, casts), casts)
  {
    RestoredMetadataValues(f, link);
    AmountValue(d.ocr, casts);
    hide RestoredMetadata, Amount, IsMetadataOf, IsAmountOf, FileType, Camel, Get, Varchar;
  }

  /** The restored row of file `f`: under its document's uuid if it is the first one, else under its drawn id. */
  ghost predicate RestoredRowFor(documents: map<int, Document>, files: map<int, FileRow>, links: map<int, LinkRow>,
                                 drawn: map<int, string>, casts: Casts, f: int, id: string, r: Legacy)
    requires f in files
  {
    var d := files[f].document;
    && d in documents && f in drawn && id == (if FirstFile(files, f) then documents[d].uuid else drawn[f])
    && exists link :: IsFirstLink(links, d, link) && IsRowFor(id, documents[d], files[f].file, link, r, casts)
  }

  ghost predicate HoldsRow(documents: map<int, Document>, files: map<int, FileRow>, links: map<int, LinkRow>,
                           drawn: map<int, string>, casts: Casts, legacy: map<string, Legacy>, f: int, id: string)
  {
    f in files && id in legacy && RestoredRowFor(documents, files, links, drawn, casts, f, id, legacy[id])
  }

  /** The legacy table holds one such row for each file, and no other. */
  ghost predicate RowsFor(documents: map<int, Document>, files: map<int, FileRow>, links: map<int, LinkRow>,
                          drawn: map<int, string>, casts: Casts, legacy: map<string, Legacy>)
  {
    && (forall f :: f in files ==> exists id :: HoldsRow(documents, files, links, drawn, casts, legacy, f, id))
    && (forall id :: id in legacy ==> exists f :: HoldsRow(documents, files, links, drawn, casts, legacy, f, id))
  }

  lemma RestoredRowMeans(documents: map<int, Document>, files: map<int, FileRow>, links: map<int, LinkRow>,
                         drawn: map<int, string>, casts: Casts, f: int)
    requires f in files && files[f].document in documents && f in drawn
    ensures RestoredRowFor(documents, files, links, drawn, casts, f, RestoredId(documents, files, drawn, f),
                           RestoredRow(documents, files, links, drawn, casts, f))
  {
    var d := files[f].document;
    FirstFileKeepsUuid(files, f);
    ChosenLinkIsFirst(links, d);
    RowColumns(RestoredId(documents, files, drawn, f), documents[d], files[f].file, ChosenLink(links, d), casts);
    hide Restore, IsRowFor, IsFirstLink, FirstFile, KeepsUuid, ChosenLink;
  }

  lemma RestoredAt(documents: map<int, Document>, files: map<int, FileRow>, links: map<int, LinkRow>,
                   drawn: map<int, string>, casts: Casts, legacy: map<string, Legacy>, f: int) returns (id: string)
    requires FreshIds(drawn, documents, files) && FilesOwned(documents, files) && f in files
    requires Inserted(legacy, RestoredIds(documents, files, drawn),
                      RestoredRows(documents, files, links, drawn, casts), files.Keys)
    ensures id == RestoredIds(documents, files, drawn)[f]
    ensures HoldsRow(documents, files, links, drawn, casts, legacy, f, id)
  {
    id := RestoredIds(documents, files, drawn)[f];
    RestoredRowMeans(documents, files, links, drawn, casts, f);
    hide RestoredRowFor, RestoredRow, RestoredId, FreshIds;
    assert f in files.Keys;
  }

  /** Main result: the way down leaves exactly these rows. */
  lemma RestoredRowsMean(documents: map<int, Document>, files: map<int, FileRow>, links: map<int, LinkRow>,
                         drawn: map<int, string>, casts: Casts, legacy: map<string, Legacy>)
    requires FreshIds(drawn, documents, files) && FilesOwned(documents, files)
    requires Inserted(legacy, RestoredIds(documents, files, drawn),
                      RestoredRows(documents, files, links, drawn, casts), files.Keys)
    ensures RowsFor(documents, files, links, drawn, casts, legacy)
  {
    hide HoldsRow, RestoredIds, RestoredRows, FreshIds, FilesOwned, Inserted;
    forall f | f in files ensures exists id :: HoldsRow(documents, files, links, drawn, casts, legacy, f, id) {
      var id := RestoredAt(documents, files, links, drawn, casts, legacy, f);
    }
    forall id | id in legacy ensures exists f :: HoldsRow(documents, files, links, drawn, casts, legacy, f, id) {
      var f := FileOfRow(documents, files, links, drawn, casts, legacy, id);
      var same := RestoredAt(documents, files, links, drawn, casts, legacy, f);
    }
  }

  lemma FileOfRow(documents: map<int, Document>, files: map<int, FileRow>, links: map<int, LinkRow>,
                  drawn: map<int, string>, casts: Casts, legacy: map<string, Legacy>, id: string) returns (f: int)
    requires FreshIds(drawn, documents, files) && FilesOwned(documents, files)
    requires Inserted(legacy, RestoredIds(documents, files, drawn),
                      RestoredRows(documents, files, links, drawn, casts), files.Keys)
    requires id in legacy
    ensures f in files && RestoredIds(documents, files, drawn)[f] == id
  {
    var ids := RestoredIds(documents, files, drawn);
    f :| f in files.Keys && ids[f] == id;
  }

  // ---- what the legacy table refuses ----

  /** The row of this file does not fit a legacy column. */
  predicate TooWide(d: Document, f: File, link: Option<Link>, casts: Casts) {
    var size := if f.sizeBytes.Some? then f.sizeBytes.value else 0;
    var vendor := GetText(d.ocr, "vendor_name", casts.render);
    || size < -0x8000_0000 || size >= 0x8000_0000 || !FitsVarchar(FileType(f.fileName), 50)
    || (f.provider != "local_disk" && |f.key| > 500) || (vendor.Some? && |vendor.value| > 255)
    || (if link.Some? then |Camel(link.value.ownerType)| > 100 || |IntText(link.value.ownerId)| > 64
        else var ownerType, ownerId := KeptOwner(d, "documentable_type", casts), KeptOwner(d, "documentable_id", casts);
             (ownerType.Some? && |ownerType.value| > 100) || (ownerId.Some? && |ownerId.value| > 64))
  }

  lemma FitsIff(id: string, d: Document, f: File, link: Option<Link>, casts: Casts)
    ensures FitsLegacy(Restore(id, d, f, link, casts)) <==> !TooWide(d, f, link, casts)
  {
    RowColumns(id, d, f, link, casts);
    var r := Restore(id, d, f, link, casts);
    assert |Varchar(FileType(f.fileName), 50)| <= 50 <==> FitsVarchar(FileType(f.fileName), 50);
    hide Restore, IsMetadataOf, IsAmountOf, FileType, Camel, Varchar, FitsVarchar, GetText, KeptOwner, IntText;
  }

  /** Two files whose documents and themselves are live share a Zoho id. */
  predicate SameLiveZohoId(documents: map<int, Document>, files: map<int, FileRow>, f: int, g: int)
    requires f in files && g in files && files[f].document in documents && files[g].document in documents
  {
    && files[f].file.deletedAt.None? && documents[files[f].document].deletedAt.None?
    && files[g].file.deletedAt.None? && documents[files[g].document].deletedAt.None?
    && files[f].file.zohoId.Some? && files[f].file.zohoId == files[g].file.zohoId
  }

  lemma ZohoIdsIff(documents: map<int, Document>, files: map<int, FileRow>, links: map<int, LinkRow>,
                   drawn: map<int, string>, casts: Casts, f: int, g: int)
    requires FilesOwned(documents, files) && files.Keys <= drawn.Keys && f in files && g in files
    ensures var rows := RestoredRows(documents, files, links, drawn, casts);
      SameZohoId(rows[f], rows[g]) <==> SameLiveZohoId(documents, files, f, g)
  {
    var d, e := files[f].document, files[g].document;
    RowColumns(RestoredId(documents, files, drawn, f), documents[d], files[f].file, ChosenLink(links, d), casts);
    RowColumns(RestoredId(documents, files, drawn, g), documents[e], files[g].file, ChosenLink(links, e), casts);
    hide Restore, IsMetadataOf, IsAmountOf, FileType, Camel, GetText, KeptOwner, IntText, ChosenLink, RestoredId;
  }

  /** The row of file `f` is not too wide, whichever link its document is restored with: there is only one. */
  ghost predicate FileFits(documents: map<int, Document>, files: map<int, FileRow>, links: map<int, LinkRow>,
                           casts: Casts, f: int)
    requires f in files && files[f].document in documents
  {
    forall link :: IsFirstLink(links, files[f].document, link) ==>
      !TooWide(documents[files[f].document], files[f].file, link, casts)
  }

  lemma FileFitsIff(documents: map<int, Document>, files: map<int, FileRow>, links: map<int, LinkRow>,
                    drawn: map<int, string>, casts: Casts, f: int)
    requires FilesOwned(documents, files) && files.Keys <= drawn.Keys && f in files
    ensures FitsLegacy(RestoredRows(documents, files, links, drawn, casts)[f])
       <==> FileFits(documents, files, links, casts, f)
  {
    var d := files[f].document;
    FitsIff(RestoredId(documents, files, drawn, f), documents[d], files[f].file, ChosenLink(links, d), casts);
    ChosenLinkIsFirst(links, d);
    forall link | IsFirstLink(links, d, link) ensures link == ChosenLink(links, d) {
      OneFirstLink(links, d, link, ChosenLink(links, d));
    }
    hide Restore, FitsLegacy, TooWide, IsFirstLink, ChosenLink, RestoredId;
  }

  /** Main result: the legacy table takes the restored rows exactly if each fits and no live Zoho id occurs twice. */
  lemma TakenIff(documents: map<int, Document>, files: map<int, FileRow>, links: map<int, LinkRow>,
                 drawn: map<int, string>, casts: Casts)
    requires FreshIds(drawn, documents, files) && FilesOwned(documents, files)
    ensures TakesRows(RestoredRows(documents, files, links, drawn, casts))
       <==> && (forall f :: f in files ==> FileFits(documents, files, links, casts, f))
            && (forall f, g :: f in files && g in files && f != g ==> !SameLiveZohoId(documents, files, f, g))
  {
    AllFitIff(documents, files, links, drawn, casts);
    ZohoIdsUniqueIff(documents, files, links, drawn, casts);
    hide RestoredRows, UniqueZohoIds, SameLiveZohoId, FitsLegacy, FileFits;
  }

  lemma AllFitIff(documents: map<int, Document>, files: map<int, FileRow>, links: map<int, LinkRow>,
                  drawn: map<int, string>, casts: Casts)
    requires FilesOwned(documents, files) && files.Keys <= drawn.Keys
    ensures var rows := RestoredRows(documents, files, links, drawn, casts);
      (forall f :: f in rows ==> FitsLegacy(rows[f]))
      <==> forall f :: f in files ==> FileFits(documents, files, links, casts, f)
  {
    var rows := RestoredRows(documents, files, links, drawn, casts);
    assert rows.Keys == files.Keys;
    hide RestoredRows, FitsLegacy, FileFits;
    forall f | f in files ensures f in rows && (FitsLegacy(rows[f]) <==> FileFits(documents, files, links, casts, f)) {
      FileFitsIff(documents, files, links, drawn, casts, f);
    }
  }

  lemma ZohoIdsUniqueIff(documents: map<int, Document>, files: map<int, FileRow>, links: map<int, LinkRow>,
                         drawn: map<int, string>, casts: Casts)
    requires FilesOwned(documents, files) && files.Keys <= drawn.Keys
    ensures UniqueZohoIds(RestoredRows(documents, files, links, drawn, casts))
       <==> forall f, g :: f in files && g in files && f != g ==> !SameLiveZohoId(documents, files, f, g)
  {
    var rows := RestoredRows(documents, files, links, drawn, casts);
    assert rows.Keys == files.Keys;
    hide RestoredRows, SameZohoId, SameLiveZohoId, FilesOwned;
    if UniqueZohoIds(rows) {
      forall f, g | f in files && g in files && f != g ensures !SameLiveZohoId(documents, files, f, g) {
        ZohoIdsIff(documents, files, links, drawn, casts, f, g);
      }
    } else {
      var f, g :| f in rows && g in rows && SameZohoId(rows[f], rows[g]) && f != g;
      ZohoIdsIff(documents, files, links, drawn, casts, f, g);
    }
  }

  lemma OneFirstLink(links: map<int, LinkRow>, d: int, p: Option<Link>, q: Option<Link>)
    requires IsFirstLink(links, d, p) && IsFirstLink(links, d, q)
    ensures p == q
  {
  }
}
