/**
 * One legacy document row, the document, file and link it becomes, and the way back.
 * Copied audit columns other than the ones named here are left out.
 */
module DocumentRows {
  import opened Basics
  import opened Decimals
  import opened Json
  import opened OwnerNames

  /** The text of a timestamp: never empty. */
  type Stamp = s: string | s != "" witness "-"

  /** The text of a uuid: 36 characters, a dash after the first eight. */
  predicate IsUuid(s: string) {
    |s| == 36 && s[8] == '-'
  }

  /** The database's own conversions: a JSON value to text, and text to a number. */
  datatype Casts = Casts(render: Rendering, parse: string -> real)

  /** A row of the old `documents` table; times are ordinals. */
  datatype Legacy = Legacy(
    id: string, ownerType: Option<string>, ownerId: Option<string>,
    fileName: string, fileType: string, fileSize: int, mimeType: Option<string>,
    zohoId: Option<string>, folderId: Option<string>, folderName: Option<string>,
    status: string, documentStatus: Option<string>,
    isActive: Option<bool>, isVerified: Option<bool>, isBlocked: Option<bool>, isVisible: Option<bool>,
    displayOrder: Option<int>,
    s3Bucket: Option<string>, s3Key: Option<string>, s3Version: Option<string>, s3Region: Option<string>,
    s3Class: Option<string>, s3Etag: Option<string>, s3Metadata: Option<Json>,
    processingStatus: Option<string>, processingResults: Option<Json>, extractedText: Option<Json>,
    scannedAmount: Option<real>, vendorName: Option<string>, scannedDate: Option<Stamp>,
    md5: Option<string>, sha256: Option<string>, virusScanned: Option<bool>,
    containsPii: Option<bool>, accessPermissions: Option<Json>, downloadCount: Option<int>,
    version: Option<string>, revision: Option<int>, versionHistory: Option<Json>,
    metadata: Option<Json>, uploadedById: Option<string>, appMetadata: Object,
    createdAt: int, updatedAt: int, deletedAt: Option<int>, rowVersion: int)

  datatype Document = Document(
    uuid: string, status: string, verificationStatus: string, isVerified: bool, verifiedAt: Option<int>,
    deactivatedAt: Option<int>, deactivationReason: Option<string>, ocr: Option<Json>, appMetadata: Object,
    createdAt: int, updatedAt: int, deletedAt: Option<int>, rowVersion: int)

  datatype File = File(
    fileName: string, mimeType: Option<string>, sizeBytes: Option<int>, sha256: Option<string>,
    provider: string, key: string, bucket: Option<string>, region: Option<string>, storageClass: Option<string>,
    storageVersion: Option<string>, etag: Option<string>, storageMetadata: Option<Json>,
    virusScanned: bool, processingStatus: string, processingResults: Option<Json>,
    uploadedBy: Option<int>, uploadedAt: int,
    zohoId: Option<string>, folderId: Option<string>, folderName: Option<string>,
    createdAt: int, updatedAt: int, deletedAt: Option<int>)

  datatype Link = Link(ownerType: string, ownerId: int, sortOrder: int, context: Option<Json>)

  const LOCAL_DISK := "local_disk"
  const S3 := "s3"
  const INACTIVE := "Migrated from the legacy documents table: was inactive"

  // ---- the way up ----

  function BoolField(v: Option<bool>): Json {
    if v.Some? then JBool(v.value) else JNull
  }

  function NumberField(v: Option<int>): Json {
    if v.Some? then JNumber(v.value as real) else JNull
  }

  /** Columns with no home in the new tables. */
  function HomelessColumns(l: Legacy): Object {
    map[
      "document_status" := TextField(l.documentStatus), "is_visible" := BoolField(l.isVisible),
      "display_order" := NumberField(l.displayOrder), "contains_pii" := BoolField(l.containsPii),
      "access_permissions" := Field(l.accessPermissions), "download_count" := NumberField(l.downloadCount),
      "version" := TextField(l.version), "revision" := NumberField(l.revision),
      "version_history" := Field(l.versionHistory), "checksum_md5" := TextField(l.md5),
      "metadata" := Field(l.metadata),
      "documentable_type" := TextField(l.ownerType), "documentable_id" := TextField(l.ownerId)]
  }

  /** The same without nulls, as they are kept in the new document's metadata. */
  function Homeless(l: Legacy): Object {
    StripObject(HomelessColumns(l))
  }

  predicate KnownStatus(s: string) {
    s == "active" || s == "suspended" || s == "archived"
  }

  predicate HasOcr(l: Legacy) {
    l.vendorName.Some? || l.scannedAmount.GetOr(0.0) != 0.0 || l.scannedDate.Some?
  }

  function Ocr(l: Legacy): Object {
    StripObject(map[
      "vendor_name" := TextField(l.vendorName),
      "scanned_amount" := if l.scannedAmount.GetOr(0.0) != 0.0 then JNumber(l.scannedAmount.value) else JNull,
      "scanned_receipt_date" := if l.scannedDate.Some? then JString(l.scannedDate.value) else JNull])
  }

  function NewStatus(l: Legacy): string {
    if l.isBlocked.GetOr(false) then "suspended" else if KnownStatus(l.status) then l.status else "active"
  }

  function ToDocument(l: Legacy): Document {
    var verified := l.isVerified.GetOr(false);
    Document(
      l.id, NewStatus(l),
      if verified then "verified" else "uploaded", verified, if verified then Some(l.updatedAt) else None,
      if l.isActive == Some(false) then Some(l.updatedAt) else None,
      if l.isActive == Some(false) then Some(INACTIVE) else None,
      if HasOcr(l) then Some(JObject(Ocr(l))) else None,
      l.appMetadata + (if Homeless(l) == map[] then map[] else map["legacy" := JObject(Homeless(l))]),
      l.createdAt, l.updatedAt, l.deletedAt, l.rowVersion)
  }

  predicate IsSha256(s: string) {
    |s| == 64 && forall i :: 0 <= i < 64 ==> IsDigit(s[i]) || 'a' <= ToLower(s[i]) <= 'f'
  }

  function LocalPath(l: Legacy, casts: Casts): Option<string> {
    NonEmpty(GetText(l.metadata, "local_path", casts.render))
  }

  function StoredHash(l: Legacy): Option<string> {
    if l.sha256.Some? && IsSha256(l.sha256.value) then Some(Lower(l.sha256.value)) else None
  }

  /** The object key of a file that is not on a local disk. */
  function ObjectKey(l: Legacy): string {
    NonEmpty(l.s3Key).GetOr("legacy-missing/" + l.id)
  }

  function StoredUploader(l: Legacy): Option<int> {
    if l.uploadedById.Some? && IsNumeric(l.uploadedById.value) then Some(ToNumber(l.uploadedById.value)) else None
  }

  function ProcessingStatus(s: Option<string>): string {
    var t := Lower(s.GetOr(""));
    if t == "processing" then "processing"
    else if t == "done" || t == "completed" || t == "processed" then "done"
    else if t == "failed" || t == "error" then "failed"
    else "pending"
  }

  function Results(l: Legacy): Option<Json> {
    if l.processingResults.Some? || l.extractedText.Some?
    then Some(JObject(StripObject(map[
      "legacy_results" := Field(l.processingResults), "extracted_text" := Field(l.extractedText)])))
    else None
  }

  function ToFile(l: Legacy, casts: Casts): File {
    var path := LocalPath(l, casts);
    File(
      l.fileName, l.mimeType, Some(l.fileSize), StoredHash(l),
      if path.Some? then LOCAL_DISK else S3, if path.Some? then path.value else ObjectKey(l),
      l.s3Bucket, l.s3Region, l.s3Class, l.s3Version, l.s3Etag, l.s3Metadata,
      l.virusScanned.GetOr(false), ProcessingStatus(l.processingStatus), Results(l),
      StoredUploader(l), l.createdAt, l.zohoId, l.folderId, l.folderName, l.createdAt, l.updatedAt, l.deletedAt)
  }

  /** A link is made for a named owner with a positive numeric id. */
  predicate Linkable(ownerType: Option<string>, ownerId: Option<string>) {
    && NonEmpty(ownerType).Some?
    && ownerId.Some? && IsNumeric(ownerId.value) && ToNumber(ownerId.value) > 0
  }

  function Hints(inline: Option<Json>, contentId: Option<Json>): Object {
    StripObject(map["is_inline" := Field(inline), "content_id" := Field(contentId)])
  }

  function ToLink(l: Legacy): Option<Link> {
    if Linkable(l.ownerType, l.ownerId) then
      Some(Link(LinkName(l.ownerType.value), ToNumber(l.ownerId.value), l.displayOrder.GetOr(0),
                NonEmptyObject(Hints(Get(l.metadata, "is_inline"), Get(l.metadata, "content_id")))))
    else None
  }

  // ---- the way down ----

  function IntText(n: int): string {
    if n < 0 then "-" + ToText(-n) else ToText(n)
  }

  /** The width of the legacy file type. */
  const TYPE_WIDTH := 50

  /** What follows the last dot of a name. */
  function AfterLastDot(s: string): Option<string> {
    if s == "" then None
    else if s[|s| - 1] == '.' then Some("")
    else
      var rest := AfterLastDot(s[..|s| - 1]);
      if rest.Some? then Some(rest.value + [s[|s| - 1]]) else None
  }

  /** `COALESCE(lower(substring(file_name FROM '\.([^.]+)$')), 'bin')` */
  function FileType(fileName: string): string {
    var extension := NonEmpty(AfterLastDot(fileName));
    if extension.Some? then Lower(extension.value) else "bin"
  }

  /** The file type is the extension: what follows the last dot, if anything does. */
  lemma {:induction false} ExtensionFound(stem: string, extension: string)
    requires '.' !in extension
    ensures AfterLastDot(stem + "." + extension) == Some(extension)
    ensures FileType(stem + "." + extension) == if extension == "" then "bin" else Lower(extension)
    decreases |extension|
  {
    var s := stem + "." + extension;
    if extension != "" {
      var init := extension[..|extension| - 1];
      ExtensionFound(stem, init);
      assert s[..|s| - 1] == stem + "." + init;
      assert init + [extension[|extension| - 1]] == extension;
    }
  }

  /** A name without a dot has no extension. */
  lemma {:induction false} NoExtension(name: string)
    requires '.' !in name
    ensures AfterLastDot(name) == None && FileType(name) == "bin"
    decreases |name|
  {
    if name != "" {
      NoExtension(name[..|name| - 1]);
    }
  }

  /** The text of a number is cast back to that number. */
  function Amount(ocr: Option<Json>, casts: Casts): real {
    match Get(ocr, "scanned_amount")
    case Some(JNumber(n)) => n
    case _ =>
      var text := NonEmpty(GetText(ocr, "scanned_amount", casts.render));
      if text.Some? then casts.parse(text.value) else 0.0
  }

  /** The owner column: the link's, else the text kept in the document's metadata. */
  function OwnerColumn(linked: Option<string>, d: Document, key: string, casts: Casts): Option<string> {
    if linked.Some? then linked else GetText(Get(Some(JObject(d.appMetadata)), "legacy"), key, casts.render)
  }

  function RestoredMetadata(f: File, link: Option<Link>): Option<Json> {
    var context := if link.Some? then link.value.context else None;
    NonEmptyObject(StripObject(map[
      "is_inline" := Field(Get(context, "is_inline")), "content_id" := Field(Get(context, "content_id")),
      "local_path" := if f.provider == LOCAL_DISK then JString(f.key) else JNull]))
  }

  /** The legacy row of file `f` of document `d`; `id` is the document's uuid for its first file. */
  function Restore(id: string, d: Document, f: File, link: Option<Link>, casts: Casts): Legacy {
    var date := NonEmpty(GetText(d.ocr, "scanned_receipt_date", casts.render));
    Legacy(
      id,
      OwnerColumn(if link.Some? then Some(Camel(link.value.ownerType)) else None, d, "documentable_type", casts),
      OwnerColumn(if link.Some? then Some(IntText(link.value.ownerId)) else None, d, "documentable_id", casts),
      f.fileName, Varchar(FileType(f.fileName), TYPE_WIDTH), f.sizeBytes.GetOr(0), f.mimeType,
      f.zohoId, f.folderId, f.folderName,
      if KnownStatus(d.status) then d.status else "active", Some("uploaded"),
      Some(d.deactivatedAt.None?), Some(d.isVerified), Some(d.status == "suspended"), Some(true),
      Some(if link.Some? then link.value.sortOrder else 0),
      f.bucket, if f.provider == LOCAL_DISK then None else Some(f.key), f.storageVersion, f.region,
      f.storageClass, f.etag, f.storageMetadata,
      Some(f.processingStatus), Get(f.processingResults, "legacy_results"), Get(f.processingResults, "extracted_text"),
      Some(Amount(d.ocr, casts)), GetText(d.ocr, "vendor_name", casts.render),
      if date.Some? then Some(date.value) else None,
      None, f.sha256, Some(f.virusScanned), None, None, None, None, None, None,
      RestoredMetadata(f, link), if f.uploadedBy.Some? then Some(IntText(f.uploadedBy.value)) else None,
      d.appMetadata - {"legacy"}, f.createdAt, f.updatedAt,
      if f.deletedAt.Some? then f.deletedAt else d.deletedAt, d.rowVersion)
  }

  /** Down after up, for the document's only file. */
  function RoundTrip(l: Legacy, casts: Casts): Legacy {
    Restore(l.id, ToDocument(l), ToFile(l, casts), ToLink(l), casts)
  }

  // ---- the new tables' constraints ----

  /** The CHECKs of `documents` on the columns the migration fills. */
  predicate MeetsDocumentChecks(d: Document) {
    && KnownStatus(d.status) && d.isVerified == (d.verificationStatus == "verified")
    && d.verificationStatus in {"not_uploaded", "pending_upload", "uploaded", "in_review", "verified", "rejected",
                                "expired", "resubmission_required"}
  }

  /** The CHECKs of `document_files`. */
  predicate MeetsFileChecks(f: File) {
    && f.key != "" && f.provider in {"s3", "gcs", "azure_blob", "local_disk"}
    && f.processingStatus in {"pending", "processing", "done", "failed"}
    && (f.sizeBytes.Some? ==> f.sizeBytes.value >= 0)
  }

  /** The CHECK of `document_links` and the width of its owner name, its only column narrower than the legacy one. */
  predicate MeetsLinkChecks(k: Link) {
    k.ownerId > 0 && |k.ownerType| <= LINK_WIDTH
  }

  /** The owner of a link has a name that fits. */
  predicate OwnerNameFits(l: Legacy) {
    Linkable(l.ownerType, l.ownerId) ==> FitsVarchar(Snake(l.ownerType.value), 50)
  }

  /** Rows that can be migrated. */
  predicate Migratable(l: Legacy) {
    l.fileSize >= 0 && OwnerNameFits(l)
  }

  /** The legacy columns a restored row may be too wide for: each is as wide as the new column otherwise. */
  predicate FitsLegacy(l: Legacy) {
    && (l.ownerType.Some? ==> |l.ownerType.value| <= 100) && (l.ownerId.Some? ==> |l.ownerId.value| <= 64)
    && |l.fileType| <= TYPE_WIDTH && -0x8000_0000 <= l.fileSize < 0x8000_0000
    && (l.s3Key.Some? ==> |l.s3Key.value| <= 500) && (l.vendorName.Some? ==> |l.vendorName.value| <= 255)
  }

  /** Main result: a legacy row can be migrated exactly when its size is not negative and its link's name fits. */
  lemma MigratedRowsMeetChecksIff(l: Legacy, casts: Casts)
    ensures MeetsDocumentChecks(ToDocument(l))
    ensures MeetsFileChecks(ToFile(l, casts)) <==> l.fileSize >= 0
    ensures (ToLink(l).Some? ==> MeetsLinkChecks(ToLink(l).value)) <==> OwnerNameFits(l)
  {
    assert |"legacy-missing/" + l.id| > 0;
    DocumentMeetsChecks(l);
    hide ToDocument, MeetsDocumentChecks, Results, StoredHash, StoredUploader, Snake;
  }

  lemma DocumentMeetsChecks(l: Legacy)
    ensures MeetsDocumentChecks(ToDocument(l))
  {
    assert |"verified"| == 8 && "uploaded"[0] != "verified"[0];
    hide Homeless, Ocr;
  }

  // ---- what comes back ----

  lemma RestoredExactly(l: Legacy, casts: Casts)
    ensures var r := RoundTrip(l, casts);
      && r.id == l.id && r.fileName == l.fileName && r.fileSize == l.fileSize && r.mimeType == l.mimeType
      && r.zohoId == l.zohoId && r.folderId == l.folderId && r.folderName == l.folderName
      && r.s3Bucket == l.s3Bucket && r.s3Version == l.s3Version && r.s3Region == l.s3Region
      && r.s3Class == l.s3Class && r.s3Etag == l.s3Etag && r.s3Metadata == l.s3Metadata
      && r.createdAt == l.createdAt && r.updatedAt == l.updatedAt && r.deletedAt == l.deletedAt
      && r.rowVersion == l.rowVersion
  {
  }

  /** A JSON column that survives being stored as a member of a stripped object. */
  predicate Survives(v: Option<Json>) {
    v.Some? ==> v.value != JNull && NullFree(v.value)
  }

  function Stripped(v: Option<Json>): Option<Json> {
    if v == None || v == Some(JNull) then None else Some(StripNulls(v.value))
  }

  lemma StrippedIff(v: Option<Json>)
    ensures Stripped(v) == v <==> Survives(v)
    ensures Stripped(Stripped(v)) == Stripped(v)
  {
    if v.Some? {
      StripIff(v.value);
      StripTwice(v.value);
    }
  }

  lemma GetStripped(m: Object, key: string)
    ensures Get(Some(JObject(StripObject(m))), key)
         == if key in m then Stripped(Some(m[key])) else None
  {
  }

  lemma ResultsObject(l: Legacy)
    ensures Get(Results(l), "legacy_results") == Stripped(l.processingResults)
    ensures Get(Results(l), "extracted_text") == Stripped(l.extractedText)
  {
    var m: Object := map["legacy_results" := Field(l.processingResults), "extracted_text" := Field(l.extractedText)];
    GetStripped(m, "legacy_results");
    GetStripped(m, "extracted_text");
  }

  lemma RestoredResults(l: Legacy, casts: Casts)
    ensures RoundTrip(l, casts).processingResults == Stripped(l.processingResults)
    ensures RoundTrip(l, casts).extractedText == Stripped(l.extractedText)
  {
    ResultsObject(l);
  }

  /** Processing results and extracted text come back exactly when they hold no null. */
  lemma ResultsRestoredIff(l: Legacy, casts: Casts)
    ensures RoundTrip(l, casts).processingResults == l.processingResults <==> Survives(l.processingResults)
    ensures RoundTrip(l, casts).extractedText == l.extractedText <==> Survives(l.extractedText)
  {
    RestoredResults(l, casts);
    StrippedIff(l.processingResults);
    StrippedIff(l.extractedText);
  }

  lemma OcrObject(l: Legacy)
    ensures Get(Some(JObject(Ocr(l))), "vendor_name")
         == if l.vendorName.Some? then Some(JString(l.vendorName.value)) else None
    ensures Get(Some(JObject(Ocr(l))), "scanned_amount")
         == if l.scannedAmount.GetOr(0.0) != 0.0 then Some(JNumber(l.scannedAmount.value)) else None
    ensures Get(Some(JObject(Ocr(l))), "scanned_receipt_date")
         == if l.scannedDate.Some? then Some(JString(l.scannedDate.value)) else None
  {
    var m: Object := map[
      "vendor_name" := TextField(l.vendorName),
      "scanned_amount" := if l.scannedAmount.GetOr(0.0) != 0.0 then JNumber(l.scannedAmount.value) else JNull,
      "scanned_receipt_date" := if l.scannedDate.Some? then JString(l.scannedDate.value) else JNull];
    GetStripped(m, "vendor_name");
    GetStripped(m, "scanned_amount");
    GetStripped(m, "scanned_receipt_date");
  }

  lemma OcrColumn(l: Legacy)
    ensures var ocr := ToDocument(l).ocr;
      && Get(ocr, "vendor_name") == (if l.vendorName.Some? then Some(JString(l.vendorName.value)) else None)
      && Get(ocr, "scanned_amount")
         == (if l.scannedAmount.GetOr(0.0) != 0.0 then Some(JNumber(l.scannedAmount.value)) else None)
      && Get(ocr, "scanned_receipt_date")
         == (if l.scannedDate.Some? then Some(JString(l.scannedDate.value)) else None)
  {
    OcrObject(l);
  }

  /** The receipt columns read back from a document. */
  lemma ReadReceipt(id: string, d: Document, f: File, link: Option<Link>, casts: Casts,
                    vendor: Option<string>, amount: Option<real>, date: Option<Stamp>)
    requires Get(d.ocr, "vendor_name") == if vendor.Some? then Some(JString(vendor.value)) else None
    requires Get(d.ocr, "scanned_amount") == if amount.Some? then Some(JNumber(amount.value)) else None
    requires Get(d.ocr, "scanned_receipt_date") == if date.Some? then Some(JString(date.value)) else None
    ensures var r := Restore(id, d, f, link, casts);
      r.vendorName == vendor && r.scannedDate == date && r.scannedAmount == Some(amount.GetOr(0.0))
  {
  }

  /** The scanned receipt comes back; a missing amount comes back as zero. */
  lemma ReceiptRestored(l: Legacy, casts: Casts)
    ensures var r := RoundTrip(l, casts);
      && r.vendorName == l.vendorName && r.scannedDate == l.scannedDate
      && r.scannedAmount == Some(l.scannedAmount.GetOr(0.0))
  {
    OcrColumn(l);
    ReadReceipt(l.id, ToDocument(l), ToFile(l, casts), ToLink(l), casts, l.vendorName,
                if l.scannedAmount.GetOr(0.0) != 0.0 then l.scannedAmount else None, l.scannedDate);
  }

  lemma StatusRestoredIff(l: Legacy, casts: Casts)
    ensures RoundTrip(l, casts).status == l.status && RoundTrip(l, casts).isBlocked == l.isBlocked
       <==> KnownStatus(l.status) && l.isBlocked == Some(l.status == "suspended")
  {
  }

  /** A missing flag comes back as its default, and the order of a row without a link as zero. */
  lemma FlagsRestoredIff(l: Legacy, casts: Casts)
    ensures var r := RoundTrip(l, casts);
      && (r.isActive == l.isActive <==> l.isActive.Some?)
      && (r.isVerified == l.isVerified <==> l.isVerified.Some?)
      && (r.virusScanned == l.virusScanned <==> l.virusScanned.Some?)
      && (r.displayOrder == l.displayOrder
          <==> if Linkable(l.ownerType, l.ownerId) then l.displayOrder.Some? else l.displayOrder == Some(0))
  {
    hide Homeless, OwnerColumn, Amount, RestoredMetadata, Results;
    match l.isActive
    case None =>
    case Some(active) => if active { assert l.isActive == Some(true); } else { assert l.isActive == Some(false); }
  }

  lemma AppMetadataRestoredIff(l: Legacy, casts: Casts)
    ensures RoundTrip(l, casts).appMetadata == l.appMetadata <==> "legacy" !in l.appMetadata
  {
    hide Homeless, HomelessColumns, ToFile, ToLink, Amount, RestoredMetadata, OwnerColumn, Ocr;
    assert RoundTrip(l, casts).appMetadata == l.appMetadata - {"legacy"};
  }

  lemma UploaderRestoredIff(l: Legacy, casts: Casts)
    ensures RoundTrip(l, casts).uploadedById == l.uploadedById
       <==> (l.uploadedById.Some? ==> IsNumeric(l.uploadedById.value) && Canonical(l.uploadedById.value))
  {
    if l.uploadedById.Some? && IsNumeric(l.uploadedById.value) {
      TextOfNumberIff(l.uploadedById.value);
    }
  }

  lemma HashRestoredIff(l: Legacy, casts: Casts)
    ensures RoundTrip(l, casts).sha256 == l.sha256
       <==> (l.sha256.Some? ==> IsSha256(l.sha256.value) && Lower(l.sha256.value) == l.sha256.value)
  {
  }

  // ---- the owner ----

  lemma HomelessOwner(l: Legacy)
    ensures Get(Some(JObject(Homeless(l))), "documentable_type")
         == if l.ownerType.Some? then Some(JString(l.ownerType.value)) else None
    ensures Get(Some(JObject(Homeless(l))), "documentable_id")
         == if l.ownerId.Some? then Some(JString(l.ownerId.value)) else None
  {
  }

  /** The row's own `app_metadata.legacy`, which a row with no homeless column leaves in place. */
  function OwnText(l: Legacy, key: string, casts: Casts): Option<string> {
    GetText(Get(Some(JObject(l.appMetadata)), "legacy"), key, casts.render)
  }

  lemma LegacyMember(l: Legacy)
    ensures Get(Some(JObject(ToDocument(l).appMetadata)), "legacy")
         == if Homeless(l) != map[] then Some(JObject(Homeless(l))) else Get(Some(JObject(l.appMetadata)), "legacy")
  {
  }

  lemma OwnerFallback(l: Legacy, casts: Casts)
    ensures Homeless(l) != map[] ==>
              && OwnerColumn(None, ToDocument(l), "documentable_type", casts) == l.ownerType
              && OwnerColumn(None, ToDocument(l), "documentable_id", casts) == l.ownerId
    ensures Homeless(l) == map[] ==>
              && l.ownerType == None && l.ownerId == None
              && OwnerColumn(None, ToDocument(l), "documentable_type", casts) == OwnText(l, "documentable_type", casts)
              && OwnerColumn(None, ToDocument(l), "documentable_id", casts) == OwnText(l, "documentable_id", casts)
  {
    LegacyMember(l);
    HomelessOwner(l);
  }

  /**
   * Main result: the owner's class comes back exactly when it is in CamelCase, if a link carried it;
   * without a link it always comes back, except for a row with no homeless column whose own metadata
   * already holds a `legacy` owner.
   */
  lemma OwnerTypeRestoredIff(l: Legacy, casts: Casts)
    ensures RoundTrip(l, casts).ownerType == l.ownerType
       <==> if Linkable(l.ownerType, l.ownerId) then CamelCase(l.ownerType.value)
            else Homeless(l) == map[] ==> OwnText(l, "documentable_type", casts) == None
  {
    OwnerFallback(l, casts);
    if l.ownerType.Some? {
      LinkNameRestoredIff(l.ownerType.value);
    }
  }

  /** The owner's id comes back exactly when a linked one has no leading zero. */
  lemma OwnerIdRestoredIff(l: Legacy, casts: Casts)
    ensures RoundTrip(l, casts).ownerId == l.ownerId
       <==> if Linkable(l.ownerType, l.ownerId) then Canonical(l.ownerId.value)
            else Homeless(l) == map[] ==> OwnText(l, "documentable_id", casts) == None
  {
    OwnerFallback(l, casts);
    if Linkable(l.ownerType, l.ownerId) {
      TextOfNumberIff(l.ownerId.value);
    }
  }

  lemma KeptDisplay(l: Legacy)
    ensures Get(Some(JObject(Homeless(l))), "document_status") == Stripped(Some(TextField(l.documentStatus)))
    ensures Get(Some(JObject(Homeless(l))), "is_visible") == Stripped(Some(BoolField(l.isVisible)))
    ensures Get(Some(JObject(Homeless(l))), "display_order") == Stripped(Some(NumberField(l.displayOrder)))
  {
    GetStripped(HomelessColumns(l), "document_status");
    GetStripped(HomelessColumns(l), "is_visible");
    GetStripped(HomelessColumns(l), "display_order");
  }

  lemma KeptAccess(l: Legacy)
    ensures Get(Some(JObject(Homeless(l))), "contains_pii") == Stripped(Some(BoolField(l.containsPii)))
    ensures Get(Some(JObject(Homeless(l))), "access_permissions") == Stripped(l.accessPermissions)
    ensures Get(Some(JObject(Homeless(l))), "download_count") == Stripped(Some(NumberField(l.downloadCount)))
  {
    GetStripped(HomelessColumns(l), "contains_pii");
    GetStripped(HomelessColumns(l), "access_permissions");
    GetStripped(HomelessColumns(l), "download_count");
  }

  lemma KeptVersions(l: Legacy)
    ensures Get(Some(JObject(Homeless(l))), "version") == Stripped(Some(TextField(l.version)))
    ensures Get(Some(JObject(Homeless(l))), "revision") == Stripped(Some(NumberField(l.revision)))
    ensures Get(Some(JObject(Homeless(l))), "version_history") == Stripped(l.versionHistory)
  {
    GetStripped(HomelessColumns(l), "version");
    GetStripped(HomelessColumns(l), "revision");
    GetStripped(HomelessColumns(l), "version_history");
  }

  lemma KeptRaw(l: Legacy)
    ensures Get(Some(JObject(Homeless(l))), "checksum_md5") == Stripped(Some(TextField(l.md5)))
    ensures Get(Some(JObject(Homeless(l))), "metadata") == Stripped(l.metadata)
  {
    GetStripped(HomelessColumns(l), "checksum_md5");
    GetStripped(HomelessColumns(l), "metadata");
  }

  /** The kept object: every column with no home, JSON nulls aside. */
  lemma HomelessColumnsKept(l: Legacy)
    ensures Kept(Some(JObject(Homeless(l))), l)
  {
    KeptDisplay(l);
    KeptAccess(l);
    KeptVersions(l);
    KeptRaw(l);
    HomelessOwner(l);
    OwnerFields(l.ownerType);
    OwnerFields(l.ownerId);
    hide Homeless, Stripped, Get;
  }

  lemma OwnerFields(v: Option<string>)
    ensures Stripped(Some(TextField(v))) == if v.Some? then Some(JString(v.value)) else None
  {
  }

  /** `g` holds every column with no home, JSON nulls aside. */
  predicate Kept(g: Option<Json>, l: Legacy) {
    && Get(g, "document_status") == Stripped(Some(TextField(l.documentStatus)))
    && Get(g, "is_visible") == Stripped(Some(BoolField(l.isVisible)))
    && Get(g, "display_order") == Stripped(Some(NumberField(l.displayOrder)))
    && Get(g, "contains_pii") == Stripped(Some(BoolField(l.containsPii)))
    && Get(g, "access_permissions") == Stripped(l.accessPermissions)
    && Get(g, "download_count") == Stripped(Some(NumberField(l.downloadCount)))
    && Get(g, "version") == Stripped(Some(TextField(l.version)))
    && Get(g, "revision") == Stripped(Some(NumberField(l.revision)))
    && Get(g, "version_history") == Stripped(l.versionHistory)
    && Get(g, "checksum_md5") == Stripped(Some(TextField(l.md5)))
    && Get(g, "metadata") == Stripped(l.metadata)
    && Get(g, "documentable_type") == Stripped(Some(TextField(l.ownerType)))
    && Get(g, "documentable_id") == Stripped(Some(TextField(l.ownerId)))
  }

  /** Every column with no home is kept in the stored metadata; there is none to keep only if none was set. */
  lemma HomelessKept(l: Legacy)
    ensures Kept(Get(Some(JObject(ToDocument(l).appMetadata)), "legacy"), l) || Kept(None, l)
  {
    HomelessColumnsKept(l);
    LegacyMember(l);
    hide ToDocument, HomelessColumns, StripNulls;
    if Homeless(l) == map[] {
      assert forall k :: Get(Some(JObject(Homeless(l))), k) == Get(None, k);
    }
  }

  // ---- storage and hints ----

  lemma HintsKept(inline: Option<Json>, contentId: Option<Json>)
    ensures Get(NonEmptyObject(Hints(inline, contentId)), "is_inline") == Stripped(inline)
    ensures Get(NonEmptyObject(Hints(inline, contentId)), "content_id") == Stripped(contentId)
  {
    var m: Object := map["is_inline" := Field(inline), "content_id" := Field(contentId)];
    GetStripped(m, "is_inline");
    GetStripped(m, "content_id");
  }

  lemma MetadataKept(f: File, link: Option<Link>)
    ensures var context := if link.Some? then link.value.context else None;
      && Get(RestoredMetadata(f, link), "is_inline") == Stripped(Get(context, "is_inline"))
      && Get(RestoredMetadata(f, link), "content_id") == Stripped(Get(context, "content_id"))
      && Get(RestoredMetadata(f, link), "local_path") == if f.provider == LOCAL_DISK then Some(JString(f.key)) else None
  {
    var context := if link.Some? then link.value.context else None;
    var m: Object := map[
      "is_inline" := Field(Get(context, "is_inline")), "content_id" := Field(Get(context, "content_id")),
      "local_path" := if f.provider == LOCAL_DISK then JString(f.key) else JNull];
    GetStripped(m, "is_inline");
    GetStripped(m, "content_id");
    GetStripped(m, "local_path");
  }

  /** The local path comes back; the mail hints come back when a link carried them. */
  lemma MetadataRestored(l: Legacy, casts: Casts)
    ensures var r := RoundTrip(l, casts);
      && LocalPath(r, casts) == LocalPath(l, casts)
      && Get(r.metadata, "is_inline") == (if ToLink(l).Some? then Stripped(Get(l.metadata, "is_inline")) else None)
      && Get(r.metadata, "content_id") == (if ToLink(l).Some? then Stripped(Get(l.metadata, "content_id")) else None)
  {
    hide ToDocument, HomelessColumns, Amount, OwnerColumn, RestoredMetadata, Hints;
    MetadataKept(ToFile(l, casts), ToLink(l));
    HintsKept(Get(l.metadata, "is_inline"), Get(l.metadata, "content_id"));
    StrippedIff(Get(l.metadata, "is_inline"));
    StrippedIff(Get(l.metadata, "content_id"));
    assert LOCAL_DISK != S3;
  }

  lemma S3KeyRestoredIff(l: Legacy, casts: Casts)
    ensures RoundTrip(l, casts).s3Key == l.s3Key
       <==> if LocalPath(l, casts).Some? then l.s3Key == None else NonEmpty(l.s3Key).Some?
  {
    assert LOCAL_DISK != S3;
  }

  // ---- the normal form ----

  lemma FlagsRestored(l: Legacy, casts: Casts)
    ensures var r, d := RoundTrip(l, casts), ToDocument(l);
      && r.id == d.uuid && r.status == d.status && KnownStatus(d.status)
      && r.isBlocked == Some(d.status == "suspended") && r.isVerified == Some(d.isVerified)
      && r.isActive == Some(d.deactivatedAt.None?)
      && r.createdAt == l.createdAt && r.updatedAt == l.updatedAt && r.deletedAt == l.deletedAt
      && r.rowVersion == l.rowVersion
  {
  }

  lemma OcrNormal(l: Legacy, r: Legacy)
    requires r.vendorName == l.vendorName && r.scannedDate == l.scannedDate
    requires r.scannedAmount == Some(l.scannedAmount.GetOr(0.0))
    ensures HasOcr(r) == HasOcr(l) && Ocr(r) == Ocr(l)
  {
  }

  lemma SameDocument(l: Legacy, r: Legacy)
    requires HasOcr(r) == HasOcr(l) && Ocr(r) == Ocr(l)
    requires var d := ToDocument(l);
      && r.id == d.uuid && r.status == d.status && KnownStatus(d.status)
      && r.isBlocked == Some(d.status == "suspended") && r.isVerified == Some(d.isVerified)
      && r.isActive == Some(d.deactivatedAt.None?)
      && r.createdAt == l.createdAt && r.updatedAt == l.updatedAt && r.deletedAt == l.deletedAt
      && r.rowVersion == l.rowVersion
    ensures ToDocument(r).(appMetadata := map[]) == ToDocument(l).(appMetadata := map[])
  {
  }

  /** Main result: migrating what a downgrade restored gives the same document, metadata aside. */
  lemma DocumentNormal(l: Legacy, casts: Casts)
    ensures ToDocument(RoundTrip(l, casts)).(appMetadata := map[]) == ToDocument(l).(appMetadata := map[])
  {
    ReceiptRestored(l, casts);
    FlagsRestored(l, casts);
    OcrNormal(l, RoundTrip(l, casts));
    SameDocument(l, RoundTrip(l, casts));
  }

  lemma LowerTwice(s: string)
    ensures Lower(Lower(s)) == Lower(s)
  {
  }

  lemma HashNormal(l: Legacy, casts: Casts)
    ensures ToFile(RoundTrip(l, casts), casts).sha256 == ToFile(l, casts).sha256
  {
    if l.sha256.Some? {
      LowerTwice(l.sha256.value);
    }
  }

  lemma ProcessingStatusNormal(s: Option<string>)
    ensures ProcessingStatus(Some(ProcessingStatus(s))) == ProcessingStatus(s)
  {
    var t := ProcessingStatus(s);
    assert Lower(t) == t;
  }

  lemma UploaderNormal(l: Legacy, casts: Casts)
    ensures ToFile(RoundTrip(l, casts), casts).uploadedBy == ToFile(l, casts).uploadedBy
  {
    if l.uploadedById.Some? && IsNumeric(l.uploadedById.value) {
      NumericRoundTrip(l.uploadedById.value);
    }
  }

  lemma StorageNormal(l: Legacy, casts: Casts)
    ensures var r, f := ToFile(RoundTrip(l, casts), casts), ToFile(l, casts);
      r.provider == f.provider && r.key == f.key
  {
    hide ToDocument, Homeless, Amount, OwnerColumn, RestoredMetadata, Hints;
    MetadataRestored(l, casts);
    assert LOCAL_DISK != S3;
    assert |"legacy-missing/" + l.id| > 0;
  }

  /** Main result: the file is the same again in every column but its processing results. */
  lemma FileNormal(l: Legacy, casts: Casts)
    ensures var r, f := ToFile(RoundTrip(l, casts), casts), ToFile(l, casts);
      r.(processingResults := None) == f.(processingResults := None)
  {
    HashNormal(l, casts);
    ProcessingStatusNormal(l.processingStatus);
    UploaderNormal(l, casts);
    StorageNormal(l, casts);
  }

  /** Results are stored, but as JSON nulls only. */
  predicate OnlyNullResults(l: Legacy) {
    && (l.processingResults.Some? || l.extractedText.Some?)
    && Stripped(l.processingResults) == None && Stripped(l.extractedText) == None
  }

  /** Stored results are the same object exactly when both members are the same. */
  lemma SameResults(l: Legacy, r: Legacy)
    ensures Results(l).Some? && Results(r).Some? ==>
      (Results(l) == Results(r)
       <==> && Stripped(l.processingResults) == Stripped(r.processingResults)
            && Stripped(l.extractedText) == Stripped(r.extractedText))
  {
    hide Stripped, StripObject, Results;
    ResultsObject(l);
    ResultsObject(r);
    if Results(l).Some? && Results(r).Some?
       && Stripped(l.processingResults) == Stripped(r.processingResults)
       && Stripped(l.extractedText) == Stripped(r.extractedText) {
      ResultsKeys(l);
      ResultsKeys(r);
      var a, b := Results(l).value.fields, Results(r).value.fields;
      assert forall k :: k in a ==> k in b && b[k] == a[k];
      assert a == b;
    }
  }

  lemma ResultsKeys(l: Legacy)
    ensures Results(l).Some? ==>
      && Results(l).value.JObject?
      && Results(l).value.fields.Keys <= {"legacy_results", "extracted_text"}
  {
  }

  /** The processing results are the same again, unless they were JSON nulls: then `{}` becomes NULL. */
  lemma ResultsNormalIff(l: Legacy, casts: Casts)
    ensures Results(RoundTrip(l, casts)) == Results(l) <==> !OnlyNullResults(l)
  {
    var r := RoundTrip(l, casts);
    RestoredResults(l, casts);
    StrippedIff(l.processingResults);
    StrippedIff(l.extractedText);
    ResultsObject(l);
    ResultsObject(r);
    SameResults(l, r);
  }

  lemma HintsKeys(inline: Option<Json>, contentId: Option<Json>)
    ensures Hints(inline, contentId).Keys <= {"is_inline", "content_id"}
  {
  }

  lemma HintsAt(inline: Option<Json>, contentId: Option<Json>)
    ensures Get(Some(JObject(Hints(inline, contentId))), "is_inline") == Stripped(inline)
    ensures Get(Some(JObject(Hints(inline, contentId))), "content_id") == Stripped(contentId)
  {
    HintsKept(inline, contentId);
  }

  lemma HintsNormal(inline: Option<Json>, contentId: Option<Json>)
    ensures Hints(Stripped(inline), Stripped(contentId)) == Hints(inline, contentId)
  {
    StrippedIff(inline);
    StrippedIff(contentId);
    HintsAt(inline, contentId);
    HintsAt(Stripped(inline), Stripped(contentId));
    HintsKeys(inline, contentId);
    HintsKeys(Stripped(inline), Stripped(contentId));
    var a, b := Hints(inline, contentId), Hints(Stripped(inline), Stripped(contentId));
    assert forall k :: k in a ==> k in b && b[k] == a[k];
  }

  lemma LinkedOwner(l: Legacy, casts: Casts)
    requires Linkable(l.ownerType, l.ownerId)
    ensures var r := RoundTrip(l, casts);
      && r.ownerType == Some(Camel(LinkName(l.ownerType.value)))
      && r.ownerId.Some? && IsNumeric(r.ownerId.value) && ToNumber(r.ownerId.value) == ToNumber(l.ownerId.value)
      && r.displayOrder == Some(l.displayOrder.GetOr(0))
  {
    NumericRoundTrip(l.ownerId.value);
  }

  lemma SnakeOfNothing(t: string)
    requires t != "" && SnakeCase(t)
    ensures Camel(t) != ""
  {
    SnakeUndoesCamelIff(t);
    assert Snake("") == "";
  }

  /**
   * Main result: the link is the same again exactly when its owner name is in snake_case; where there
   * was none, none appears, unless the row's own metadata holds the `legacy` owner of a link.
   */
  lemma LinkNormalIff(l: Legacy, casts: Casts)
    ensures ToLink(RoundTrip(l, casts)) == ToLink(l)
       <==> if Linkable(l.ownerType, l.ownerId) then SnakeCase(LinkName(l.ownerType.value))
            else Homeless(l) == map[]
                 ==> !Linkable(OwnText(l, "documentable_type", casts), OwnText(l, "documentable_id", casts))
  {
    if Linkable(l.ownerType, l.ownerId) {
      var t := LinkName(l.ownerType.value);
      LinkedOwner(l, casts);
      MetadataRestored(l, casts);
      HintsNormal(Get(l.metadata, "is_inline"), Get(l.metadata, "content_id"));
      LinkNameKeptIff(t);
      SnakeLength(l.ownerType.value);
      if SnakeCase(t) {
        SnakeOfNothing(t);
      }
    } else {
      OwnerFallback(l, casts);
    }
  }

  /** Rows whose migration is undone and redone without a trace outside the metadata. */
  predicate Normalises(l: Legacy, casts: Casts) {
    && !OnlyNullResults(l)
    && (if Linkable(l.ownerType, l.ownerId) then SnakeCase(LinkName(l.ownerType.value))
        else Homeless(l) == map[]
             ==> !Linkable(OwnText(l, "documentable_type", casts), OwnText(l, "documentable_id", casts)))
  }

  /** Main result: exactly for these rows the migrated document, file and link are a normal form of up, down, up. */
  lemma NormalFormIff(l: Legacy, casts: Casts)
    ensures var r := RoundTrip(l, casts);
      && ToDocument(r).(appMetadata := map[]) == ToDocument(l).(appMetadata := map[])
      && (ToFile(r, casts) == ToFile(l, casts) && ToLink(r) == ToLink(l) <==> Normalises(l, casts))
  {
    hide Results, Homeless, Ocr;
    DocumentNormal(l, casts);
    FileNormal(l, casts);
    ResultsNormalIff(l, casts);
    LinkNormalIff(l, casts);
  }

  /** In particular for every owner class in CamelCase. */
  lemma CamelCaseOwnersNormalise(l: Legacy, casts: Casts)
    requires Linkable(l.ownerType, l.ownerId) && CamelCase(l.ownerType.value) && !OnlyNullResults(l)
    ensures Normalises(l, casts)
  {
    CamelCaseLinkName(l.ownerType.value);
  }

  /** Any row with JSON-null results and no extracted text: `{}` after the first way up, NULL after the second. */
  lemma NullResultsAreNotNormal(l: Legacy, casts: Casts)
    requires l.processingResults == Some(JNull) && l.extractedText == None
    ensures Results(l) == Some(JObject(map[])) && Results(RoundTrip(l, casts)) == None
  {
    hide ToDocument, ToLink, HomelessColumns, Amount;
    RestoredResults(l, casts);
  }
}
