/**
 * What the document migration loses: on the way up, which legacy rows become the same new rows; over
 * both ways, which legacy rows do not come back.
 */
module DocumentLosses {
  import opened Basics
  import opened Decimals
  import opened DocumentRows
  import opened Json
  import opened OwnerNames

  // ---- over both ways ----

  lemma RestoredProcessingStatus(l: Legacy, casts: Casts)
    ensures RoundTrip(l, casts).processingStatus == Some(ProcessingStatus(l.processingStatus))
  {
    hide ToDocument, ToLink, Amount, OwnerColumn, RestoredMetadata, Results, StoredHash, StoredUploader,
      ProcessingStatus;
  }

  lemma ProcessingStatusRestoredIff(l: Legacy, casts: Casts)
    ensures RoundTrip(l, casts).processingStatus == l.processingStatus
       <==> l.processingStatus in {Some("pending"), Some("processing"), Some("done"), Some("failed")}
  {
    RestoredProcessingStatus(l, casts);
    hide RoundTrip;
    assert Lower("pending") == "pending" && Lower("processing") == "processing";
    assert Lower("done") == "done" && Lower("failed") == "failed";
  }

  /** Columns with no home come back as constants. */
  lemma ConstantsRestored(l: Legacy, casts: Casts)
    ensures var r := RoundTrip(l, casts);
      && r.documentStatus == Some("uploaded") && r.isVisible == Some(true) && r.md5 == None
      && r.containsPii == None && r.accessPermissions == None && r.downloadCount == None
      && r.version == None && r.revision == None && r.versionHistory == None
  {
    hide ToDocument, ToLink, ToFile, Amount, OwnerColumn, RestoredMetadata;
  }

  /** The file type is dropped on the way up and read off the file name on the way down. */
  lemma FileTypeRecomputed(l: Legacy, casts: Casts)
    ensures RoundTrip(l, casts).fileType == Varchar(FileType(l.fileName), TYPE_WIDTH)
    ensures forall t :: RoundTrip(l.(fileType := t), casts) == RoundTrip(l, casts)
  {
    hide FileType, Homeless, Ocr, Amount, OwnerColumn, RestoredMetadata, Results, Hints;
    forall t ensures RoundTrip(l.(fileType := t), casts) == RoundTrip(l, casts) {
      FileTypeDropped(l, t, casts);
    }
  }

  lemma FileTypeDropped(l: Legacy, t: string, casts: Casts)
    ensures var m := l.(fileType := t);
      ToDocument(m) == ToDocument(l) && ToFile(m, casts) == ToFile(l, casts) && ToLink(m) == ToLink(l)
  {
    var m := l.(fileType := t);
    assert HomelessColumns(m) == HomelessColumns(l);
    hide HomelessColumns, StripObject, Stripped;
  }

  /** A row with no homeless column leaves its own `legacy` metadata, and an owner read from it fits. */
  predicate OwnOwnerFits(l: Legacy, casts: Casts) {
    var ownerType, ownerId := OwnText(l, "documentable_type", casts), OwnText(l, "documentable_id", casts);
    Homeless(l) == map[] ==>
      (ownerType.Some? ==> |ownerType.value| <= 100) && (ownerId.Some? ==> |ownerId.value| <= 64)
  }

  lemma RestoredOwnerFitsIff(l: Legacy, casts: Casts)
    requires FitsLegacy(l) && OwnerNameFits(l)
    ensures var r := RoundTrip(l, casts);
      (r.ownerType.Some? ==> |r.ownerType.value| <= 100) && (r.ownerId.Some? ==> |r.ownerId.value| <= 64)
      <==> OwnOwnerFits(l, casts)
  {
    OwnerFallback(l, casts);
    if Linkable(l.ownerType, l.ownerId) {
      LinkedOwner(l, casts);
      CamelIsShorter(LinkName(l.ownerType.value));
      assert |LinkName(l.ownerType.value)| <= LINK_WIDTH;
    }
    hide ToDocument, Homeless, Snake, FitsVarchar, Camel, ToNumber, Amount, RestoredMetadata, Results;
  }

  lemma RestoredKeyFits(l: Legacy, casts: Casts)
    requires FitsLegacy(l) && IsUuid(l.id)
    ensures var k := RoundTrip(l, casts).s3Key; k.Some? ==> |k.value| <= 500
  {
    assert |"legacy-missing/" + l.id| == 51;
    hide ToDocument, ToLink, Amount, OwnerColumn, RestoredMetadata, Results;
  }

  /** Rows that can be restored once they were migrated. */
  predicate Returnable(l: Legacy, casts: Casts) {
    FitsVarchar(FileType(l.fileName), 50) && OwnOwnerFits(l, casts)
  }

  /**
   * Main result: what the way down writes for a migrated row fits the legacy columns exactly when its file
   * name has no extension over fifty characters, and an owner left in its own metadata is not too long.
   */
  lemma RestoredRowFitsIff(l: Legacy, casts: Casts)
    requires FitsLegacy(l) && OwnerNameFits(l) && IsUuid(l.id)
    ensures FitsLegacy(RoundTrip(l, casts)) <==> Returnable(l, casts)
  {
    RestoredOwnerFitsIff(l, casts);
    RestoredKeyFits(l, casts);
    RestoredExactly(l, casts);
    ReceiptRestored(l, casts);
    FileTypeRecomputed(l, casts);
    hide RoundTrip, OwnOwnerFits, FileType;
  }

  /** An owner that turns up in a row's own metadata has a name that fits a link. */
  predicate OwnNameFits(l: Legacy, casts: Casts) {
    var ownerType, ownerId := OwnText(l, "documentable_type", casts), OwnText(l, "documentable_id", casts);
    Homeless(l) == map[] && Linkable(ownerType, ownerId) ==> FitsVarchar(Snake(ownerType.value), 50)
  }

  /** A row that went up and down can go up again, exactly unless such an owner has a name that does not fit. */
  lemma MigratableAgainIff(l: Legacy, casts: Casts)
    requires Migratable(l)
    ensures Migratable(RoundTrip(l, casts)) <==> OwnNameFits(l, casts)
  {
    RestoredExactly(l, casts);
    OwnerFallback(l, casts);
    HomelessOwner(l);
    if Linkable(l.ownerType, l.ownerId) {
      LinkedOwner(l, casts);
      CamelIsShorter(LinkName(l.ownerType.value));
      assert |LinkName(l.ownerType.value)| <= LINK_WIDTH;
    }
    hide ToDocument, Homeless, Snake, Camel, ToNumber, Amount, RestoredMetadata, Results, IsNumeric;
  }

  /** The raw metadata holds nothing but what has a home: a local path, and a link's mail hints. */
  predicate MetadataHoused(l: Legacy) {
    l.metadata.Some? ==>
      && l.metadata.value.JObject? && l.metadata.value.fields != map[]
      && forall k :: k in l.metadata.value.fields ==>
           MemberHoused(k, l.metadata.value.fields[k], Linkable(l.ownerType, l.ownerId))
  }

  predicate MemberHoused(key: string, v: Json, linked: bool) {
    if key == "local_path" then v.JString? && v.text != ""
    else (key == "is_inline" || key == "content_id") && linked && Survives(Some(v))
  }

  lemma RestoredMetadataKeys(f: File, link: Option<Link>)
    ensures RestoredMetadata(f, link).Some? ==>
      && RestoredMetadata(f, link).value.JObject? && RestoredMetadata(f, link).value.fields != map[]
      && RestoredMetadata(f, link).value.fields.Keys <= {"is_inline", "content_id", "local_path"}
  {
  }

  lemma MetadataMembers(l: Legacy, casts: Casts)
    ensures var r := RoundTrip(l, casts).metadata;
      && Get(r, "local_path") == (if LocalPath(l, casts).Some? then Some(JString(LocalPath(l, casts).value)) else None)
      && Get(r, "is_inline")
         == (if Linkable(l.ownerType, l.ownerId) then Stripped(Get(l.metadata, "is_inline")) else None)
      && Get(r, "content_id")
         == (if Linkable(l.ownerType, l.ownerId) then Stripped(Get(l.metadata, "content_id")) else None)
      && (r.Some? ==> r.value.JObject? && r.value.fields != map[]
                      && r.value.fields.Keys <= {"is_inline", "content_id", "local_path"})
  {
    hide ToDocument, HomelessColumns, Amount, OwnerColumn, RestoredMetadata, Hints, Results;
    MetadataKept(ToFile(l, casts), ToLink(l));
    RestoredMetadataKeys(ToFile(l, casts), ToLink(l));
    MetadataRestored(l, casts);
    assert LOCAL_DISK != S3;
  }

  /** The raw metadata comes back, as a whole, exactly when all of it has a home. */
  lemma MetadataRestoredIff(l: Legacy, casts: Casts)
    ensures RoundTrip(l, casts).metadata == l.metadata <==> MetadataHoused(l)
  {
    MetadataMembers(l, casts);
    MembersDecide(l, RoundTrip(l, casts).metadata, casts);
  }

  lemma MembersDecide(l: Legacy, r: Option<Json>, casts: Casts)
    requires Get(r, "local_path")
          == if LocalPath(l, casts).Some? then Some(JString(LocalPath(l, casts).value)) else None
    requires Get(r, "is_inline")
          == if Linkable(l.ownerType, l.ownerId) then Stripped(Get(l.metadata, "is_inline")) else None
    requires Get(r, "content_id")
          == if Linkable(l.ownerType, l.ownerId) then Stripped(Get(l.metadata, "content_id")) else None
    requires r.Some? ==> r.value.JObject? && r.value.fields != map[]
                         && r.value.fields.Keys <= {"is_inline", "content_id", "local_path"}
    ensures r == l.metadata <==> MetadataHoused(l)
  {
    StrippedIff(Get(l.metadata, "is_inline"));
    StrippedIff(Get(l.metadata, "content_id"));
    if r == l.metadata && l.metadata.Some? {
      forall k | k in l.metadata.value.fields
        ensures MemberHoused(k, l.metadata.value.fields[k], Linkable(l.ownerType, l.ownerId))
      {
        assert Get(r, k) == Some(l.metadata.value.fields[k]);
      }
    }
    if MetadataHoused(l) {
      HousedMembersReturn(l, r, casts);
    }
  }

  lemma HousedMembersReturn(l: Legacy, r: Option<Json>, casts: Casts)
    requires MetadataHoused(l)
    requires Get(r, "local_path")
          == if LocalPath(l, casts).Some? then Some(JString(LocalPath(l, casts).value)) else None
    requires Get(r, "is_inline")
          == if Linkable(l.ownerType, l.ownerId) then Stripped(Get(l.metadata, "is_inline")) else None
    requires Get(r, "content_id")
          == if Linkable(l.ownerType, l.ownerId) then Stripped(Get(l.metadata, "content_id")) else None
    requires r.Some? ==> r.value.JObject? && r.value.fields != map[]
                         && r.value.fields.Keys <= {"is_inline", "content_id", "local_path"}
    ensures r == l.metadata
  {
    StrippedIff(Get(l.metadata, "is_inline"));
    StrippedIff(Get(l.metadata, "content_id"));
    hide StripNulls, NullFree, Linkable;
    if l.metadata.Some? {
      var m := l.metadata.value.fields;
      forall k | k in m ensures Get(r, k) == Some(m[k]) {
        assert MemberHoused(k, m[k], Linkable(l.ownerType, l.ownerId));
      }
      var k :| k in m;
      assert Get(r, k) == Some(m[k]);
      assert r.value.fields == m;
    }
  }

  /** The status pair a restored row has. */
  predicate StatusRestorable(l: Legacy) {
    KnownStatus(l.status) && l.isBlocked == Some(l.status == "suspended")
  }

  /** Flags and order are set, the columns with no home hold what the way down writes. */
  predicate DefaultsSet(l: Legacy) {
    && l.isActive.Some? && l.isVerified.Some? && l.virusScanned.Some? && l.scannedAmount.Some?
    && (if Linkable(l.ownerType, l.ownerId) then l.displayOrder.Some? else l.displayOrder == Some(0))
    && l.documentStatus == Some("uploaded") && l.isVisible == Some(true) && l.md5 == None
    && l.containsPii == None && l.accessPermissions == None && l.downloadCount == None
    && l.version == None && l.revision == None && l.versionHistory == None
  }

  predicate FileColumnsRestorable(l: Legacy, casts: Casts) {
    && l.processingStatus in {Some("pending"), Some("processing"), Some("done"), Some("failed")}
    && Survives(l.processingResults) && Survives(l.extractedText)
    && (l.sha256.Some? ==> IsSha256(l.sha256.value) && Lower(l.sha256.value) == l.sha256.value)
    && (l.uploadedById.Some? ==> IsNumeric(l.uploadedById.value) && Canonical(l.uploadedById.value))
    && (if LocalPath(l, casts).Some? then l.s3Key == None else NonEmpty(l.s3Key).Some?)
  }

  /** Rows that survive both ways, by their columns. */
  predicate Restorable(l: Legacy, casts: Casts) {
    && l.fileType == Varchar(FileType(l.fileName), TYPE_WIDTH) && StatusRestorable(l) && DefaultsSet(l)
    && FileColumnsRestorable(l, casts) && MetadataHoused(l)
    && (Linkable(l.ownerType, l.ownerId) ==> CamelCase(l.ownerType.value) && Canonical(l.ownerId.value))
    && "legacy" !in l.appMetadata
  }

  lemma RestoredFileColumnsIff(l: Legacy, r: Legacy, casts: Casts)
    requires r == RoundTrip(l, casts)
    ensures FileColumnsRestorable(l, casts)
       <==> && r.processingStatus == l.processingStatus && r.processingResults == l.processingResults
            && r.extractedText == l.extractedText && r.sha256 == l.sha256 && r.uploadedById == l.uploadedById
            && r.s3Key == l.s3Key
  {
    ProcessingStatusRestoredIff(l, casts);
    ResultsRestoredIff(l, casts);
    HashRestoredIff(l, casts);
    UploaderRestoredIff(l, casts);
    S3KeyRestoredIff(l, casts);
    hide RoundTrip, LocalPath, Survives, IsSha256, Lower, IsNumeric, Canonical, NonEmpty;
  }

  lemma RestoredDefaultsIff(l: Legacy, r: Legacy, casts: Casts)
    requires r == RoundTrip(l, casts)
    ensures DefaultsSet(l)
       <==> && r.isActive == l.isActive && r.isVerified == l.isVerified && r.virusScanned == l.virusScanned
            && r.scannedAmount == l.scannedAmount && r.displayOrder == l.displayOrder
            && r.documentStatus == l.documentStatus && r.isVisible == l.isVisible && r.md5 == l.md5
            && r.containsPii == l.containsPii && r.accessPermissions == l.accessPermissions
            && r.downloadCount == l.downloadCount && r.version == l.version && r.revision == l.revision
            && r.versionHistory == l.versionHistory
  {
    FlagsRestoredIff(l, casts);
    ReceiptRestored(l, casts);
    ConstantsRestored(l, casts);
    hide RoundTrip, Linkable;
  }

  /** A restorable row has a homeless column set, so its owner falls back on the kept one. */
  lemma SomethingHomeless(l: Legacy)
    requires l.documentStatus.Some?
    ensures Homeless(l) != map[]
  {
    KeptDisplay(l);
    assert Get(Some(JObject(Homeless(l))), "document_status").Some?;
  }

  lemma OwnerRestoredIff(l: Legacy, casts: Casts)
    requires l.documentStatus.Some?
    ensures RoundTrip(l, casts).ownerType == l.ownerType && RoundTrip(l, casts).ownerId == l.ownerId
       <==> (Linkable(l.ownerType, l.ownerId) ==> CamelCase(l.ownerType.value) && Canonical(l.ownerId.value))
  {
    SomethingHomeless(l);
    OwnerTypeRestoredIff(l, casts);
    OwnerIdRestoredIff(l, casts);
    hide RoundTrip, Homeless, OwnText, CamelCase, Canonical, Linkable;
  }

  /** Main result: up and down give a row back, in every column, exactly when it is restorable. */
  lemma RoundTripIff(l: Legacy, casts: Casts)
    ensures RoundTrip(l, casts) == l <==> Restorable(l, casts)
  {
    var r := RoundTrip(l, casts);
    RestoredExactly(l, casts);
    ReceiptRestored(l, casts);
    StatusRestoredIff(l, casts);
    RestoredDefaultsIff(l, r, casts);
    RestoredFileColumnsIff(l, r, casts);
    MetadataRestoredIff(l, casts);
    AppMetadataRestoredIff(l, casts);
    FileTypeRecomputed(l, casts);
    if l.documentStatus.Some? {
      OwnerRestoredIff(l, casts);
    }
    hide RoundTrip, FileColumnsRestorable, MetadataHoused, CamelCase, Canonical, Linkable;
  }

  // ---- on the way up ----

  /** No column without a home is set. */
  predicate NoHomeless(l: Legacy) {
    && l.documentStatus == None && l.isVisible == None && l.displayOrder == None && l.containsPii == None
    && Stripped(l.accessPermissions) == None && l.downloadCount == None && l.version == None && l.revision == None
    && Stripped(l.versionHistory) == None && l.md5 == None && Stripped(l.metadata) == None
    && l.ownerType == None && l.ownerId == None
  }

  /** The columns with no home agree, JSON nulls aside. */
  predicate SameHomeless(l: Legacy, m: Legacy) {
    && l.documentStatus == m.documentStatus && l.isVisible == m.isVisible && l.displayOrder == m.displayOrder
    && l.containsPii == m.containsPii && Stripped(l.accessPermissions) == Stripped(m.accessPermissions)
    && l.downloadCount == m.downloadCount && l.version == m.version && l.revision == m.revision
    && Stripped(l.versionHistory) == Stripped(m.versionHistory) && l.md5 == m.md5
    && Stripped(l.metadata) == Stripped(m.metadata) && l.ownerType == m.ownerType && l.ownerId == m.ownerId
  }

  lemma ScalarsApart(a: Option<string>, b: Option<string>, p: Option<bool>, q: Option<bool>,
                     i: Option<int>, j: Option<int>)
    ensures Stripped(Some(TextField(a))) == Stripped(Some(TextField(b))) <==> a == b
    ensures Stripped(Some(BoolField(p))) == Stripped(Some(BoolField(q))) <==> p == q
    ensures Stripped(Some(NumberField(i))) == Stripped(Some(NumberField(j))) <==> i == j
    ensures Stripped(Some(TextField(a))) == None <==> a == None
    ensures Stripped(Some(BoolField(p))) == None <==> p == None
    ensures Stripped(Some(NumberField(i))) == None <==> i == None
  {
  }

  lemma SameStripped(a: Object, b: Object)
    requires a.Keys == b.Keys
    requires forall k :: k in a ==> Stripped(Some(a[k])) == Stripped(Some(b[k]))
    ensures StripObject(a) == StripObject(b)
  {
    hide StripNulls;
    forall k | k in a
      ensures (a[k] == JNull <==> b[k] == JNull) && (a[k] != JNull ==> StripNulls(a[k]) == StripNulls(b[k]))
    {
      assert Stripped(Some(a[k])) == Stripped(Some(b[k]));
    }
    assert StripObject(a).Keys == StripObject(b).Keys;
  }

  lemma SameKeptColumns(l: Legacy, m: Legacy)
    requires SameHomeless(l, m)
    ensures Homeless(l) == Homeless(m)
  {
    var a, b := HomelessColumns(l), HomelessColumns(m);
    FieldStripped(l.accessPermissions, m.accessPermissions);
    FieldStripped(l.versionHistory, m.versionHistory);
    FieldStripped(l.metadata, m.metadata);
    hide Stripped, Field, Homeless;
    forall k | k in a ensures Stripped(Some(a[k])) == Stripped(Some(b[k])) {
    }
    SameStripped(a, b);
    StrippedColumns(l);
    StrippedColumns(m);
  }

  lemma FieldStripped(v: Option<Json>, w: Option<Json>)
    ensures Stripped(Some(Field(v))) == Stripped(v) && Stripped(Some(Field(w))) == Stripped(w)
  {
  }

  lemma StrippedColumns(l: Legacy)
    ensures Homeless(l) == StripObject(HomelessColumns(l))
  {
    hide HomelessColumns, StripObject;
  }

  lemma KeptColumnsDecide(l: Legacy, m: Legacy)
    requires Homeless(l) == Homeless(m)
    ensures SameHomeless(l, m)
  {
    HomelessColumnsKept(l);
    HomelessColumnsKept(m);
    hide Homeless, Stripped;
    ScalarsApart(l.documentStatus, m.documentStatus, l.isVisible, m.isVisible, l.displayOrder, m.displayOrder);
    ScalarsApart(l.version, m.version, l.containsPii, m.containsPii, l.downloadCount, m.downloadCount);
    ScalarsApart(l.md5, m.md5, None, None, l.revision, m.revision);
    ScalarsApart(l.ownerType, m.ownerType, None, None, None, None);
    ScalarsApart(l.ownerId, m.ownerId, None, None, None, None);
  }

  /** Two rows keep the same object exactly when their columns with no home agree. */
  lemma HomelessSameIff(l: Legacy, m: Legacy)
    ensures Homeless(l) == Homeless(m) <==> SameHomeless(l, m)
  {
    hide Homeless, SameHomeless;
    if Homeless(l) == Homeless(m) {
      KeptColumnsDecide(l, m);
    }
    if SameHomeless(l, m) {
      SameKeptColumns(l, m);
    }
  }

  lemma NoHomelessIff(l: Legacy)
    ensures Homeless(l) == map[] <==> NoHomeless(l)
  {
    if Homeless(l) == map[] {
      HomelessColumnsKept(l);
      NothingKept(l);
    }
    if NoHomeless(l) {
      forall k | k in HomelessColumns(l) ensures HomelessColumns(l)[k] == JNull {
      }
    }
  }

  lemma NothingKept(l: Legacy)
    requires Homeless(l) == map[]
    ensures NoHomeless(l)
  {
    HomelessColumnsKept(l);
    hide Homeless, HomelessColumns, Stripped;
    assert forall k :: Get(Some(JObject(Homeless(l))), k) == None;
    ScalarsApart(l.documentStatus, None, l.isVisible, None, l.displayOrder, None);
    ScalarsApart(l.version, None, l.containsPii, None, l.downloadCount, None);
    ScalarsApart(l.md5, None, None, None, l.revision, None);
    ScalarsApart(l.ownerType, None, None, None, None, None);
    ScalarsApart(l.ownerId, None, None, None, None, None);
  }

  /** The row's own `app_metadata.legacy`. */
  function OwnLegacy(l: Legacy): Option<Json> {
    Get(Some(JObject(l.appMetadata)), "legacy")
  }

  const HOMELESS := {"document_status", "is_visible", "display_order", "contains_pii", "access_permissions",
    "download_count", "version", "revision", "version_history", "checksum_md5", "metadata", "documentable_type",
    "documentable_id"}

  /** An object of the columns with no home of row `l`, and of nothing else. */
  predicate HoldsColumns(g: Option<Json>, l: Legacy) {
    g.Some? && g.value.JObject? && g.value.fields.Keys <= HOMELESS && DocumentRows.Kept(g, l)
  }

  lemma HoldsColumnsIff(g: Option<Json>, l: Legacy)
    ensures HoldsColumns(g, l) <==> g == Some(JObject(Homeless(l)))
  {
    HomelessColumnsKept(l);
    HomelessKeys(l);
    hide Homeless, DocumentRows.Kept, HOMELESS;
    if HoldsColumns(g, l) {
      forall k | k in HOMELESS ensures Get(g, k) == Get(Some(JObject(Homeless(l))), k) {
        SameKeptColumn(g, Some(JObject(Homeless(l))), l, k);
      }
      SameMembers(g.value.fields, Homeless(l), HOMELESS);
    }
  }

  lemma SameKeptColumn(g: Option<Json>, h: Option<Json>, l: Legacy, k: string)
    requires DocumentRows.Kept(g, l) && DocumentRows.Kept(h, l) && k in HOMELESS
    ensures Get(g, k) == Get(h, k)
  {
    hide Stripped, TextField, BoolField, NumberField, Get;
  }

  lemma HomelessKeys(l: Legacy)
    ensures Homeless(l).Keys <= HOMELESS
  {
    hide StripNulls;
  }

  lemma SameMembers(a: Object, b: Object, keys: set<string>)
    requires a.Keys <= keys && b.Keys <= keys
    requires forall k :: k in keys ==> Get(Some(JObject(a)), k) == Get(Some(JObject(b)), k)
    ensures a == b
  {
    forall k | k in keys ensures (k in a <==> k in b) && (k in a ==> a[k] == b[k]) {
      assert Get(Some(JObject(a)), k) == Get(Some(JObject(b)), k);
    }
  }

  /** Two rows keep the same columns, one of them possibly in the metadata it came with. */
  predicate SameKept(l: Legacy, m: Legacy) {
    if NoHomeless(l) && NoHomeless(m) then OwnLegacy(l) == OwnLegacy(m)
    else if NoHomeless(l) then HoldsColumns(OwnLegacy(l), m)
    else if NoHomeless(m) then HoldsColumns(OwnLegacy(m), l)
    else SameHomeless(l, m)
  }

  lemma SameMetadataIff(l: Legacy, m: Legacy)
    ensures ToDocument(l).appMetadata == ToDocument(m).appMetadata
       <==> l.appMetadata - {"legacy"} == m.appMetadata - {"legacy"} && SameKept(l, m)
  {
    NoHomelessIff(l);
    NoHomelessIff(m);
    HomelessSameIff(l, m);
    HoldsColumnsIff(OwnLegacy(l), m);
    HoldsColumnsIff(OwnLegacy(m), l);
    LegacyMember(l);
    LegacyMember(m);
    var a, b := ToDocument(l).appMetadata, ToDocument(m).appMetadata;
    MetadataRest(l);
    MetadataRest(m);
    hide ToDocument, Homeless, NoHomeless, SameHomeless, HoldsColumns;
    SameByMember(a, b, "legacy");
  }

  lemma MetadataRest(l: Legacy)
    ensures ToDocument(l).appMetadata - {"legacy"} == l.appMetadata - {"legacy"}
  {
    hide Homeless, Ocr;
  }

  lemma SameByMember(a: Object, b: Object, key: string)
    ensures a == b <==> a - {key} == b - {key} && Get(Some(JObject(a)), key) == Get(Some(JObject(b)), key)
  {
    if a - {key} == b - {key} && Get(Some(JObject(a)), key) == Get(Some(JObject(b)), key) {
      forall k ensures k in a <==> k in b {
        assert k != key ==> (k in a <==> k in a - {key}) && (k in b <==> k in b - {key});
      }
      forall k | k in a ensures a[k] == b[k] {
        assert k != key ==> a[k] == (a - {key})[k] && b[k] == (b - {key})[k];
      }
      assert a == b;
    }
  }

  predicate SameReceipt(l: Legacy, m: Legacy) {
    && l.vendorName == m.vendorName && l.scannedDate == m.scannedDate
    && l.scannedAmount.GetOr(0.0) == m.scannedAmount.GetOr(0.0)
  }

  lemma SameReceiptIff(l: Legacy, m: Legacy)
    ensures ToDocument(l).ocr == ToDocument(m).ocr <==> SameReceipt(l, m)
  {
    OcrColumn(l);
    OcrColumn(m);
    if SameReceipt(l, m) {
      SameOcr(l, m);
    }
    hide Homeless, Ocr;
  }

  lemma SameOcr(l: Legacy, m: Legacy)
    requires SameReceipt(l, m)
    ensures HasOcr(l) == HasOcr(m) && Ocr(l) == Ocr(m)
  {
  }

  /** Blocked rows are suspended whatever their status, and unknown statuses are active. */
  predicate SameStatus(l: Legacy, m: Legacy) {
    && (Suspended(l) <==> Suspended(m))
    && (l.status == "archived" && l.isBlocked != Some(true) <==> m.status == "archived" && m.isBlocked != Some(true))
  }

  predicate Suspended(l: Legacy) {
    l.isBlocked == Some(true) || l.status == "suspended"
  }

  lemma SameStatusIff(l: Legacy, m: Legacy)
    ensures NewStatus(l) == NewStatus(m) <==> SameStatus(l, m)
  {
    assert |"active"| == 6 && |"archived"| == 8 && |"suspended"| == 9;
  }

  /** What of a legacy row decides its document. */
  predicate SameDocumentColumns(l: Legacy, m: Legacy) {
    && l.id == m.id && SameStatus(l, m) && (l.isVerified == Some(true) <==> m.isVerified == Some(true))
    && (l.isActive == Some(false) <==> m.isActive == Some(false)) && SameReceipt(l, m)
    && l.createdAt == m.createdAt && l.updatedAt == m.updatedAt && l.deletedAt == m.deletedAt
    && l.rowVersion == m.rowVersion
    && l.appMetadata - {"legacy"} == m.appMetadata - {"legacy"} && SameKept(l, m)
  }

  lemma SameDocumentIff(l: Legacy, m: Legacy)
    ensures ToDocument(l) == ToDocument(m) <==> SameDocumentColumns(l, m)
  {
    SameReceiptIff(l, m);
    SameMetadataIff(l, m);
    SameStatusIff(l, m);
    hide Homeless, Ocr, SameReceipt, SameKept, HasOcr, NewStatus, SameStatus;
  }

  predicate SameIgnoringCase(s: string, t: string) {
    |s| == |t| && forall i :: 0 <= i < |s| ==> ToLower(s[i]) == ToLower(t[i])
  }

  lemma LowerIff(s: string, t: string)
    ensures Lower(s) == Lower(t) <==> SameIgnoringCase(s, t)
  {
    if Lower(s) == Lower(t) {
      assert forall i :: 0 <= i < |s| ==> Lower(s)[i] == Lower(t)[i];
    }
  }

  /** Two hashes of 64 hexadecimal digits that agree but for case, or none. */
  predicate SameHash(p: Option<string>, q: Option<string>) {
    if p.Some? && IsSha256(p.value) then q.Some? && SameIgnoringCase(p.value, q.value)
    else q.Some? ==> !IsSha256(q.value)
  }

  lemma CaseKeepsHash(s: string, t: string)
    requires SameIgnoringCase(s, t)
    ensures IsSha256(s) <==> IsSha256(t)
  {
    assert forall i :: 0 <= i < |s| ==> (IsDigit(s[i]) <==> IsDigit(ToLower(s[i])));
    assert forall i :: 0 <= i < |t| ==> (IsDigit(t[i]) <==> IsDigit(ToLower(t[i])));
  }

  lemma SameHashIff(l: Legacy, m: Legacy)
    ensures StoredHash(l) == StoredHash(m) <==> SameHash(l.sha256, m.sha256)
  {
    if l.sha256.Some? && m.sha256.Some? {
      LowerIff(l.sha256.value, m.sha256.value);
      if SameIgnoringCase(l.sha256.value, m.sha256.value) {
        CaseKeepsHash(l.sha256.value, m.sha256.value);
      }
    }
    hide IsSha256, SameIgnoringCase;
  }

  /** Two uploaders written with one to eighteen digits that are the same number, or none. */
  predicate SameUploader(p: Option<string>, q: Option<string>) {
    if p.Some? && IsNumeric(p.value) then
      q.Some? && IsNumeric(q.value) && WithoutZeros(p.value) == WithoutZeros(q.value)
    else q.Some? ==> !IsNumeric(q.value)
  }

  lemma SameUploaderIff(l: Legacy, m: Legacy)
    ensures StoredUploader(l) == StoredUploader(m) <==> SameUploader(l.uploadedById, m.uploadedById)
  {
    if l.uploadedById.Some? && IsNumeric(l.uploadedById.value) && m.uploadedById.Some?
       && IsNumeric(m.uploadedById.value) {
      SameNumberIff(l.uploadedById.value, m.uploadedById.value);
    }
  }

  predicate Says(s: Option<string>, word: string) {
    s.Some? && SameIgnoringCase(s.value, word)
  }

  predicate SaysDone(s: Option<string>) {
    Says(s, "done") || Says(s, "completed") || Says(s, "processed")
  }

  predicate SaysFailed(s: Option<string>) {
    Says(s, "failed") || Says(s, "error")
  }

  /** Both in progress, both done, both failed, or neither of these: no other word is known. */
  predicate SameProgress(p: Option<string>, q: Option<string>) {
    && (Says(p, "processing") <==> Says(q, "processing")) && (SaysDone(p) <==> SaysDone(q))
    && (SaysFailed(p) <==> SaysFailed(q))
  }

  lemma ProgressOf(s: Option<string>)
    ensures ProcessingStatus(s) == "processing" <==> Says(s, "processing")
    ensures ProcessingStatus(s) == "done" <==> SaysDone(s)
    ensures ProcessingStatus(s) == "failed" <==> SaysFailed(s)
    ensures ProcessingStatus(s) in {"processing", "done", "failed", "pending"}
  {
    var t := s.GetOr("");
    assert |"done"| == 4 && |"processing"| == 10 && |"failed"| == 6 && |"pending"| == 7;
    assert Lower("processing") == "processing" && Lower("done") == "done" && Lower("completed") == "completed";
    assert Lower("processed") == "processed" && Lower("failed") == "failed" && Lower("error") == "error";
    LowerIff(t, "processing");
    LowerIff(t, "done");
    LowerIff(t, "completed");
    LowerIff(t, "processed");
    LowerIff(t, "failed");
    LowerIff(t, "error");
    hide Lower, SameIgnoringCase;
  }

  lemma SameProgressIff(p: Option<string>, q: Option<string>)
    ensures ProcessingStatus(p) == ProcessingStatus(q) <==> SameProgress(p, q)
  {
    ProgressOf(p);
    ProgressOf(q);
    hide ProcessingStatus, Says, SaysDone, SaysFailed;
  }

  predicate HasText(v: Option<string>) {
    v.Some? && v.value != ""
  }

  /** The text under `local_path` in the raw metadata. */
  function PathText(l: Legacy, casts: Casts): Option<string> {
    GetText(l.metadata, "local_path", casts.render)
  }

  /** One local path; or none, and one object key, where a missing one stands for a key made of the row's id. */
  predicate SameStorage(l: Legacy, m: Legacy, casts: Casts) {
    if HasText(PathText(l, casts)) || HasText(PathText(m, casts)) then PathText(l, casts) == PathText(m, casts)
    else if HasText(l.s3Key) && HasText(m.s3Key) then l.s3Key == m.s3Key
    else if HasText(l.s3Key) then l.s3Key == Some("legacy-missing/" + m.id)
    else if HasText(m.s3Key) then m.s3Key == Some("legacy-missing/" + l.id)
    else l.id == m.id
  }

  lemma SameStorageIff(l: Legacy, m: Legacy, casts: Casts)
    ensures && LocalPath(l, casts) == LocalPath(m, casts)
            && (LocalPath(l, casts) == None ==> ObjectKey(l) == ObjectKey(m))
       <==> SameStorage(l, m, casts)
  {
    var prefix := "legacy-missing/";
    assert (prefix + l.id)[|prefix|..] == l.id && (prefix + m.id)[|prefix|..] == m.id;
    hide GetText;
  }

  /** What of a legacy row decides its file. */
  predicate SameFileColumns(l: Legacy, m: Legacy, casts: Casts) {
    && l.fileName == m.fileName && l.mimeType == m.mimeType && l.fileSize == m.fileSize
    && SameHash(l.sha256, m.sha256) && SameStorage(l, m, casts)
    && l.s3Bucket == m.s3Bucket && l.s3Region == m.s3Region && l.s3Class == m.s3Class && l.s3Version == m.s3Version
    && l.s3Etag == m.s3Etag && l.s3Metadata == m.s3Metadata
    && (l.virusScanned == Some(true) <==> m.virusScanned == Some(true))
    && SameProgress(l.processingStatus, m.processingStatus) && SameStoredResults(l, m)
    && SameUploader(l.uploadedById, m.uploadedById)
    && l.zohoId == m.zohoId && l.folderId == m.folderId && l.folderName == m.folderName
    && l.createdAt == m.createdAt && l.updatedAt == m.updatedAt && l.deletedAt == m.deletedAt
  }

  /** Results or text are set in both rows or in neither, and agree, JSON nulls aside. */
  predicate SameStoredResults(l: Legacy, m: Legacy) {
    && (l.processingResults.Some? || l.extractedText.Some? <==> m.processingResults.Some? || m.extractedText.Some?)
    && Stripped(l.processingResults) == Stripped(m.processingResults)
    && Stripped(l.extractedText) == Stripped(m.extractedText)
  }

  lemma SameResultsIff(l: Legacy, m: Legacy)
    ensures Results(l) == Results(m) <==> SameStoredResults(l, m)
  {
    ResultsStored(l);
    ResultsStored(m);
    SameResults(l, m);
    hide Results;
  }

  lemma ResultsStored(l: Legacy)
    ensures Results(l).Some? <==> l.processingResults.Some? || l.extractedText.Some?
  {
  }

  lemma SameFileIff(l: Legacy, m: Legacy, casts: Casts)
    ensures ToFile(l, casts) == ToFile(m, casts) <==> SameFileColumns(l, m, casts)
  {
    SameResultsIff(l, m);
    SameHashIff(l, m);
    SameStorageIff(l, m, casts);
    SameUploaderIff(l, m);
    SameProgressIff(l.processingStatus, m.processingStatus);
    assert LOCAL_DISK != S3;
    hide Results, SameStoredResults, LocalPath, ObjectKey, StoredHash, StoredUploader, ProcessingStatus, SameHash,
      SameStorage, SameUploader, SameProgress;
  }

  /** A member of a stripped value is that member, stripped. */
  lemma GetOfStripped(v: Option<Json>, key: string)
    ensures Get(Stripped(v), key) == Stripped(Get(v, key))
  {
  }

  lemma SameHints(l: Legacy, m: Legacy)
    requires Stripped(l.metadata) == Stripped(m.metadata)
    ensures Hints(Get(l.metadata, "is_inline"), Get(l.metadata, "content_id"))
         == Hints(Get(m.metadata, "is_inline"), Get(m.metadata, "content_id"))
  {
    GetOfStripped(l.metadata, "is_inline");
    GetOfStripped(l.metadata, "content_id");
    GetOfStripped(m.metadata, "is_inline");
    GetOfStripped(m.metadata, "content_id");
    HintsNormal(Get(l.metadata, "is_inline"), Get(l.metadata, "content_id"));
    HintsNormal(Get(m.metadata, "is_inline"), Get(m.metadata, "content_id"));
  }

  /** Rows with one document have one link if both have an owner to link, or neither. */
  lemma SameLinkIff(l: Legacy, m: Legacy)
    requires SameKept(l, m)
    ensures ToLink(l) == ToLink(m) <==> (Linkable(l.ownerType, l.ownerId) <==> Linkable(m.ownerType, m.ownerId))
  {
    if SameHomeless(l, m) {
      SameHints(l, m);
    }
    hide Hints, Stripped, Homeless, Snake, IsNumeric;
  }

  /** The legacy rows that become the same new rows, by their columns. */
  predicate Identified(l: Legacy, m: Legacy, casts: Casts) {
    && SameDocumentColumns(l, m) && SameFileColumns(l, m, casts)
    && (Linkable(l.ownerType, l.ownerId) <==> Linkable(m.ownerType, m.ownerId))
  }

  /** Main result: the way up makes the same document, file and link of two rows exactly when these columns agree. */
  lemma IdentifiedIff(l: Legacy, m: Legacy, casts: Casts)
    ensures ToDocument(l) == ToDocument(m) && ToFile(l, casts) == ToFile(m, casts) && ToLink(l) == ToLink(m)
       <==> Identified(l, m, casts)
  {
    SameDocumentIff(l, m);
    SameFileIff(l, m, casts);
    hide ToDocument, ToFile, ToLink, SameFileColumns, SameKept, Linkable;
    if SameKept(l, m) {
      SameLinkIff(l, m);
    }
  }

  /** Dropped without a trace from any row: a status, hash and uploader the new columns do not know. */
  lemma UnknownIsDropped(l: Legacy, status: string, hash: string, uploader: string, casts: Casts)
    requires !Says(Some(status), "processing") && !SaysDone(Some(status)) && !SaysFailed(Some(status))
    requires !IsSha256(hash) && !IsNumeric(uploader)
    ensures var m := l.(processingStatus := Some(status), sha256 := Some(hash), uploadedById := Some(uploader));
      var n := l.(processingStatus := None, sha256 := None, uploadedById := None);
      ToDocument(m) == ToDocument(n) && ToFile(m, casts) == ToFile(n, casts) && ToLink(m) == ToLink(n)
  {
    var m := l.(processingStatus := Some(status), sha256 := Some(hash), uploadedById := Some(uploader));
    var n := l.(processingStatus := None, sha256 := None, uploadedById := None);
    UnknownFile(m, n, casts);
    SameButFile(m, n);
    hide *;
    IdentifiedIff(m, n, casts);
    IdentifiedParts(m, n, casts);
  }

  lemma IdentifiedParts(m: Legacy, n: Legacy, casts: Casts)
    requires SameDocumentColumns(m, n) && SameFileColumns(m, n, casts)
    requires m.ownerType == n.ownerType && m.ownerId == n.ownerId
    ensures Identified(m, n, casts)
  {
    hide SameDocumentColumns, SameFileColumns, Linkable;
  }

  lemma SameButFile(m: Legacy, n: Legacy)
    requires n == m.(processingStatus := None, sha256 := None, uploadedById := None)
    ensures SameDocumentColumns(m, n)
  {
    hide Homeless, Stripped;
  }

  lemma UnknownFile(m: Legacy, n: Legacy, casts: Casts)
    requires !Says(m.processingStatus, "processing") && !SaysDone(m.processingStatus) && !SaysFailed(m.processingStatus)
    requires m.sha256.Some? && !IsSha256(m.sha256.value) && m.uploadedById.Some? && !IsNumeric(m.uploadedById.value)
    requires n == m.(processingStatus := None, sha256 := None, uploadedById := None)
    ensures SameFileColumns(m, n, casts)
  {
    assert Lower("") == "";
    hide Stripped, IsNumeric, IsSha256;
  }

  /** So is the status of a blocked row. */
  lemma BlockedStatusIsDropped(l: Legacy, status: string, casts: Casts)
    requires l.isBlocked == Some(true)
    ensures var n := l.(status := status);
      ToDocument(l) == ToDocument(n) && ToFile(l, casts) == ToFile(n, casts) && ToLink(l) == ToLink(n)
  {
    var n := l.(status := status);
    BlockedColumns(l, n, casts);
    hide *;
    IdentifiedIff(l, n, casts);
    IdentifiedParts(l, n, casts);
  }

  lemma BlockedColumns(l: Legacy, n: Legacy, casts: Casts)
    requires l.isBlocked == Some(true) && n == l.(status := n.status)
    ensures SameDocumentColumns(l, n) && SameFileColumns(l, n, casts)
  {
    hide Homeless, Stripped, IsNumeric, IsSha256, HoldsColumns;
  }

  /** So is any object key behind a local path. */
  lemma ShadowedKeyIsDropped(l: Legacy, casts: Casts)
    requires LocalPath(l, casts).Some?
    ensures var n := l.(s3Key := None);
      ToDocument(l) == ToDocument(n) && ToFile(l, casts) == ToFile(n, casts) && ToLink(l) == ToLink(n)
  {
    var n := l.(s3Key := None);
    ShadowedKeyColumns(l, n, casts);
    hide *;
    IdentifiedIff(l, n, casts);
    IdentifiedParts(l, n, casts);
  }

  lemma ShadowedKeyColumns(l: Legacy, n: Legacy, casts: Casts)
    requires LocalPath(l, casts).Some? && n == l.(s3Key := None)
    ensures SameDocumentColumns(l, n) && SameFileColumns(l, n, casts)
  {
    hide Homeless, Stripped;
  }

  // ---- at concrete rows ----

  /** A row that comes back in every column. */
  const SAMPLE := Legacy(
    "0b9c2f7e-1111-4222-8333-444455556666", Some("BrandOwner"), Some("7"),
    "deed.pdf", "pdf", 1024, Some("application/pdf"), None, None, None,
    "active", Some("uploaded"), Some(true), Some(false), Some(false), Some(true), Some(2),
    Some("bucket"), Some("deeds/7.pdf"), None, Some("ap-south-1"), None, None, None,
    Some("done"), None, None, Some(0.0), None, None,
    None, None, Some(true), None, None, None, None, None, None,
    None, Some("12"), map[], 10, 20, None, 3)

  lemma SampleNames()
    ensures CamelCase("BrandOwner")
  {
    var s := "BrandOwner";
    forall k | 0 <= k < |s| ensures Stable(Before(s, k), s[k]) {
      assert k == 0 || k == 1 || k == 2 || k == 3 || k == 4 || k == 5 || k == 6 || k == 7 || k == 8 || k == 9;
    }
  }

  lemma SampleFlags()
    ensures StatusRestorable(SAMPLE) && DefaultsSet(SAMPLE) && MetadataHoused(SAMPLE)
  {
    assert Linkable(SAMPLE.ownerType, SAMPLE.ownerId) by {
      assert "7"[..0] == "" && ToNumber("7") == 7;
    }
    hide Linkable;
  }

  lemma SampleFile(casts: Casts)
    ensures FileColumnsRestorable(SAMPLE, casts)
  {
    assert LocalPath(SAMPLE, casts) == None;
  }

  lemma SampleFileType()
    ensures Varchar(FileType(SAMPLE.fileName), TYPE_WIDTH) == SAMPLE.fileType
  {
    ExtensionFound("deed", "pdf");
    assert "deed" + "." + "pdf" == "deed.pdf" && Lower("pdf") == "pdf";
  }

  lemma SampleComesBack(casts: Casts)
    ensures RoundTrip(SAMPLE, casts) == SAMPLE
  {
    SampleNames();
    SampleFlags();
    SampleFile(casts);
    SampleFileType();
    RoundTripIff(SAMPLE, casts);
    hide RoundTrip, StatusRestorable, DefaultsSet, FileColumnsRestorable, MetadataHoused, CamelCase, Linkable, FileType,
      Varchar;
  }

  const UNKNOWNS := SAMPLE.(
    processingStatus := Some("queued"), sha256 := Some("not-hex"), uploadedById := Some("zoho-user-9"))
  const BLANKS := SAMPLE.(processingStatus := None, sha256 := None, uploadedById := None)

  lemma UnknownsLeaveNoTrace(casts: Casts)
    ensures UNKNOWNS != BLANKS
    ensures ToDocument(UNKNOWNS) == ToDocument(BLANKS) && ToFile(UNKNOWNS, casts) == ToFile(BLANKS, casts)
    ensures ToLink(UNKNOWNS) == ToLink(BLANKS)
  {
    assert ToLower("queued"[0]) != ToLower("failed"[0]);
    assert UNKNOWNS.processingStatus != BLANKS.processingStatus;
    assert !IsDigit("zoho-user-9"[0]);
    UnknownIsDropped(SAMPLE, "queued", "not-hex", "zoho-user-9", casts);
    hide ToDocument, ToFile, ToLink, ProcessingStatus;
  }

  const LOCAL := SAMPLE.(metadata := Some(JObject(map["local_path" := JString("/srv/7.pdf")])))

  lemma ShadowedKeyLeavesNoTrace(casts: Casts)
    ensures var other := LOCAL.(s3Key := None);
      && LOCAL != other && ToDocument(LOCAL) == ToDocument(other)
      && ToFile(LOCAL, casts) == ToFile(other, casts) && ToLink(LOCAL) == ToLink(other)
  {
    assert LOCAL.s3Key != None;
    assert LocalPath(LOCAL, casts) == Some("/srv/7.pdf");
    ShadowedKeyIsDropped(LOCAL, casts);
    hide ToDocument, ToFile, ToLink;
  }

  lemma LinkableWithZeros()
    ensures Linkable(Some("BrandOwner"), Some("007")) && !Canonical("007")
  {
    assert "007"[..2] == "00" && "00"[..1] == "0" && "0"[..0] == "";
    assert ToNumber("00") == 0;
  }

  lemma LeadingZerosAreLost(casts: Casts)
    ensures RoundTrip(SAMPLE.(ownerId := Some("007")), casts).ownerId != Some("007")
  {
    var l := SAMPLE.(ownerId := Some("007"));
    LinkableWithZeros();
    assert l.ownerType == Some("BrandOwner") && l.ownerId == Some("007");
    OwnerIdRestoredIff(l, casts);
    hide RoundTrip, Homeless, Linkable, Canonical, OwnText;
  }

  lemma LegacyKeyIsLost(casts: Casts)
    ensures var l := SAMPLE.(appMetadata := map["legacy" := JBool(true)]);
      RoundTrip(l, casts).appMetadata != l.appMetadata
  {
    var l := SAMPLE.(appMetadata := map["legacy" := JBool(true)]);
    assert "legacy" in l.appMetadata;
    AppMetadataRestoredIff(l, casts);
    hide RoundTrip;
  }

  const LONG := seq(51, i => 'x')

  lemma LongOwnerIsRefused()
    ensures var link := ToLink(SAMPLE.(ownerType := Some(LONG)));
      link.Some? && !MeetsLinkChecks(link.value)
  {
    LinkableWithSeven();
    SnakeLength(LONG);
    assert LONG[50] == 'x' && ' ' !in LONG;
    UnspacedLinkName(LONG);
  }

  lemma LinkableWithSeven()
    ensures Linkable(Some(LONG), Some("7"))
  {
    assert "7"[..0] == "" && ToNumber("7") == 7;
  }

  lemma LongExtensionIsRefused(casts: Casts)
    ensures !Returnable(SAMPLE.(fileName := "deed." + LONG), casts)
  {
    ExtensionFound("deed", LONG);
    assert "deed" + "." + LONG == "deed." + LONG;
    assert Lower(LONG)[50] == 'x';
  }

  lemma NegativeSizeIsRefused(casts: Casts)
    ensures !MeetsFileChecks(ToFile(SAMPLE.(fileSize := -1), casts))
  {
    MigratedRowsMeetChecksIff(SAMPLE.(fileSize := -1), casts);
    hide MeetsFileChecks;
  }
}
