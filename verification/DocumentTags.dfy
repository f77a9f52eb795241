/** Tags point at documents by uuid before the migration and by numeric id after it. */
module DocumentTags {
  import opened Basics
  import opened Decimals
  import opened DocumentRows
  import opened DocumentTables
  import opened Statements

  /** The primary key of a row of `taggables`; the tagged row's key is text. */
  datatype Tag = Tag(tagId: int, taggableType: string, taggableId: string)

  const DOCUMENT := "Document"

  /** `id::text` is one-to-one. */
  lemma IntTextInjective(m: int, n: int)
    requires IntText(m) == IntText(n)
    ensures m == n
  {
    var a, b := if m < 0 then ToText(-m) else ToText(m), if n < 0 then ToText(-n) else ToText(n);
    NumberOfText(if m < 0 then -m else m);
    NumberOfText(if n < 0 then -n else n);
    assert m < 0 ==> IntText(m)[0] == '-' && IntText(m)[1..] == a;
    assert n < 0 ==> IntText(n)[0] == '-' && IntText(n)[1..] == b;
  }

  lemma UuidIsNoNumber(s: string, n: int)
    requires IsUuid(s)
    ensures s != IntText(n)
  {
    if |IntText(n)| == 36 {
      assert n < 0 ==> IntText(n)[8] == ToText(-n)[7];
      assert IsDigit(IntText(n)[8]);
    }
  }

  /** The document a tag means, by uuid. */
  function ByUuid(documents: map<int, Document>, uuid: string): (r: Option<int>)
    requires UniqueUuids(documents)
    ensures r.Some? ==> r.value in documents && documents[r.value].uuid == uuid
    ensures r.None? ==> forall d :: d in documents ==> documents[d].uuid != uuid
  {
    if exists d :: d in documents && documents[d].uuid == uuid then
      var d :| d in documents && documents[d].uuid == uuid;
      Some(d)
    else None
  }

  /** The document a tag means, by numeric id. */
  function ByText(documents: map<int, Document>, text: string): (r: Option<int>)
    ensures r.Some? ==> r.value in documents && IntText(r.value) == text
    ensures r.None? ==> forall d :: d in documents ==> IntText(d) != text
  {
    if exists d :: d in documents && IntText(d) == text then
      assert forall d, e :: IntText(d) == text && IntText(e) == text ==> d == e by {
        forall d, e | IntText(d) == text && IntText(e) == text ensures d == e {
          IntTextInjective(d, e);
        }
      }
      var d :| d in documents && IntText(d) == text;
      Some(d)
    else None
  }

  function TagUp(documents: map<int, Document>, t: Tag): Tag
    requires UniqueUuids(documents)
  {
    var d := ByUuid(documents, t.taggableId);
    if t.taggableType == DOCUMENT && d.Some? then t.(taggableId := IntText(d.value)) else t
  }

  function TagDown(documents: map<int, Document>, t: Tag): Tag {
    var d := ByText(documents, t.taggableId);
    if t.taggableType == DOCUMENT && d.Some? then t.(taggableId := documents[d.value].uuid) else t
  }

  /** A tag that points at no document, but whose text is the number of one. */
  predicate Misread(documents: map<int, Document>, t: Tag) {
    t.taggableType == DOCUMENT && ByText(documents, t.taggableId).Some?
  }

  predicate UuidKeys(documents: map<int, Document>) {
    forall d :: d in documents ==> IsUuid(documents[d].uuid)
  }

  /** One tag comes back exactly when it was not a dangling number taken for a document's new id. */
  lemma TagRoundTripIff(documents: map<int, Document>, t: Tag)
    requires UniqueUuids(documents) && UuidKeys(documents)
    ensures TagDown(documents, TagUp(documents, t)) == t <==> !Misread(documents, t)
  {
    var d := ByUuid(documents, t.taggableId);
    var e := ByText(documents, t.taggableId);
    if d.Some? {
      if e.Some? {
        UuidIsNoNumber(t.taggableId, e.value);
      }
      var back := ByText(documents, IntText(d.value));
      IntTextInjective(back.value, d.value);
    } else if e.Some? {
      assert documents[e.value].uuid != t.taggableId;
    }
  }

  /** A tag on a document moves from its uuid to its number; every other tag stays. */
  lemma TagUpMeans(documents: map<int, Document>, t: Tag)
    requires UniqueUuids(documents)
    ensures var up := TagUp(documents, t);
      && up.tagId == t.tagId && up.taggableType == t.taggableType
      && (forall d :: d in documents && documents[d].uuid == t.taggableId && t.taggableType == "Document" ==>
           up.taggableId == IntText(d))
      && (t.taggableType != "Document" || (forall d :: d in documents ==> documents[d].uuid != t.taggableId) ==>
           up.taggableId == t.taggableId)
  {
  }

  /** And back from its number to its uuid. */
  lemma TagDownMeans(documents: map<int, Document>, t: Tag)
    ensures var down := TagDown(documents, t);
      && down.tagId == t.tagId && down.taggableType == t.taggableType
      && (forall d :: d in documents && IntText(d) == t.taggableId && t.taggableType == "Document" ==>
           down.taggableId == documents[d].uuid)
      && (t.taggableType != "Document" || (forall d :: d in documents ==> IntText(d) != t.taggableId) ==>
           down.taggableId == t.taggableId)
  {
    forall d | d in documents && IntText(d) == t.taggableId ensures ByText(documents, t.taggableId) == Some(d) {
      IntTextInjective(ByText(documents, t.taggableId).value, d);
    }
  }

  function TagsUp(documents: map<int, Document>, tags: map<int, Tag>): map<int, Tag>
    requires UniqueUuids(documents)
  {
    map k | k in tags :: TagUp(documents, tags[k])
  }

  function TagsDown(documents: map<int, Document>, tags: map<int, Tag>): map<int, Tag> {
    map k | k in tags :: TagDown(documents, tags[k])
  }

  /** Main result: the tags come back exactly when none was a dangling number. */
  lemma TagsRoundTripIff(documents: map<int, Document>, tags: map<int, Tag>)
    requires UniqueUuids(documents) && UuidKeys(documents)
    ensures TagsDown(documents, TagsUp(documents, tags)) == tags
       <==> forall k :: k in tags ==> !Misread(documents, tags[k])
  {
    var up := TagsUp(documents, tags);
    var down := TagsDown(documents, up);
    forall k | k in tags ensures down[k] == tags[k] <==> !Misread(documents, tags[k]) {
      TagRoundTripIff(documents, tags[k]);
    }
    assert down.Keys == tags.Keys;
    if down == tags {
      assert forall k :: k in tags ==> down[k] == tags[k];
    }
    if forall k :: k in tags ==> !Misread(documents, tags[k]) {
      assert forall k :: k in tags ==> k in down && down[k] == tags[k];
      assert down == tags;
    }
  }

  // ---- the primary key ----

  predicate UniqueTags(tags: map<int, Tag>) {
    forall j, k :: j in tags && k in tags && tags[j] == tags[k] ==> j == k
  }

  /** One tag is set on a document by uuid and on its number as well. */
  predicate Clash(documents: map<int, Document>, s: Tag, t: Tag) {
    && s.tagId == t.tagId && s.taggableType == DOCUMENT && t.taggableType == DOCUMENT
    && exists d :: d in documents && documents[d].uuid == s.taggableId && IntText(d) == t.taggableId
  }

  predicate TagsClash(documents: map<int, Document>, tags: map<int, Tag>) {
    exists j, k :: j in tags && k in tags && Clash(documents, tags[j], tags[k])
  }

  lemma SameUpIff(documents: map<int, Document>, s: Tag, t: Tag)
    requires UniqueUuids(documents) && UuidKeys(documents) && s != t
    ensures TagUp(documents, s) == TagUp(documents, t) <==> Clash(documents, s, t) || Clash(documents, t, s)
  {
    forall u: Tag, v: Tag | Clash(documents, u, v)
      ensures TagUp(documents, u) == TagUp(documents, v)
    {
      ClashMeetsUp(documents, u, v);
    }
    if TagUp(documents, s) == TagUp(documents, t) {
      var d, e := ByUuid(documents, s.taggableId), ByUuid(documents, t.taggableId);
      if d.Some? && e.Some? && s.taggableType == DOCUMENT {
        IntTextInjective(d.value, e.value);
      }
    }
  }

  lemma ClashMeetsUp(documents: map<int, Document>, s: Tag, t: Tag)
    requires UniqueUuids(documents) && UuidKeys(documents) && Clash(documents, s, t)
    ensures TagUp(documents, s) == TagUp(documents, t)
  {
    var d :| d in documents && documents[d].uuid == s.taggableId && IntText(d) == t.taggableId;
    assert ByUuid(documents, s.taggableId) == Some(d);
    var e := ByUuid(documents, t.taggableId);
    if e.Some? {
      UuidIsNoNumber(documents[e.value].uuid, d);
    }
  }

  lemma SameDownIff(documents: map<int, Document>, s: Tag, t: Tag)
    requires UniqueUuids(documents) && UuidKeys(documents) && s != t
    ensures TagDown(documents, s) == TagDown(documents, t) <==> Clash(documents, s, t) || Clash(documents, t, s)
  {
    forall u: Tag, v: Tag | Clash(documents, u, v)
      ensures TagDown(documents, u) == TagDown(documents, v)
    {
      ClashMeetsDown(documents, u, v);
    }
  }

  lemma ClashMeetsDown(documents: map<int, Document>, s: Tag, t: Tag)
    requires UniqueUuids(documents) && UuidKeys(documents) && Clash(documents, s, t)
    ensures TagDown(documents, s) == TagDown(documents, t)
  {
    var d :| d in documents && documents[d].uuid == s.taggableId && IntText(d) == t.taggableId;
    IntTextInjective(ByText(documents, t.taggableId).value, d);
    var e := ByText(documents, s.taggableId);
    if e.Some? {
      UuidIsNoNumber(documents[d].uuid, e.value);
    }
  }

  /** Main result: either remap meets the primary key exactly when one tag is set on a document in both ways. */
  lemma RemapKeepsKeyIff(documents: map<int, Document>, tags: map<int, Tag>)
    requires UniqueUuids(documents) && UuidKeys(documents) && UniqueTags(tags)
    ensures UniqueTags(TagsUp(documents, tags)) <==> !TagsClash(documents, tags)
    ensures UniqueTags(TagsDown(documents, tags)) <==> !TagsClash(documents, tags)
  {
    forall j | j in tags ensures !Clash(documents, tags[j], tags[j]) {
      NoClashAlone(documents, tags[j]);
    }
    forall j, k | j in tags && k in tags && j != k ensures tags[j] != tags[k] {
    }
    RemapMeetsKeyIff(documents, tags);
  }

  lemma RemapMeetsKeyIff(documents: map<int, Document>, tags: map<int, Tag>)
    requires UniqueUuids(documents) && UuidKeys(documents)
    requires forall j, k :: j in tags && k in tags ==> (tags[j] == tags[k] <==> j == k)
    requires forall j :: j in tags ==> !Clash(documents, tags[j], tags[j])
    ensures UniqueTags(TagsUp(documents, tags)) <==> !TagsClash(documents, tags)
    ensures UniqueTags(TagsDown(documents, tags)) <==> !TagsClash(documents, tags)
  {
    var up, down := TagsUp(documents, tags), TagsDown(documents, tags);
    hide Clash, TagUp, TagDown, UuidKeys, UniqueUuids;
    forall j, k | j in tags && k in tags && j != k
      ensures up[j] == up[k] <==> Clash(documents, tags[j], tags[k]) || Clash(documents, tags[k], tags[j])
      ensures down[j] == down[k] <==> Clash(documents, tags[j], tags[k]) || Clash(documents, tags[k], tags[j])
    {
      SameUpIff(documents, tags[j], tags[k]);
      SameDownIff(documents, tags[j], tags[k]);
    }
    assert up.Keys == tags.Keys && down.Keys == tags.Keys;
    hide TagsUp, TagsDown;
  }

  lemma NoClashAlone(documents: map<int, Document>, t: Tag)
    requires UuidKeys(documents)
    ensures !Clash(documents, t, t)
  {
    forall d | d in documents ensures documents[d].uuid != IntText(d) {
      UuidIsNoNumber(documents[d].uuid, d);
    }
  }

  /** After the way up no tag names a document by uuid, so the way straight down meets the key. */
  lemma RemappedTagsDoNotClash(documents: map<int, Document>, tags: map<int, Tag>)
    requires UniqueUuids(documents) && UuidKeys(documents)
    ensures !TagsClash(documents, TagsUp(documents, tags))
  {
    forall k, d | k in tags && d in documents && tags[k].taggableType == DOCUMENT
      ensures TagUp(documents, tags[k]).taggableId != documents[d].uuid
    {
      var e := ByUuid(documents, tags[k].taggableId);
      if e.Some? {
        UuidIsNoNumber(documents[d].uuid, e.value);
      }
    }
  }

  // ---- whatever numbers the documents get ----

  predicate UuidTable(legacy: LegacyTable) {
    forall id :: id in legacy ==> IsUuid(id)
  }

  lemma CopiedUuidKeys(legacy: LegacyTable, documents: map<int, Document>)
    requires DocumentsCopied(legacy, documents) && UuidTable(legacy)
    ensures UniqueUuids(documents) && UuidKeys(documents)
  {
    UuidsKnown(legacy, documents);
  }

  /** A tag is set on a legacy row, and also on a number that its document may get. */
  ghost predicate MayClash(legacy: LegacyTable, s: Tag, t: Tag) {
    && s.tagId == t.tagId && s.taggableType == DOCUMENT && t.taggableType == DOCUMENT && s.taggableId in legacy
    && exists n: nat :: 1 <= n <= |legacy| && IntText(n) == t.taggableId
  }

  /** The rows may be copied in an order that gives row `id` the number `n`. */
  lemma NumberGiven(legacy: LegacyTable, id: string, n: nat) returns (documents: map<int, Document>)
    requires id in legacy && 1 <= n <= |legacy|
    ensures DocumentsCopied(legacy, documents) && Numbered(documents.Keys, |legacy|)
    ensures n in documents && documents[n].uuid == id
  {
    var rows := SelectedDocuments(legacy);
    assert rows.Keys == legacy.Keys && |legacy| == |legacy.Keys|;
    SelectedDocumentOf(legacy, id);
    hide SelectedDocuments, IsDocumentOf, Stored, DocumentsCopied;
    ghost var source;
    documents, source := OrderWith(rows, rows.Keys, id, n);
    DocumentsInserted(legacy, documents, source);
  }

  /**
   * Main result: no numbering of the documents breaks the tags' key exactly when no tag is set both on a
   * legacy row and on a number from one to the number of rows.
   */
  lemma NeverClashIff(legacy: LegacyTable, tags: map<int, Tag>)
    ensures (forall documents :: DocumentsCopied(legacy, documents) && Numbered(documents.Keys, |legacy|)
                                 ==> !TagsClash(documents, tags))
       <==> forall j, k :: j in tags && k in tags ==> !MayClash(legacy, tags[j], tags[k])
  {
    if j, k :| j in tags && k in tags && MayClash(legacy, tags[j], tags[k]) {
      var n: nat :| 1 <= n <= |legacy| && IntText(n) == tags[k].taggableId;
      var documents := NumberGiven(legacy, tags[j].taggableId, n);
      assert n in documents && Clash(documents, tags[j], tags[k]);
      assert TagsClash(documents, tags);
    }
    forall documents | DocumentsCopied(legacy, documents) && Numbered(documents.Keys, |legacy|)
                       && TagsClash(documents, tags)
      ensures exists j, k :: j in tags && k in tags && MayClash(legacy, tags[j], tags[k])
    {
      UuidsKnown(legacy, documents);
      var j, k :| j in tags && k in tags && Clash(documents, tags[j], tags[k]);
      assert MayClash(legacy, tags[j], tags[k]);
    }
  }

  /** The only row, and a tag set both on it and on the number it gets: the way up always fails. */
  lemma TagSetTwiceIsRefused(l: Legacy, documents: map<int, Document>)
    requires DocumentsCopied(map[l.id := l], documents) && Numbered(documents.Keys, 1)
    ensures TagsClash(documents, map[0 := Tag(9, DOCUMENT, l.id), 1 := Tag(9, DOCUMENT, "1")])
  {
    var tags := map[0 := Tag(9, DOCUMENT, l.id), 1 := Tag(9, DOCUMENT, "1")];
    UuidsKnown(map[l.id := l], documents);
    assert 1 in documents && documents[1].uuid == l.id && IntText(1) == "1";
    assert Clash(documents, tags[0], tags[1]);
  }

  /** After up and down, no tag is set on a number that a document may get: the next way up meets the key. */
  lemma ReturnedTagsDoNotClash(legacy: LegacyTable, documents: map<int, Document>, tags: map<int, Tag>,
                               again: map<int, Document>)
    requires UuidTable(legacy) && DocumentsCopied(legacy, documents) && again.Keys == documents.Keys
    ensures !TagsClash(again, TagsDown(documents, TagsUp(documents, tags)))
  {
    CopiedUuidKeys(legacy, documents);
    forall t: Tag, d | d in documents && t.taggableType == DOCUMENT
      ensures TagDown(documents, t).taggableId != IntText(d)
    {
      var e := ByText(documents, t.taggableId);
      if e.Some? {
        UuidIsNoNumber(documents[e.value].uuid, d);
      }
    }
    hide TagUp, DocumentsCopied;
  }
}
