/** The document tables after up, down, up, compared with those after up. */
module DocumentNormalForm {
  import opened Basics
  import opened DocumentRows
  import opened DocumentTables

  /** The files of a document, whatever their ids. */
  function FileContents(files: map<int, FileRow>, d: int): set<FileRow> {
    set f | f in files && files[f].document == d :: files[f].(document := 0)
  }

  function LinkContents(links: map<int, LinkRow>, d: int): set<LinkRow> {
    set k | k in links && links[k].document == d :: links[k].(document := 0)
  }

  datatype NewTables = NewTables(documents: map<int, Document>, files: map<int, FileRow>, links: map<int, LinkRow>) {
    ghost predicate CopiedFrom(legacy: LegacyTable, casts: Casts) {
      && DocumentsCopied(legacy, documents) && FilesCopied(legacy, documents, files, casts)
      && LinksCopied(legacy, documents, links)
    }
  }

  /** Documents of one uuid agree, metadata aside, and so do their files and links. */
  predicate SamePair(a: NewTables, b: NewTables, d: int, e: int) {
    && d in a.documents && e in b.documents
    && a.documents[d].(appMetadata := map[]) == b.documents[e].(appMetadata := map[])
    && FileContents(a.files, d) == FileContents(b.files, e)
    && LinkContents(a.links, d) == LinkContents(b.links, e)
  }

  function Uuids(documents: map<int, Document>): set<string> {
    set d | d in documents :: documents[d].uuid
  }

  predicate SameUuid(a: NewTables, b: NewTables, d: int, e: int) {
    d in a.documents && e in b.documents && a.documents[d].uuid == b.documents[e].uuid
  }

  /** Two states of the tables differ in generated ids and document metadata only. */
  ghost predicate SameUpToIds(a: NewTables, b: NewTables) {
    Uuids(a.documents) == Uuids(b.documents) && forall d, e :: SameUuid(a, b, d, e) ==> SamePair(a, b, d, e)
  }

  lemma CopiedContents(m: NewTables, legacy: LegacyTable, casts: Casts, d: int)
    requires m.CopiedFrom(legacy, casts) && d in m.documents
    ensures var l := legacy[m.documents[d].uuid];
      && m.documents[d] == ToDocument(l)
      && FileContents(m.files, d) == {FileRow(0, ToFile(l, casts), true, 0)}
      && LinkContents(m.links, d) == if ToLink(l).Some? then {LinkRow(0, ToLink(l).value, "attachment")} else {}
    ensures m.documents[d].uuid in legacy
  {
    assert IsDocumentOf(legacy, m.documents[d]);
    var l := legacy[m.documents[d].uuid];
    FileOf(m, legacy, casts, d);
    LinkOf(m, legacy, casts, d);
  }

  lemma FileOf(m: NewTables, legacy: LegacyTable, casts: Casts, d: int)
    requires m.CopiedFrom(legacy, casts) && d in m.documents && m.documents[d].uuid in legacy
    ensures FileContents(m.files, d) == {FileRow(0, ToFile(legacy[m.documents[d].uuid], casts), true, 0)}
  {
    hide ToDocument, ToFile, ToLink;
    var f :| f in m.files && m.files[f].document == d;
    assert IsFileOf(legacy, m.documents, m.files[f], casts);
    assert m.files[f].(document := 0) in FileContents(m.files, d);
  }

  lemma LinkOf(m: NewTables, legacy: LegacyTable, casts: Casts, d: int)
    requires m.CopiedFrom(legacy, casts) && d in m.documents && m.documents[d].uuid in legacy
    ensures var link := ToLink(legacy[m.documents[d].uuid]);
      LinkContents(m.links, d) == if link.Some? then {LinkRow(0, link.value, "attachment")} else {}
  {
    hide ToDocument, ToFile, ToLink;
    forall k | k in m.links && m.links[k].document == d
      ensures Some(m.links[k].link) == ToLink(legacy[m.documents[d].uuid]) && m.links[k].role == "attachment"
    {
      assert IsLinkOf(legacy, m.documents, m.links[k]);
    }
    if ToLink(legacy[m.documents[d].uuid]).Some? {
      var k :| k in m.links && m.links[k].document == d;
      assert m.links[k].(document := 0) in LinkContents(m.links, d);
    }
  }

  lemma SamePairIff(a: NewTables, b: NewTables, before: LegacyTable, after: LegacyTable, casts: Casts, d: int, e: int)
    requires a.CopiedFrom(before, casts) && b.CopiedFrom(after, casts)
    requires after.Keys == before.Keys && forall id :: id in before ==> after[id] == RoundTrip(before[id], casts)
    requires SameUuid(a, b, d, e)
    ensures a.documents[d].uuid in before
    ensures SamePair(a, b, d, e) <==> Normalises(before[a.documents[d].uuid], casts)
  {
    CopiedContents(a, before, casts, d);
    CopiedContents(b, after, casts, e);
    var l := before[a.documents[d].uuid];
    NormalFormIff(l, casts);
    hide RoundTrip, ToDocument, ToFile, ToLink, Normalises, FileContents, LinkContents, DocumentsCopied, FilesCopied,
      LinksCopied;
    var r := RoundTrip(l, casts);
    assert {FileRow(0, ToFile(l, casts), true, 0)} == {FileRow(0, ToFile(r, casts), true, 0)}
      <==> ToFile(l, casts) == ToFile(r, casts) by {
      assert FileRow(0, ToFile(l, casts), true, 0) in {FileRow(0, ToFile(l, casts), true, 0)};
    }
    LinkSets(ToLink(l), ToLink(r));
  }

  lemma LinkSets(p: Option<Link>, q: Option<Link>)
    ensures (if p.Some? then {LinkRow(0, p.value, "attachment")} else {})
            == (if q.Some? then {LinkRow(0, q.value, "attachment")} else {})
       <==> p == q
  {
    assert p.Some? ==> LinkRow(0, p.value, "attachment") in {LinkRow(0, p.value, "attachment")};
    assert q.Some? ==> LinkRow(0, q.value, "attachment") in {LinkRow(0, q.value, "attachment")};
  }

  /**
   * Main result: up, down and up again leaves the tables of the first way up, generated ids and metadata
   * aside, exactly when every legacy row normalises.
   */
  lemma TablesNormalFormIff(a: NewTables, b: NewTables, before: LegacyTable, after: LegacyTable, casts: Casts)
    requires a.CopiedFrom(before, casts) && b.CopiedFrom(after, casts)
    requires after.Keys == before.Keys && forall id :: id in before ==> after[id] == RoundTrip(before[id], casts)
    ensures SameUpToIds(a, b) <==> forall id :: id in before ==> Normalises(before[id], casts)
  {
    hide SamePair, Normalises, RoundTrip, NewTables.CopiedFrom;
    CopiedUuids(a, before, casts);
    CopiedUuids(b, after, casts);
    forall d, e | SameUuid(a, b, d, e)
      ensures a.documents[d].uuid in before
      ensures SamePair(a, b, d, e) <==> Normalises(before[a.documents[d].uuid], casts)
    {
      SamePairIff(a, b, before, after, casts, d, e);
    }
    if SameUpToIds(a, b) {
      forall id | id in before ensures Normalises(before[id], casts) {
        var d, e := PairOf(a, b, id);
        assert SamePair(a, b, d, e);
      }
    }
  }

  lemma CopiedUuids(m: NewTables, legacy: LegacyTable, casts: Casts)
    requires m.CopiedFrom(legacy, casts)
    ensures Uuids(m.documents) == legacy.Keys
  {
    hide ToDocument, FilesCopied, LinksCopied;
    forall d | d in m.documents ensures m.documents[d].uuid in legacy {
      assert IsDocumentOf(legacy, m.documents[d]);
    }
  }

  lemma PairOf(a: NewTables, b: NewTables, id: string) returns (d: int, e: int)
    requires id in Uuids(a.documents) && id in Uuids(b.documents)
    ensures SameUuid(a, b, d, e) && a.documents[d].uuid == id
  {
    d :| d in a.documents && a.documents[d].uuid == id;
    e :| e in b.documents && b.documents[e].uuid == id;
  }
}
