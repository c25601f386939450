/** The document registry (`DocumentContext`): upload, delete, and the
    per-client listing. */
module DocumentRegistry {
  import opened Records
  import opened Seqs
  import opened Text

  /** What the upload reads from the browser's `File`. */
  datatype FileInfo = FileInfo(name: string, size: nat)

  /** The registry's initial contents: three documents of client "2". */
  function Seed(): seq<Document> {
    [ Document("1", "Invoice - January 2023", "pdf", 342000, 1673740800000, "2", "#"),
      Document("2", "Tax Return 2022", "pdf", 1240000, 1675987200000, "2", "#"),
      Document("3", "Financial Statement Q1", "xlsx", 654000, 1679270400000, "2", "#") ]
  }

  /** `file.name.split('.').pop() || 'unknown'`: the text after the last dot,
      or the whole name when it has none; an empty segment becomes "unknown". */
  function FileTypeOf(name: string): (t: string)
    ensures |t| > 0
    ensures '.' !in name && name != "" ==> t == name
    ensures '.' in name && name[|name| - 1] != '.' ==>
      '.' !in t && |t| < |name| && name[|name| - |t|..] == t && name[|name| - |t| - 1] == '.'
    ensures t == "unknown" <==> name == "" || name[|name| - 1] == '.' || LastSegment(name, '.') == "unknown"
  {
    var ext := LastSegment(name, '.');
    if ext == "" then "unknown" else ext
  }

  /** `uploadDocument`: appends one document whose id is the decimal string
      of the new length; `now` and `url` stand for the clock and the object
      URL the browser creates. The client id is not checked. */
  function UploadDocument(docs: seq<Document>, file: FileInfo, clientId: string,
                          now: Timestamp, url: string): (r: seq<Document>)
    ensures |r| == |docs| + 1 && r[..|docs|] == docs
    ensures r[|docs|].id == NatToString(|docs| + 1)
    ensures r[|docs|].name == file.name && r[|docs|].size == file.size
    ensures r[|docs|].clientId == clientId && r[|docs|].uploadedAt == now && r[|docs|].url == url
    ensures r[|docs|].fileType == FileTypeOf(file.name)
  {
    docs + [Document(NatToString(|docs| + 1), file.name, FileTypeOf(file.name), file.size,
                     now, clientId, url)]
  }

  /** `deleteDocument`: keeps exactly the documents with another id, in order. */
  function DeleteDocument(docs: seq<Document>, id: string): (r: seq<Document>)
    ensures forall i :: 0 <= i < |r| ==> r[i] in docs && r[i].id != id
    ensures forall i :: 0 <= i < |docs| && docs[i].id != id ==> docs[i] in r
    ensures IsSubseq(r, docs)
    ensures (forall i :: 0 <= i < |docs| ==> docs[i].id != id) ==> r == docs
    ensures forall d: Document :: multiset(r)[d] == if d.id != id then multiset(docs)[d] else 0
  {
    FilterMultiset(docs, (d: Document) => d.id != id);
    Filter(docs, (d: Document) => d.id != id)
  }

  /** Deleting twice is deleting once. */
  lemma DeleteDocumentIdempotent(docs: seq<Document>, id: string)
    ensures DeleteDocument(DeleteDocument(docs, id), id) == DeleteDocument(docs, id)
  {
  }

  function OwnedBy(clientId: string): Document -> bool {
    (d: Document) => d.clientId == clientId
  }

  /** `getClientDocuments`: the client's documents in registry order. */
  function ClientDocuments(docs: seq<Document>, clientId: string): (r: seq<Document>)
    ensures forall i :: 0 <= i < |r| ==> r[i] in docs && r[i].clientId == clientId
    ensures forall i :: 0 <= i < |docs| && docs[i].clientId == clientId ==> docs[i] in r
    ensures IsSubseq(r, docs)
    ensures forall d: Document :: multiset(r)[d] == if d.clientId == clientId then multiset(docs)[d] else 0
  {
    FilterMultiset(docs, OwnedBy(clientId));
    Filter(docs, OwnedBy(clientId))
  }

  /** After an upload for `clientId`, that client's listing is the old listing
      followed by the new document, and every other client's is unchanged. */
  lemma UploadThenListed(docs: seq<Document>, file: FileInfo, clientId: string, now: Timestamp,
                         url: string, other: string)
    ensures var r := UploadDocument(docs, file, clientId, now, url);
            ClientDocuments(r, clientId) == ClientDocuments(docs, clientId) + [r[|docs|]]
    ensures var r := UploadDocument(docs, file, clientId, now, url);
            other != clientId ==> ClientDocuments(r, other) == ClientDocuments(docs, other)
  {
    var r := UploadDocument(docs, file, clientId, now, url);
    assert r == docs + [r[|docs|]];
    FilterAppend(docs, r[|docs|], OwnedBy(clientId));
    FilterAppend(docs, r[|docs|], OwnedBy(other));
  }

  /** Ids come from the length, so after deleting the first seeded document
      the next upload re-issues the id "3" that the last seeded one holds. */
  lemma SeedDeleteThenUploadCollides(file: FileInfo, clientId: string, now: Timestamp, url: string)
    ensures var remaining := DeleteDocument(Seed(), "1");
            var r := UploadDocument(remaining, file, clientId, now, url);
            r[|remaining|].id == "3" && Seed()[2] in remaining
  {
  }
}
