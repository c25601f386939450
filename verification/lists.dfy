/** The two "most recent first" list views: `RecentDocuments` and `ClientList`.
    Both sort a copy of the registry, cut it to `limit`, and offer a
    "view all" button when more entries exist than the limit. */
module Lists {
  import opened Common
  import opened Records
  import opened Seqs
  import opened Sorting
  import opened Labels
  import DocumentRegistry

  /** A document row: the document, its size rendering and its icon. */
  datatype DocumentRow = DocumentRow(doc: Document, size: SizeText, icon: Icon)

  datatype RecentView = RecentView(rows: seq<DocumentRow>, viewAll: bool)

  function Docs(rows: seq<DocumentRow>): (r: seq<Document>)
    ensures |r| == |rows| && forall i :: 0 <= i < |rows| ==> r[i] == rows[i].doc
  {
    seq(|rows|, i requires 0 <= i < |rows| => rows[i].doc)
  }

  /** The documents `RecentDocuments` chooses from: the given client's when
      a non-empty client id is passed, otherwise every document. */
  function Candidates(docs: seq<Document>, clientId: Option<string>): (r: seq<Document>)
    ensures clientId.None? || clientId.value == "" ==> r == docs
    ensures clientId.Some? && clientId.value != "" ==>
      r == DocumentRegistry.ClientDocuments(docs, clientId.value)
  {
    if clientId.Some? && clientId.value != "" then DocumentRegistry.ClientDocuments(docs, clientId.value)
    else docs
  }

  function Row(d: Document): (r: DocumentRow)
    ensures r.doc == d && r.size == FormatFileSize(d.size) && r.icon == IconFor(d.fileType)
  {
    DocumentRow(d, FormatFileSize(d.size), IconFor(d.fileType))
  }

  function DocumentRows(shown: seq<Document>): (rows: seq<DocumentRow>)
    ensures Docs(rows) == shown
    ensures forall i :: 0 <= i < |rows| ==> rows[i] == Row(shown[i])
  {
    seq(|shown|, i requires 0 <= i < |shown| => Row(shown[i]))
  }

  /** The newest-first prefix `[...s].sort(...).slice(0, limit)`. */
  function NewestFirst<T>(s: seq<T>, key: T -> int, limit: Option<int>): (r: seq<T>)
    ensures SortedDesc(r, key)
    ensures multiset(r) <= multiset(s)
    ensures limit.None? ==> |r| == |s|
    ensures limit.Some? && limit.value >= 0 ==> |r| == Min(limit.value, |s|)
    ensures limit.Some? && limit.value < 0 ==> |r| == Max(0, |s| + limit.value)
    ensures r == SliceTo(SortDesc(s, key), limit)
  {
    var sorted := SortDesc(s, key);
    var shown := SliceTo(sorted, limit);
    PrefixMultiset(sorted, |shown|);
    shown
  }

  lemma PrefixMultiset<T>(s: seq<T>, n: nat)
    requires n <= |s|
    ensures multiset(s[..n]) <= multiset(s)
  {
    assert s == s[..n] + s[n..];
  }

  /** `RecentDocuments`: the candidates newest first, cut to `limit`
      (`slice(0, limit)`), each with its size and icon. The "view all" button
      sits inside the non-empty branch, so it needs a row on screen as well
      as more candidates than `limit || 0`. */
  function RecentDocumentsView(docs: seq<Document>, limit: Option<int>, showViewAll: bool,
                               clientId: Option<string>): (v: RecentView)
    ensures SortedDesc(Docs(v.rows), UploadedAt)
    ensures multiset(Docs(v.rows)) <= multiset(Candidates(docs, clientId))
    ensures limit.None? ==> |v.rows| == |Candidates(docs, clientId)|
    ensures limit.Some? && limit.value >= 0 ==> |v.rows| == Min(limit.value, |Candidates(docs, clientId)|)
    ensures limit.Some? && limit.value < 0 ==> |v.rows| == Max(0, |Candidates(docs, clientId)| + limit.value)
    ensures v.viewAll <==> |v.rows| > 0 && showViewAll && |Candidates(docs, clientId)| > limit.GetOr(0)
    ensures Docs(v.rows) == NewestFirst(Candidates(docs, clientId), UploadedAt, limit)
    ensures forall i :: 0 <= i < |v.rows| ==>
      v.rows[i].size == FormatFileSize(v.rows[i].doc.size) && v.rows[i].icon == IconFor(v.rows[i].doc.fileType)
  {
    var cands := Candidates(docs, clientId);
    var shown := NewestFirst(cands, UploadedAt, limit);
    var rows := DocumentRows(shown);
    RecentView(rows, |rows| > 0 && showViewAll && |cands| > limit.GetOr(0))
  }

  /** No element left out of the newest-first prefix has a greater key than
      any element kept in it. */
  lemma NewestFirstShowsNewest<T>(s: seq<T>, key: T -> int, limit: Option<int>, hidden: T, i: nat)
    requires i < |NewestFirst(s, key, limit)|
    requires hidden in s && hidden !in NewestFirst(s, key, limit)
    ensures key(hidden) <= key(NewestFirst(s, key, limit)[i])
  {
    var sorted := SortDesc(s, key);
    var shown := NewestFirst(s, key, limit);
    assert hidden in multiset(sorted);
    var j :| 0 <= j < |sorted| && sorted[j] == hidden;
    assert shown == sorted[..|shown|];
    assert j >= |shown|;
  }

  /** The list shows the newest candidates: no candidate left off the list
      is newer than any document on it. */
  lemma RecentShowsNewest(docs: seq<Document>, limit: Option<int>, showViewAll: bool,
                          clientId: Option<string>, hidden: Document, i: nat)
    requires var v := RecentDocumentsView(docs, limit, showViewAll, clientId);
             i < |v.rows| && hidden in Candidates(docs, clientId) && hidden !in Docs(v.rows)
    ensures hidden.uploadedAt <= RecentDocumentsView(docs, limit, showViewAll, clientId).rows[i].doc.uploadedAt
  {
    var v := RecentDocumentsView(docs, limit, showViewAll, clientId);
    var shown := NewestFirst(Candidates(docs, clientId), UploadedAt, limit);
    assert Docs(v.rows) == shown;
    NewestFirstShowsNewest(Candidates(docs, clientId), UploadedAt, limit, hidden, i);
  }

  /** With a positive limit the button appears exactly when some candidate is
      not on screen; without a limit it appears whenever there is any
      candidate, although then every candidate is already shown. */
  lemma ViewAllMeansMore(docs: seq<Document>, limit: Option<int>, showViewAll: bool, clientId: Option<string>)
    ensures var v := RecentDocumentsView(docs, limit, showViewAll, clientId);
            var cands := Candidates(docs, clientId);
            && (limit.Some? && limit.value > 0 ==> (v.viewAll <==> showViewAll && |v.rows| < |cands|))
            && (limit.None? ==> (v.viewAll <==> showViewAll && |cands| > 0) && |v.rows| == |cands|)
            && (limit == Some(0) ==> !v.viewAll)
  {
  }

  // ---- ClientList ----

  /** A client row: the client and its avatar initials. */
  datatype ClientRow = ClientRow(client: Client, initials: string)

  datatype ClientListView = ClientListView(rows: seq<ClientRow>, viewAll: bool)

  function ClientRows(shown: seq<Client>): (rows: seq<ClientRow>)
    ensures ClientsOf(rows) == shown
    ensures forall i :: 0 <= i < |rows| ==> rows[i].initials == Initials(rows[i].client.name)
  {
    seq(|shown|, i requires 0 <= i < |shown| => ClientRow(shown[i], Initials(shown[i].name)))
  }

  function ClientsOf(rows: seq<ClientRow>): (r: seq<Client>)
    ensures |r| == |rows| && forall i :: 0 <= i < |rows| ==> r[i] == rows[i].client
  {
    seq(|rows|, i requires 0 <= i < |rows| => rows[i].client)
  }

  /** `ClientList`: clients newest first by creation date, cut to `limit`,
      each with its initials; "view all clients" needs a row on screen and
      more clients than `limit || 0`. */
  function ClientListing(clients: seq<Client>, limit: Option<int>, showViewAll: bool): (v: ClientListView)
    ensures SortedDesc(ClientsOf(v.rows), CreatedAt)
    ensures multiset(ClientsOf(v.rows)) <= multiset(clients)
    ensures limit.None? ==> |v.rows| == |clients|
    ensures limit.Some? && limit.value >= 0 ==> |v.rows| == Min(limit.value, |clients|)
    ensures limit.Some? && limit.value < 0 ==> |v.rows| == Max(0, |clients| + limit.value)
    ensures v.viewAll <==> |v.rows| > 0 && showViewAll && |clients| > limit.GetOr(0)
    ensures ClientsOf(v.rows) == NewestFirst(clients, CreatedAt, limit)
    ensures forall i :: 0 <= i < |v.rows| ==> v.rows[i].initials == Initials(v.rows[i].client.name)
    ensures forall i :: 0 <= i < |v.rows| ==> |v.rows[i].initials| <= 2
  {
    var rows := ClientRows(NewestFirst(clients, CreatedAt, limit));
    ClientListView(rows, |rows| > 0 && showViewAll && |clients| > limit.GetOr(0))
  }

  /** The list shows the newest clients: no client left off the list was
      created after any client on it. */
  lemma ClientListShowsNewest(clients: seq<Client>, limit: Option<int>, showViewAll: bool,
                              hidden: Client, i: nat)
    requires var v := ClientListing(clients, limit, showViewAll);
             i < |v.rows| && hidden in clients && hidden !in ClientsOf(v.rows)
    ensures hidden.createdAt <= ClientListing(clients, limit, showViewAll).rows[i].client.createdAt
  {
    var v := ClientListing(clients, limit, showViewAll);
    assert ClientsOf(v.rows) == NewestFirst(clients, CreatedAt, limit);
    NewestFirstShowsNewest(clients, CreatedAt, limit, hidden, i);
  }
}
