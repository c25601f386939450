/** The derived views of the Documents, Clients and ClientDetails pages. */
module Pages {
  import opened Common
  import opened Records
  import opened Seqs
  import opened Text
  import opened Labels
  import ClientRegistry
  import DocumentRegistry

  /** The case-insensitive search both list pages use:
      `text.toLowerCase().includes(query.toLowerCase())`. */
  predicate Matches(text: string, query: string) {
    Contains(ToLower(text), ToLower(query))
  }

  lemma EmptyQueryMatches(text: string)
    ensures Matches(text, "")
  {
  }

  /** A match means the lower-cased query occurs in the lower-cased text. */
  lemma MatchesMeansOccurs(text: string, query: string)
    ensures Matches(text, query) <==> exists i :: OccursAt(ToLower(text), ToLower(query), i)
  {
    ContainsIffOccurs(ToLower(text), ToLower(query));
  }

  // ---- Documents page ----

  predicate IsClientViewer(viewer: Option<User>) {
    viewer.Some? && viewer.value.role == RoleClient
  }

  /** `user?.role === 'accountant'`: only an accountant sees the client column. */
  predicate IsAccountant(viewer: Option<User>) {
    viewer.Some? && viewer.value.role == RoleAccountant
  }

  /** One document's test in `filteredDocuments`. */
  predicate DocumentPasses(d: Document, query: string, clientFilter: string, viewer: Option<User>) {
    var matchesSearch := Matches(d.name, query);
    var matchesClient := clientFilter == "all" || d.clientId == clientFilter;
    if IsClientViewer(viewer) then matchesSearch && d.clientId == viewer.value.id
    else matchesSearch && matchesClient
  }

  /** `filteredDocuments`: a client-role viewer sees only documents under its
      own id and the client filter is ignored; anyone else (or no one) gets
      the client filter, where "all" keeps every client. */
  function FilterDocuments(docs: seq<Document>, query: string, clientFilter: string,
                           viewer: Option<User>): (r: seq<Document>)
    ensures IsSubseq(r, docs)
    ensures IsClientViewer(viewer) ==>
      && (forall i :: 0 <= i < |r| ==> r[i] in docs && Matches(r[i].name, query) && r[i].clientId == viewer.value.id)
      && (forall i :: 0 <= i < |docs| && Matches(docs[i].name, query) && docs[i].clientId == viewer.value.id
                      ==> docs[i] in r)
    ensures !IsClientViewer(viewer) ==>
      && (forall i :: 0 <= i < |r| ==>
            (r[i] in docs && Matches(r[i].name, query) && (clientFilter == "all" || r[i].clientId == clientFilter)))
      && (forall i :: 0 <= i < |docs| ==>
            (Matches(docs[i].name, query) && (clientFilter == "all" || docs[i].clientId == clientFilter) ==> docs[i] in r))
    ensures !IsClientViewer(viewer) && query == "" && clientFilter == "all" ==> r == docs
    ensures forall d: Document ::
      multiset(r)[d] == if DocumentPasses(d, query, clientFilter, viewer) then multiset(docs)[d] else 0
  {
    FilterMultiset(docs, (d: Document) => DocumentPasses(d, query, clientFilter, viewer));
    Filter(docs, (d: Document) => DocumentPasses(d, query, clientFilter, viewer))
  }

  /** For a client-role viewer the client filter has no effect. */
  lemma ClientViewerIgnoresFilter(docs: seq<Document>, query: string, f1: string, f2: string, viewer: Option<User>)
    requires IsClientViewer(viewer)
    ensures FilterDocuments(docs, query, f1, viewer) == FilterDocuments(docs, query, f2, viewer)
    decreases |docs|
  {
    if |docs| > 0 {
      ClientViewerIgnoresFilter(docs[1..], query, f1, f2, viewer);
    }
  }

  /** `getClientName`: the first client with the id gives its name, else
      "Unknown Client". */
  function ClientName(clients: seq<Client>, id: string): (r: string)
    ensures (forall i :: 0 <= i < |clients| ==> clients[i].id != id) ==> r == "Unknown Client"
    ensures (exists i :: 0 <= i < |clients| && clients[i].id == id) ==>
      exists i :: 0 <= i < |clients| && clients[i].id == id && r == clients[i].name
                  && forall j :: 0 <= j < i ==> clients[j].id != id
  {
    match ClientRegistry.GetClient(clients, id)
    case Some(c) => c.name
    case None => "Unknown Client"
  }

  /** The card title: the filtered client's name, or "All Documents". */
  function DocumentsTitle(clients: seq<Client>, clientFilter: string): (r: string)
    ensures clientFilter == "all" ==> r == "All Documents"
    ensures clientFilter != "all" ==> r == "Documents for " + ClientName(clients, clientFilter)
  {
    if clientFilter != "all" then "Documents for " + ClientName(clients, clientFilter) else "All Documents"
  }

  /** The card description "N document(s) found": singular exactly for one. */
  function FoundLabel(count: nat): (r: string)
    ensures r == NatToString(count) + " document found" <==> count == 1
    ensures count != 1 ==> r == NatToString(count) + " documents found"
  {
    NatToString(count) + " " + (if count == 1 then "document" else "documents") + " found"
  }

  /** A row of the documents table: the document, its client's name when the
      client column is rendered (for an accountant only), and its size. */
  datatype DocumentLine = DocumentLine(doc: Document, clientName: Option<string>, size: SizeText)

  datatype DocumentsPage = DocumentsPage(title: string, found: string, lines: seq<DocumentLine>)

  function ClientColumn(clients: seq<Client>, d: Document, accountant: bool): Option<string> {
    if accountant then Some(ClientName(clients, d.clientId)) else None
  }

  function DocumentLines(docs: seq<Document>, clients: seq<Client>, accountant: bool): (lines: seq<DocumentLine>)
    ensures |lines| == |docs|
    ensures forall i :: 0 <= i < |docs| ==>
      lines[i] == DocumentLine(docs[i], ClientColumn(clients, docs[i], accountant), FormatFileSize(docs[i].size))
  {
    seq(|docs|, i requires 0 <= i < |docs| =>
      DocumentLine(docs[i], ClientColumn(clients, docs[i], accountant), FormatFileSize(docs[i].size)))
  }

  /** The Documents page: its title, the "N document(s) found" line, and one
      table line per filtered document. */
  function DocumentsPageView(docs: seq<Document>, clients: seq<Client>, query: string,
                             clientFilter: string, viewer: Option<User>): (v: DocumentsPage)
    ensures var shown := FilterDocuments(docs, query, clientFilter, viewer);
      && |v.lines| == |shown|
      && (forall i :: 0 <= i < |shown| ==> v.lines[i].doc == shown[i])
      && v.found == FoundLabel(|shown|)
    ensures v.title == DocumentsTitle(clients, clientFilter)
    ensures forall i :: 0 <= i < |v.lines| ==>
      (v.lines[i].clientName.Some? <==> IsAccountant(viewer))
      && (IsAccountant(viewer) ==> v.lines[i].clientName == Some(ClientName(clients, v.lines[i].doc.clientId)))
      && v.lines[i].size == FormatFileSize(v.lines[i].doc.size)
  {
    var shown := FilterDocuments(docs, query, clientFilter, viewer);
    DocumentsPage(DocumentsTitle(clients, clientFilter), FoundLabel(|shown|),
                  DocumentLines(shown, clients, IsAccountant(viewer)))
  }

  // ---- Clients page ----

  /** One client's test in `filteredClients`: the query in the name, the
      email, or the company when there is a non-empty one. */
  predicate ClientPasses(c: Client, query: string) {
    || Matches(c.name, query)
    || Matches(c.email, query)
    || (c.company.Some? && c.company.value != "" && Matches(c.company.value, query))
  }

  /** `filteredClients`: the clients passing the search, in registry order. */
  function FilterClients(clients: seq<Client>, query: string): (r: seq<Client>)
    ensures IsSubseq(r, clients)
    ensures forall i :: 0 <= i < |r| ==>
      (r[i] in clients && (Matches(r[i].name, query) || Matches(r[i].email, query)
                           || (r[i].company.Some? && Matches(r[i].company.value, query))))
    ensures forall i :: 0 <= i < |clients| ==>
      (Matches(clients[i].name, query) || Matches(clients[i].email, query)
       || (clients[i].company.Some? && Matches(clients[i].company.value, query))) ==> clients[i] in r
    ensures query == "" ==> r == clients
    ensures forall c: Client :: multiset(r)[c] == if ClientPasses(c, query) then multiset(clients)[c] else 0
  {
    FilterMultiset(clients, (c: Client) => ClientPasses(c, query));
    Filter(clients, (c: Client) => ClientPasses(c, query))
  }

  /** A client without a company can only be found by name or email. */
  lemma NoCompanyMatchesByNameOrEmail(c: Client, query: string)
    requires c.company.None?
    ensures ClientPasses(c, query) <==> Matches(c.name, query) || Matches(c.email, query)
  {
  }

  /** A row of the client table: the client and its avatar initials. */
  datatype ClientLine = ClientLine(client: Client, initials: string)

  datatype ClientsPage = ClientsPage(total: nat, lines: seq<ClientLine>)

  function ClientLines(clients: seq<Client>): (lines: seq<ClientLine>)
    ensures |lines| == |clients|
    ensures forall i :: 0 <= i < |clients| ==> lines[i] == ClientLine(clients[i], Initials(clients[i].name))
  {
    seq(|clients|, i requires 0 <= i < |clients| => ClientLine(clients[i], Initials(clients[i].name)))
  }

  /** The Clients page: the registry total and one line per matching client. */
  function ClientsPageView(clients: seq<Client>, query: string): (v: ClientsPage)
    ensures v.total == |clients|
    ensures var shown := FilterClients(clients, query);
      |v.lines| == |shown| && forall i :: 0 <= i < |shown| ==> v.lines[i].client == shown[i]
    ensures forall i :: 0 <= i < |v.lines| ==>
      |v.lines[i].initials| <= 2 && v.lines[i].initials == Initials(v.lines[i].client.name)
  {
    ClientsPage(|clients|, ClientLines(FilterClients(clients, query)))
  }

  // ---- ClientDetails page ----

  /** A document line of the page's tables: the document and its size. */
  datatype DetailRow = DetailRow(doc: Document, size: SizeText)

  datatype DetailsView = DetailsView(
    client: Client,
    initials: string,
    documents: seq<Document>,
    documentCount: nat,
    preview: seq<Document>,
    rows: seq<DetailRow>)

  function DetailRows(docs: seq<Document>): (rows: seq<DetailRow>)
    ensures |rows| == |docs|
    ensures forall i :: 0 <= i < |docs| ==> rows[i] == DetailRow(docs[i], FormatFileSize(docs[i].size))
  {
    seq(|docs|, i requires 0 <= i < |docs| => DetailRow(docs[i], FormatFileSize(docs[i].size)))
  }

  /** `ClientDetails` for the route id (absent reads as ""): nothing when no
      client has it; otherwise the client's documents in registry order, their
      count, the first three unsorted as the overview preview, and the avatar
      initials. */
  function ClientDetailsView(routeId: Option<string>, clients: seq<Client>, docs: seq<Document>): (v: Option<DetailsView>)
    ensures v.None? <==> forall i :: 0 <= i < |clients| ==> clients[i].id != routeId.GetOr("")
    ensures v.Some? ==>
      && ClientRegistry.GetClient(clients, routeId.GetOr("")) == Some(v.value.client)
      && v.value.documents == DocumentRegistry.ClientDocuments(docs, v.value.client.id)
      && v.value.documentCount == |v.value.documents|
      && v.value.preview == v.value.documents[..Min(3, |v.value.documents|)]
      && |v.value.initials| <= 2
      && v.value.initials == Initials(v.value.client.name)
      && |v.value.rows| == |v.value.documents|
      && (forall i :: 0 <= i < |v.value.rows| ==>
            v.value.rows[i] == DetailRow(v.value.documents[i], FormatFileSize(v.value.documents[i].size)))
  {
    match ClientRegistry.GetClient(clients, routeId.GetOr(""))
    case None => None
    case Some(c) =>
      var mine := DocumentRegistry.ClientDocuments(docs, c.id);
      Some(DetailsView(c, Initials(c.name), mine, |mine|, Take(mine, 3), DetailRows(mine)))
  }
}
