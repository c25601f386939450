# Accountant access panel: stores and derived views

A Dafny model of the data core of a document-sharing portal between an
accountant and their clients. The application keeps three in-memory stores:

- the **client registry** (`ClientContext`): add with duplicate-email
  rejection, merge-update, delete, and lookup by id;
- the **document registry** (`DocumentContext`): upload, which derives a
  document's type from its file name, delete, and per-client listing;
- the **session store** (`AuthContext`): login by email, logout, signup and
  the store's own add-client, over a module-level user list plus the
  signed-in user.

Around them, the dashboard and page components compute derived views: the most
recent document, the document-type breakdown, case-insensitive search filters,
newest-first lists cut to a limit with a "view all" button, avatar initials,
file-size bands, and the document-type icon.

Every store operation is a pure function from the registry to the next
registry. Operations that can fail return a `Reply(state, status)`, and a failed
call hands back the registry it was given. Dates are integer timestamps in
milliseconds, and only their order matters. Strings are `seq<char>`, with ASCII
case mapping. Ids are the decimal strings the source builds with `toString()`.

Files:

- `common.dfy`: `Option`, `Error`, `Reply`.
- `seqs.dfy`: `filter`, `find`, and `slice`/`substring` prefixes.
- `text.dfy`: case mapping, `includes`, decimal rendering, `split`/`join`.
- `records.dfy`: the `User`, `Client` and `Document` records.
- `sorting.dfy`: the stable newest-first sort.
- `client_registry.dfy`, `document_registry.dfy`, `session.dfy`: the three stores.
- `labels.dfy`: initials, file-size bands, icons, the truncated label.
- `lists.dfy`: the `RecentDocuments` and `ClientList` views.
- `dashboard.dfy`: the client dashboard.
- `pages.dfy`: the Documents, Clients and ClientDetails pages.

Behaviours of the code that a reader may not expect, all modelled as written:

- The "view all" buttons of `RecentDocuments` and `ClientList` are rendered
  only inside the branch for a non-empty list. So the button needs a row on
  screen, as well as more entries than `limit || 0`.
- Looking up a new client's id returns the first record with that id; after
  an id collision that is the older record. From the seeded registry, the very first
  add collides: the seed client has id "2" in a list of length one.
- A document type is "unknown" when the text after the last dot is empty.
  That happens for an empty name or a name ending in a dot, not for a name
  without a dot. Such a name is its own type.

## Model

| member | source | states |
|---|---|---|
| ClientRegistry.AddClient | src/context/ClientContext.tsx:47-69 | fails with DuplicateEmail, registry unchanged, iff some client has exactly that email; otherwise appends one record (id = decimal of old length + 1, input fields, creation time) and keeps every earlier record |
| ClientRegistry.AddThenGet | src/context/ClientContext.tsx:57-63 | after a successful add, looking up the new id finds the new record exactly when no earlier record has that id, and the earlier one otherwise |
| ClientRegistry.GetClientAppend | src/context/ClientContext.tsx:100-102 | lookup in an extended list prefers a match in the old part, then the appended record |
| ClientRegistry.SeedAddCollides | src/context/ClientContext.tsx:33-63 | from the seeded registry, the first add with a fresh email yields a second record with id "2", and lookup of "2" still returns the seed record |
| ClientRegistry.DeleteUniqueKeepsLast | src/context/ClientContext.tsx:92 | deleting an id only one record holds shortens the registry by one and keeps the last record |
| ClientRegistry.DeleteThenAddCollides | src/context/ClientContext.tsx:59-92 | when the last record's id equals the length, deleting any other uniquely-identified record and adding re-issues that surviving id |
| ClientRegistry.UpdateClient | src/context/ClientContext.tsx:71-78 | length and order kept; records with another id untouched; matching records take every supplied field (id, date, a cleared phone/company included) and keep the rest |
| ClientRegistry.UpdateAbsentIsNoOp | src/context/ClientContext.tsx:76-78 | updating an id no record has returns the registry unchanged |
| ClientRegistry.UpdateIdempotent | src/context/ClientContext.tsx:76-78 | applying the same update twice equals applying it once |
| ClientRegistry.UpdateCanDuplicateEmail | src/context/ClientContext.tsx:71-78 | an update can give two clients the same email: no uniqueness check |
| ClientRegistry.DeleteClient | src/context/ClientContext.tsx:92 | keeps exactly the records whose id differs, each as many times as before, as an order-preserving subsequence; absent id returns the registry unchanged |
| Seqs.FilterMultiset | src/context/ClientContext.tsx:92 | `filter` keeps every copy of an element that passes and no copy of one that fails |
| ClientRegistry.DeleteIdempotent | src/context/ClientContext.tsx:92 | deleting twice equals deleting once |
| ClientRegistry.GetClient | src/context/ClientContext.tsx:100-102 | none iff no record has the id; otherwise the first record with that id |
| ClientRegistry.DeleteThenGetIsNone | src/context/ClientContext.tsx:92-102 | after deleting an id, lookup of it finds nothing |
| DocumentRegistry.FileTypeOf | src/context/DocumentContext.tsx:76 | the text after the last '.', or the whole name without a '.'; "unknown" exactly when that text is empty (empty name, trailing dot) or is itself "unknown" |
| DocumentRegistry.UploadDocument | src/context/DocumentContext.tsx:73-83 | appends exactly one document, earlier ones unchanged; id = decimal of old length + 1; name, size, client id, time and url from the arguments; type from the name; client id not checked |
| DocumentRegistry.DeleteDocument | src/context/DocumentContext.tsx:96 | keeps exactly the documents whose id differs, each as many times as before, in order; absent id is a no-op |
| DocumentRegistry.DeleteDocumentIdempotent | src/context/DocumentContext.tsx:96 | deleting twice equals deleting once |
| DocumentRegistry.ClientDocuments | src/context/DocumentContext.tsx:104-106 | exactly the documents with that client id, each as many times as in the registry, as an order-preserving subsequence |
| DocumentRegistry.UploadThenListed | src/context/DocumentContext.tsx:83-106 | after upload for a client, its listing is the old listing plus the new document at the end; other clients' listings unchanged |
| DocumentRegistry.SeedDeleteThenUploadCollides | src/context/DocumentContext.tsx:74-96 | deleting seeded document "1" and uploading re-issues id "3", which a surviving seed document holds |
| Session.Login | src/context/AuthContext.tsx:60-73 | succeeds iff some user has exactly the email; the session becomes the first such user; on failure InvalidCredentials and the state is unchanged; the user list never changes |
| Session.LoginIgnoresPassword | src/context/AuthContext.tsx:60-69 | the result is the same for any two passwords |
| Session.Logout | src/context/AuthContext.tsx:83-87 | the session becomes none, users unchanged |
| Session.LogoutIdempotent | src/context/AuthContext.tsx:83-87 | logging out twice equals once |
| Session.Signup | src/context/AuthContext.tsx:89-112 | fails with DuplicateEmail and unchanged state iff the email is registered; otherwise appends a user with id = decimal of old length + 1 and the given email, name, role, and makes it the session |
| Session.AddClientUser | src/context/AuthContext.tsx:123-142 | same duplicate rule; appends a user with the client role; the session is never changed |
| Session.SeedWellFormed | src/context/AuthContext.tsx:32-45 | the seeded users have positional ids and distinct emails |
| Session.RegistrationPreservesWellFormed | src/context/AuthContext.tsx:96-142 | signup and add-client keep ids positional and emails distinct |
| Session.WellFormedIdsDistinct | src/context/AuthContext.tsx:101 | in such a list no two users share an id |
| Session.SeedLogins | src/context/AuthContext.tsx:32-69 | with any password, admin@example.com signs in as accountant and client@example.com as client; nobody@x.com fails with InvalidCredentials |
| Text.ContainsIffOccurs | src/pages/Documents.tsx:44 | `includes` holds exactly when the needle occurs at some position |
| Text.ToLowerIdempotent | src/components/documents/DocumentIcon.tsx:12 | lower-casing leaves no ASCII capital and is idempotent |
| Text.ParseNatToString | src/context/ClientContext.tsx:59 | the decimal id string reads back as the number it came from |
| Text.NatToStringInjective | src/context/AuthContext.tsx:101 | different lengths give different id strings |
| Text.JoinSplit | src/context/DocumentContext.tsx:76 | joining `split('.')` with '.' gives back the name |
| Text.LastSegment | src/context/DocumentContext.tsx:76 | `split(sep).pop()` is the dot-free suffix preceded by the separator, or the whole string |
| Seqs.SliceTo | src/components/dashboard/ClientList.tsx:21 | `slice(0, limit)`: all when absent, min(limit, n) for limit >= 0, max(0, n + limit) for negative limit, always a prefix |
| Sorting.SortDesc | src/components/dashboard/RecentDocuments.tsx:29-30 | the result is non-increasing by key and a permutation of the input |
| Lists.NewestFirst | src/components/dashboard/RecentDocuments.tsx:30-31 | the sorted copy cut by `slice(0, limit)` is non-increasing by key, draws only on the input's elements, and has the length `slice` gives for an absent, non-negative or negative limit |
| Sorting.SortDescStable | src/components/dashboard/RecentDocuments.tsx:29-30 | entries with equal keys keep their original relative order |
| Labels.FirstLettersOfSplit | src/components/dashboard/ClientList.tsx:23-30 | the first letters of the space-split parts are the characters that start a word in a left-to-right scan |
| Labels.Initials | src/components/dashboard/ClientDashboard.tsx:33-40 | at most 2 characters: the upper-cased first letters of the first two words |
| Labels.InitialsExample | src/pages/Clients.tsx:62-69 | "Al  Bo" gives "AB" (empty parts between spaces contribute nothing) |
| Labels.WordStartsExample | src/pages/Clients.tsx:62-69 | in "Al  Bo" exactly `A` and `B` start a word, despite the run of two spaces |
| Labels.FormatFileSize | src/components/dashboard/RecentDocuments.tsx:33-37 | bytes below 1024, KB below 1048576, MB otherwise; the byte text is the exact integer, without leading zeros, followed by " B" |
| Labels.IconFor | src/components/documents/DocumentIcon.tsx:12-25 | on the lower-cased type: pdf gives the red text icon; xlsx, xls, csv the spreadsheet icon; doc, docx, txt the blue text icon; anything else the generic icon |
| Labels.IconIgnoresCase | src/components/documents/DocumentIcon.tsx:12 | the icon of a type equals the icon of its lower-cased form |
| Labels.IconExamples | src/components/documents/DocumentIcon.tsx:13-24 | "PDF", "Csv", "docx" and "unknown" get the red, spreadsheet, blue and generic icons |
| Labels.LastDocumentLabel | src/components/dashboard/ClientDashboard.tsx:89 | the name itself up to 20 characters; beyond that its first 20 characters and "..." |
| Labels.LastDocumentLabelShowsStart | src/components/dashboard/ClientDashboard.tsx:89 | the label always begins with the name's first (at most 20) characters, and distinct names of at most 20 characters get distinct labels |
| Lists.Candidates | src/components/dashboard/RecentDocuments.tsx:25-27 | absent or empty client id: every document; otherwise only that client's |
| Lists.RecentDocumentsView | src/components/dashboard/RecentDocuments.tsx:25-71 | rows are exactly the candidates stably sorted newest first and cut by `slice(0, limit)` (`Lists.NewestFirst`): non-increasing by upload date, a sub-multiset of the candidates, of length given by `slice(0, limit)`; each row has its size band and icon; "view all" iff a row is shown, showViewAll holds and candidates exceed `limit or 0` |
| Lists.RecentShowsNewest | src/components/dashboard/RecentDocuments.tsx:29-31 | no candidate left off the list is newer than any shown document |
| Lists.NewestFirstShowsNewest | src/components/dashboard/RecentDocuments.tsx:30-31 | no element left out of the sorted, sliced copy has a greater key than any element kept |
| Lists.ViewAllMeansMore | src/components/dashboard/RecentDocuments.tsx:41-71 | with a positive limit the button shows iff some candidate is hidden; with no limit it shows whenever any candidate exists; never with limit 0 |
| Lists.ClientListing | src/components/dashboard/ClientList.tsx:19-64 | rows are exactly the clients stably sorted newest first and cut by `slice(0, limit)` (`Lists.NewestFirst`): non-increasing by creation date, a sub-multiset of the registry, length from `slice(0, limit)`, initials of at most 2 characters; "view all clients" iff a row is shown, showViewAll holds and the count exceeds `limit or 0` |
| Lists.ClientListShowsNewest | src/components/dashboard/ClientList.tsx:19-21 | no client left off the list was created after any listed client |
| Dashboard.LatestIndex | src/components/dashboard/ClientDashboard.tsx:21-22 | the reduce ends on an element no earlier or later one is newer than, and every later element is strictly older: ties go to the later element |
| Dashboard.MostRecent | src/components/dashboard/ClientDashboard.tsx:20-23 | none iff no documents; otherwise a list element no element is newer than, the last such in list order |
| Dashboard.Bump | src/components/dashboard/ClientDashboard.tsx:28 | the bumped key's count grows by one and every other key's is unchanged |
| Dashboard.BumpTotal | src/components/dashboard/ClientDashboard.tsx:28 | one bump adds exactly one to the sum of the counts |
| Dashboard.BumpKeepsShape | src/components/dashboard/ClientDashboard.tsx:26-30 | keys stay distinct, counts stay positive, and no key other than the bumped one appears |
| Dashboard.TypeCounts | src/components/dashboard/ClientDashboard.tsx:26-30 | each lower-cased type's count equals the number of documents with it; counts sum to the number of documents; keys distinct; empty iff no documents |
| Dashboard.HistogramKeys | src/components/dashboard/ClientDashboard.tsx:26-30 | the keys are exactly the lower-cased types that occur |
| Dashboard.BumpKeys | src/components/dashboard/ClientDashboard.tsx:28 | assigning a key keeps the existing keys in place and appends a new key last |
| Dashboard.TypeCountsKeyOrder | src/components/dashboard/ClientDashboard.tsx:26-30 | keys appear in the order the documents first show them: one more document appends its type only when new |
| Dashboard.BreakdownColour | src/components/dashboard/ClientDashboard.tsx:167-170 | red iff pdf, green iff xlsx, blue iff docx, grey otherwise |
| Dashboard.BreakdownDisagreesWithIcon | src/components/dashboard/ClientDashboard.tsx:167-170 | csv is a spreadsheet icon in lists but grey in the breakdown |
| Dashboard.ClientDashboardView | src/components/dashboard/ClientDashboard.tsx:16-140 | the signed-in user's documents (none without a user); "new this month" is min(count, 3) and absent iff no documents; most recent and its truncated label; histogram empty iff no documents; initials or "U"; the recent list (limit 5, view all) iff there are documents |
| Dashboard.SeedHistogram | src/components/dashboard/ClientDashboard.tsx:26-30 | on the seeded documents the histogram is {pdf: 2, xlsx: 1}, in that key order |
| Dashboard.SeedMostRecent | src/components/dashboard/ClientDashboard.tsx:20-23 | on the seeded documents the most recent is the March 20 statement |
| Pages.MatchesMeansOccurs | src/pages/Documents.tsx:44 | the search matches iff the lower-cased query occurs in the lower-cased text |
| Pages.EmptyQueryMatches | src/pages/Clients.tsx:50-54 | the empty query matches every text |
| Pages.FilterDocuments | src/pages/Documents.tsx:43-52 | order-preserving subsequence; a client-role viewer keeps exactly name matches under its own id; anyone else keeps name matches passing the client filter ("all" passes all); every kept document as many times as in the registry; empty query with "all" keeps everything |
| Pages.ClientViewerIgnoresFilter | src/pages/Documents.tsx:47-49 | for a client-role viewer the client filter does not change the result |
| Pages.ClientName | src/pages/Documents.tsx:60-63 | the first client with the id gives its name; no such client gives "Unknown Client" |
| Pages.DocumentsTitle | src/pages/Documents.tsx:119-121 | "All Documents" for the filter "all", otherwise "Documents for " and the client's name |
| Pages.FoundLabel | src/pages/Documents.tsx:124 | the singular "document" exactly when one document matches |
| Pages.DocumentsPageView | src/pages/Documents.tsx:43-139 | one table line per filtered document with its size band, and with its client's name exactly when the viewer is an accountant; title and found line as above |
| Pages.FilterClients | src/pages/Clients.tsx:50-54 | order-preserving subsequence of exactly the clients whose lower-cased name, email or (present) company contains the lower-cased query, each as many times as in the registry; empty query keeps all |
| Pages.NoCompanyMatchesByNameOrEmail | src/pages/Clients.tsx:53 | a client without a company passes only by name or email |
| Pages.ClientsPageView | src/pages/Clients.tsx:50-136 | the registry total and one line per matching client, carrying `getInitials` of that client's name |
| Pages.ClientDetailsView | src/pages/ClientDetails.tsx:49-281 | nothing iff no client has the route id ("" when absent); otherwise that client, its documents in registry order, their count, the first 3 unsorted as preview, `getInitials` of the client's name, and one row per document with its size band |
| Pages.DetailRows | src/pages/ClientDetails.tsx:274-281 | one row per client document with its size band |

## Left out

- Delays, promises, toasts and the loading flag: each store call is one atomic transition. A race between two calls overlapping a delay is not modelled.
- Local-storage persistence of the session (write on login and signup, remove on logout, read at start): the session is the `session` field alone.
- The clock, `URL.createObjectURL`, `window.open` and `window.confirm`: the clock is the `now` parameter of `ClientRegistry.AddClient` and `DocumentRegistry.UploadDocument`, and the object URL a parameter of `UploadDocument`; the others are browser calls with no effect on the stores.
- Routing, redirects and navigation effects, including the Documents page's query-parameter effect: UI control flow.
- `Math.random` figures (dashboard notifications, accountant dashboard figures): nondeterministic.
- Date formatting (`format`, `formatDistanceToNow`, `Intl.DateTimeFormat`) and the `toFixed(1)` KB/MB figures: `Labels.FormatFileSize` returns the band and the byte count for KB and MB.
- Labels.FormatFileSize: models non-negative sizes only, because a browser file size is never negative.
- Unicode case mapping: ASCII letters only.
- Labels.LastDocumentLabel: counts Unicode scalar values, not the UTF-16 code units JavaScript's `length` and `substring` count, so a name with characters outside the Basic Multilingual Plane is cut at a different place.
- Labels.Initials: takes a word's first Unicode scalar value, where JavaScript's `part[0]` takes its first UTF-16 code unit (half of a surrogate pair for an emoji).
- Dashboard.TypeCounts: does not model keys that name `Object.prototype` members (such as `constructor` or `__proto__`), nor the rule that integer-like keys are listed first, because both are JavaScript object-key artefacts. The model is an insertion-ordered list.
- `NaN` or fractional `limit` values: the limit is an optional integer.
- Markup-only components (Index, MainNav, App, Login, Register, Dashboard, Profile, ProfileForm, RegisterForm, AccountantDashboard, UploadDocumentDialog, DocumentsTable, EmptyDocumentsState, DocumentsFilter): they hold no state logic. ProfileForm's initials repeat `Labels.Initials`.
- "Sorting works on a copy, so the registry is not reordered": holds by construction, because every registry here is an immutable value.
