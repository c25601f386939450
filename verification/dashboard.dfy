/** The client dashboard's derived figures: the most recent document, the
    document-type histogram, and the summary cards built from them. */
module Dashboard {
  import opened Common
  import opened Records
  import opened Seqs
  import opened Text
  import opened Labels
  import opened Lists
  import DocumentRegistry

  // ---- most recent document ----

  /** `docs.reduce((latest, cur) => latest.uploadedAt > cur.uploadedAt ? latest : cur, docs[0])`
      over the first `n` documents, as the index it ends on. A later
      document of equal date replaces the running one. */
  function LatestIndex(docs: seq<Document>, n: nat): (k: nat)
    requires 1 <= n <= |docs|
    ensures k < n
    ensures forall j :: 0 <= j < n ==> docs[j].uploadedAt <= docs[k].uploadedAt
    ensures forall j :: k < j < n ==> docs[j].uploadedAt < docs[k].uploadedAt
    decreases n
  {
    if n == 1 then 0
    else
      var latest := LatestIndex(docs, n - 1);
      if docs[latest].uploadedAt > docs[n - 1].uploadedAt then latest else n - 1
  }

  /** `mostRecentDocument`: none for no documents; otherwise a document no
      other is newer than, the last such one in list order. */
  function MostRecent(docs: seq<Document>): (r: Option<Document>)
    ensures r.None? <==> |docs| == 0
    ensures r.Some? ==> exists k :: 0 <= k < |docs| && docs[k] == r.value
                          && (forall j :: 0 <= j < |docs| ==> docs[j].uploadedAt <= docs[k].uploadedAt)
                          && (forall j :: k < j < |docs| ==> docs[j].uploadedAt < docs[k].uploadedAt)
  {
    if |docs| == 0 then None else Some(docs[LatestIndex(docs, |docs|)])
  }

  // ---- type histogram ----

  /** One entry of `documentTypeCounts`, in the order keys were first met. */
  datatype TypeCount = TypeCount(fileType: string, count: nat)

  /** `counts[key] || 0`. */
  function Lookup(h: seq<TypeCount>, key: string): nat
    decreases |h|
  {
    if |h| == 0 then 0
    else if h[0].fileType == key then h[0].count
    else Lookup(h[1..], key)
  }

  function Total(h: seq<TypeCount>): nat
    decreases |h|
  {
    if |h| == 0 then 0 else h[0].count + Total(h[1..])
  }

  ghost predicate DistinctKeys(h: seq<TypeCount>) {
    forall i, j :: 0 <= i < j < |h| ==> h[i].fileType != h[j].fileType
  }

  /** `counts[key] = (counts[key] || 0) + 1`: bumps the entry for `key`,
      appending one with count 1 when the key is new. */
  function Bump(h: seq<TypeCount>, key: string): (r: seq<TypeCount>)
    ensures forall k :: Lookup(r, k) == Lookup(h, k) + (if k == key then 1 else 0)
    ensures |r| >= 1
    decreases |h|
  {
    if |h| == 0 then [TypeCount(key, 1)]
    else if h[0].fileType == key then [TypeCount(key, h[0].count + 1)] + h[1..]
    else [h[0]] + Bump(h[1..], key)
  }

  /** One bump adds exactly one to the sum of the counts. */
  lemma {:induction false} BumpTotal(h: seq<TypeCount>, key: string)
    ensures Total(Bump(h, key)) == Total(h) + 1
    decreases |h|
  {
    if |h| > 0 && h[0].fileType != key {
      BumpTotal(h[1..], key);
      var r := Bump(h, key);
      assert r[0] == h[0] && r[1..] == Bump(h[1..], key);
    } else if |h| > 0 {
      var r := Bump(h, key);
      assert r[1..] == h[1..];
    }
  }

  /** Bumping keeps the keys distinct and every count positive, and adds no
      key other than the bumped one. */
  lemma {:induction false} BumpKeepsShape(h: seq<TypeCount>, key: string)
    requires DistinctKeys(h)
    requires forall i :: 0 <= i < |h| ==> h[i].count >= 1
    ensures var r := Bump(h, key);
            && DistinctKeys(r)
            && (forall i :: 0 <= i < |r| ==> r[i].count >= 1)
            && (forall i :: 0 <= i < |r| ==> r[i].fileType == key || r[i].fileType in Keys(h))
    decreases |h|
  {
    if |h| > 0 && h[0].fileType != key {
      BumpKeepsShape(h[1..], key);
      var tail := Bump(h[1..], key);
      assert Keys(h) == [h[0].fileType] + Keys(h[1..]);
      forall j | 0 <= j < |tail| ensures tail[j].fileType != h[0].fileType {
        assert tail[j].fileType == key || tail[j].fileType in Keys(h[1..]);
      }
    }
  }

  function Keys(h: seq<TypeCount>): (r: seq<string>)
    ensures |r| == |h| && forall i :: 0 <= i < |h| ==> r[i] == h[i].fileType
  {
    seq(|h|, i requires 0 <= i < |h| => h[i].fileType)
  }

  function LowerTypeIs(key: string): Document -> bool {
    (d: Document) => ToLower(d.fileType) == key
  }

  /** `documentTypeCounts`: for every lower-cased type, how many documents
      have it; the counts add up to the number of documents. */
  function TypeCounts(docs: seq<Document>): (h: seq<TypeCount>)
    ensures forall k :: Lookup(h, k) == |Filter(docs, LowerTypeIs(k))|
    ensures Total(h) == |docs|
    ensures DistinctKeys(h)
    ensures forall i :: 0 <= i < |h| ==> h[i].count >= 1
    ensures |h| == 0 <==> |docs| == 0
    decreases |docs|
  {
    if |docs| == 0 then []
    else
      var prefix := docs[..|docs| - 1];
      var last := docs[|docs| - 1];
      assert docs == prefix + [last];
      forall k ensures |Filter(docs, LowerTypeIs(k))|
                       == |Filter(prefix, LowerTypeIs(k))| + (if ToLower(last.fileType) == k then 1 else 0) {
        FilterAppend(prefix, last, LowerTypeIs(k));
      }
      BumpKeepsShape(TypeCounts(prefix), ToLower(last.fileType));
      BumpTotal(TypeCounts(prefix), ToLower(last.fileType));
      Bump(TypeCounts(prefix), ToLower(last.fileType))
  }

  /** `key in counts`: some entry has the key. */
  predicate HasEntry(h: seq<TypeCount>, key: string)
    decreases |h|
  {
    |h| > 0 && (h[0].fileType == key || HasEntry(h[1..], key))
  }

  lemma KeysCons(e: TypeCount, t: seq<TypeCount>)
    ensures Keys([e] + t) == [e.fileType] + Keys(t)
  {
    assert Keys([e] + t)[1..] == Keys(t);
  }

  /** Bumping keeps the existing keys in place and appends a new key last. */
  lemma {:induction false} BumpKeys(h: seq<TypeCount>, key: string)
    ensures HasEntry(h, key) ==> Keys(Bump(h, key)) == Keys(h)
    ensures !HasEntry(h, key) ==> Keys(Bump(h, key)) == Keys(h) + [key]
    decreases |h|
  {
    if |h| > 0 {
      assert h == [h[0]] + h[1..];
      KeysCons(h[0], h[1..]);
      if h[0].fileType != key {
        var b := Bump(h[1..], key);
        BumpKeys(h[1..], key);
        KeysCons(h[0], b);
        if !HasEntry(h, key) {
          assert [h[0].fileType] + (Keys(h[1..]) + [key]) == ([h[0].fileType] + Keys(h[1..])) + [key];
        }
      } else {
        KeysCons(TypeCount(key, h[0].count + 1), h[1..]);
      }
    }
  }

  /** The histogram lists its keys in the order the documents first show
      them: one more document leaves the keys in place and, when its type has
      no entry yet, appends that type last. */
  lemma TypeCountsKeyOrder(docs: seq<Document>, d: Document)
    ensures var key := ToLower(d.fileType);
            var h := TypeCounts(docs);
            && (HasEntry(h, key) ==> Keys(TypeCounts(docs + [d])) == Keys(h))
            && (!HasEntry(h, key) ==> Keys(TypeCounts(docs + [d])) == Keys(h) + [key])
  {
    assert (docs + [d])[..|docs|] == docs;
    BumpKeys(TypeCounts(docs), ToLower(d.fileType));
  }

  /** With distinct keys, an entry's count is what looking its key up gives. */
  lemma {:induction false} LookupEntry(h: seq<TypeCount>, i: nat)
    requires DistinctKeys(h) && i < |h|
    ensures Lookup(h, h[i].fileType) == h[i].count
    decreases |h|
  {
    if i > 0 {
      LookupEntry(h[1..], i - 1);
    }
  }

  /** A positive lookup means the key has an entry. */
  lemma {:induction false} LookupHasEntry(h: seq<TypeCount>, key: string)
    requires Lookup(h, key) > 0
    ensures exists i :: 0 <= i < |h| && h[i].fileType == key
    decreases |h|
  {
    if h[0].fileType != key {
      LookupHasEntry(h[1..], key);
      var i :| 0 <= i < |h[1..]| && h[1..][i].fileType == key;
      assert h[i + 1].fileType == key;
    }
  }

  lemma KeyComesFromDocument(docs: seq<Document>, i: nat)
    requires i < |TypeCounts(docs)|
    ensures exists j :: 0 <= j < |docs| && ToLower(docs[j].fileType) == TypeCounts(docs)[i].fileType
  {
    var h := TypeCounts(docs);
    LookupEntry(h, i);
    var f := Filter(docs, LowerTypeIs(h[i].fileType));
    assert |f| > 0 && f[0] in docs && LowerTypeIs(h[i].fileType)(f[0]);
  }

  lemma DocumentTypeIsKey(docs: seq<Document>, j: nat)
    requires j < |docs|
    ensures exists i :: 0 <= i < |TypeCounts(docs)| && TypeCounts(docs)[i].fileType == ToLower(docs[j].fileType)
  {
    var key := ToLower(docs[j].fileType);
    assert docs[j] in Filter(docs, LowerTypeIs(key));
    LookupHasEntry(TypeCounts(docs), key);
  }

  /** The histogram's keys are exactly the lower-cased types of the documents. */
  lemma HistogramKeys(docs: seq<Document>)
    ensures var h := TypeCounts(docs);
            && (forall i :: 0 <= i < |h| ==> exists j :: 0 <= j < |docs| && ToLower(docs[j].fileType) == h[i].fileType)
            && (forall j :: 0 <= j < |docs| ==> exists i :: 0 <= i < |h| && h[i].fileType == ToLower(docs[j].fileType))
  {
    forall i | 0 <= i < |TypeCounts(docs)| {
      KeyComesFromDocument(docs, i);
    }
    forall j | 0 <= j < |docs| {
      DocumentTypeIsKey(docs, j);
    }
  }

  /** The breakdown card's icon colour, which uses its own three-way test
      rather than `DocumentIcon`'s. */
  datatype Colour = Red | Green | Blue | Grey

  function BreakdownColour(key: string): (c: Colour)
    ensures c == Red <==> key == "pdf"
    ensures c == Green <==> key == "xlsx"
    ensures c == Blue <==> key == "docx"
  {
    if key == "pdf" then Red else if key == "xlsx" then Green else if key == "docx" then Blue else Grey
  }

  /** The breakdown and `DocumentIcon` disagree: a csv file gets the
      spreadsheet icon in the list but a grey one in the breakdown. */
  lemma BreakdownDisagreesWithIcon()
    ensures IconFor("csv") == SpreadsheetIcon && BreakdownColour("csv") == Grey
  {
    assert ToLower("csv") == "csv";
  }

  // ---- the dashboard as a whole ----

  datatype DashboardView = DashboardView(
    documentCount: nat,
    newThisMonth: Option<nat>,
    mostRecent: Option<Document>,
    lastDocument: Option<string>,
    typeCounts: seq<TypeCount>,
    avatar: string,
    recent: Option<RecentView>)

  /** `ClientDashboard` for the signed-in user (none gives an empty view):
      the user's documents, "N new this month" as min(count, 3), the latest
      document and its truncated name, the type breakdown, the avatar
      initials ("U" without a user), and the recent list (limit 5, with
      "view all") when there is at least one document. */
  function ClientDashboardView(user: Option<User>, docs: seq<Document>): (v: DashboardView)
    ensures var mine := if user.Some? then DocumentRegistry.ClientDocuments(docs, user.value.id) else [];
      && v.documentCount == |mine|
      && v.mostRecent == MostRecent(mine)
      && v.typeCounts == TypeCounts(mine)
      && (v.recent.Some? <==> |mine| > 0)
      && (v.recent.Some? ==> v.recent.value == RecentDocumentsView(docs, Some(5), true, if user.Some? then Some(user.value.id) else None))
    ensures v.newThisMonth.None? <==> v.documentCount == 0
    ensures v.newThisMonth.Some? ==> v.newThisMonth.value == Min(v.documentCount, 3)
    ensures v.lastDocument.Some? <==> v.mostRecent.Some?
    ensures v.lastDocument.Some? ==> v.lastDocument.value == LastDocumentLabel(v.mostRecent.value.name)
    ensures |v.typeCounts| == 0 <==> v.documentCount == 0
    ensures user.None? ==> v.avatar == "U"
    ensures user.Some? ==> v.avatar == Initials(user.value.name)
  {
    var mine := if user.Some? then DocumentRegistry.ClientDocuments(docs, user.value.id) else [];
    var latest := MostRecent(mine);
    DashboardView(
      |mine|,
      if |mine| > 0 then Some(Min(|mine|, 3)) else None,
      latest,
      if latest.Some? then Some(LastDocumentLabel(latest.value.name)) else None,
      TypeCounts(mine),
      if user.Some? then Initials(user.value.name) else "U",
      if |mine| > 0 then Some(RecentDocumentsView(docs, Some(5), true, if user.Some? then Some(user.value.id) else None)) else None)
  }

  /** The seeded documents: two pdf and one xlsx. */
  lemma SeedHistogram()
    ensures TypeCounts(DocumentRegistry.Seed()) == [TypeCount("pdf", 2), TypeCount("xlsx", 1)]
  {
    var docs := DocumentRegistry.Seed();
    assert ToLower("pdf") == "pdf";
    assert ToLower("xlsx") == "xlsx";
    assert docs[..2][..1] == docs[..1];
    assert docs[..1][..0] == [];
    assert docs[0].fileType == "pdf" && docs[1].fileType == "pdf" && docs[2].fileType == "xlsx";
    assert TypeCounts(docs[..1]) == Bump([], "pdf") == [TypeCount("pdf", 1)];
    assert TypeCounts(docs[..2]) == Bump([TypeCount("pdf", 1)], "pdf") == [TypeCount("pdf", 2)];
    assert Bump([TypeCount("pdf", 2)], "xlsx") == [TypeCount("pdf", 2), TypeCount("xlsx", 1)];
    assert docs[..3] == docs;
  }

  /** The most recent seeded document is the March 20 statement. */
  lemma SeedMostRecent()
    ensures MostRecent(DocumentRegistry.Seed()) == Some(DocumentRegistry.Seed()[2])
  {
  }
}
