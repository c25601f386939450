/** Small renderings several views share: avatar initials, file-size bands,
    the document-type icon, and the truncated last-document label. */
module Labels {
  import opened Seqs
  import opened Text

  // ---- getInitials ----

  /** `parts.map(p => p[0]).join('')`: the first character of every part;
      an empty part contributes `undefined`, which joins as nothing. */
  function FirstLetters(parts: seq<string>): string
    decreases |parts|
  {
    if |parts| == 0 then ""
    else (if |parts[0]| > 0 then [parts[0][0]] else "") + FirstLetters(parts[1..])
  }

  /** An independent reading of the same letters: scanning `s`, keep each
      non-space character that starts a word, i.e. follows a space or the
      start (`afterSpace` says whether the previous character was a space). */
  function WordStarts(s: string, afterSpace: bool): string
    decreases |s|
  {
    if |s| == 0 then ""
    else (if s[0] != ' ' && afterSpace then [s[0]] else "") + WordStarts(s[1..], s[0] == ' ')
  }

  lemma {:induction false} FirstLettersOfSplit(s: string)
    ensures FirstLetters(Split(s, ' ')) == WordStarts(s, true)
    ensures FirstLetters(Split(s, ' ')[1..]) == WordStarts(s, false)
    decreases |s|
  {
    if |s| > 0 {
      FirstLettersOfSplit(s[1..]);
      var rest := Split(s[1..], ' ');
      var parts := Split(s, ' ');
      if s[0] == ' ' {
        assert parts == [""] + rest;
        assert parts[1..] == rest;
      } else {
        assert parts == [[s[0]] + rest[0]] + rest[1..];
        assert parts[1..] == rest[1..];
      }
    }
  }

  /** `getInitials`: at most two characters, the upper-cased first letters
      of the first two words of the name (runs of spaces separate words). */
  function Initials(name: string): (r: string)
    ensures |r| <= 2
    ensures r == Take(ToUpper(WordStarts(name, true)), 2)
    ensures forall i :: 0 <= i < |r| ==> !('a' <= r[i] <= 'z')
  {
    FirstLettersOfSplit(name);
    Take(ToUpper(FirstLetters(Split(name, ' '))), 2)
  }

  lemma InitialsExample()
    ensures Initials("Al  Bo") == "AB"
  {
    WordStartsExample();
    assert ToUpper("AB") == "AB";
  }

  /** Two words separated by a run of two spaces start with `A` and `B`. */
  lemma WordStartsExample()
    ensures WordStarts("Al  Bo", true) == "AB"
  {
    assert "o"[1..] == "";
    assert WordStarts("o", false) == "";
    assert "Bo"[1..] == "o";
    assert WordStarts("Bo", true) == "B";
    assert " Bo"[1..] == "Bo";
    assert WordStarts(" Bo", true) == "B";
    assert "  Bo"[1..] == " Bo";
    assert WordStarts("  Bo", false) == "B";
    assert "l  Bo"[1..] == "  Bo";
    assert WordStarts("l  Bo", false) == "B";
    assert "Al  Bo"[1..] == "l  Bo";
  }

  // ---- formatFileSize ----

  /** The rendering of a size: exact bytes, or a kilobyte or megabyte figure
      whose one-decimal rendering is not modelled. */
  datatype SizeText = Exact(text: string) | Kilobytes(bytes: nat) | Megabytes(bytes: nat)

  const KB: nat := 1024
  const MB: nat := 1024 * 1024

  /** `formatFileSize`: bytes below 1024, kilobytes below 1024 * 1024,
      megabytes from there on; the byte case prints the integer and " B". */
  function FormatFileSize(bytes: nat): (r: SizeText)
    ensures r.Exact? <==> bytes < 1024
    ensures r.Kilobytes? <==> 1024 <= bytes < 1048576
    ensures r.Megabytes? <==> bytes >= 1048576
    ensures !r.Exact? ==> r.bytes == bytes
    ensures r.Exact? ==> |r.text| >= 3 && r.text[|r.text| - 2..] == " B"
                         && (forall i :: 0 <= i < |r.text| - 2 ==> IsDigit(r.text[i]))
                         && ParseDecimal(r.text[..|r.text| - 2]) == bytes
                         && (r.text[0] == '0' ==> bytes == 0 && r.text == "0 B")
  {
    if bytes < KB then
      ParseNatToString(bytes);
      var t := NatToString(bytes) + " B";
      assert t[..|t| - 2] == NatToString(bytes);
      Exact(t)
    else if bytes < MB then Kilobytes(bytes)
    else Megabytes(bytes)
  }

  // ---- DocumentIcon ----

  datatype Icon = PdfIcon | SpreadsheetIcon | TextIcon | GenericIcon

  /** `DocumentIcon`: the icon for a document type, chosen on its lower-cased form. */
  function IconFor(fileType: string): (r: Icon)
    ensures r == PdfIcon <==> ToLower(fileType) == "pdf"
    ensures r == SpreadsheetIcon <==> ToLower(fileType) in ["xlsx", "xls", "csv"]
    ensures r == TextIcon <==> ToLower(fileType) in ["doc", "docx", "txt"]
    ensures r == GenericIcon <==> ToLower(fileType) !in ["pdf", "xlsx", "xls", "csv", "doc", "docx", "txt"]
  {
    var t := ToLower(fileType);
    if t == "pdf" then PdfIcon
    else if t == "xlsx" || t == "xls" || t == "csv" then SpreadsheetIcon
    else if t == "doc" || t == "docx" || t == "txt" then TextIcon
    else GenericIcon
  }

  /** The icon ignores letter case. */
  lemma IconIgnoresCase(fileType: string)
    ensures IconFor(fileType) == IconFor(ToLower(fileType))
  {
    ToLowerIdempotent(fileType);
  }

  lemma IconExamples()
    ensures IconFor("PDF") == PdfIcon && IconFor("Csv") == SpreadsheetIcon
    ensures IconFor("docx") == TextIcon && IconFor("unknown") == GenericIcon
  {
    assert ToLower("PDF") == "pdf";
    assert ToLower("Csv") == "csv";
    assert ToLower("docx") == "docx";
    assert ToLower("unknown") == "unknown";
  }

  // ---- last-document label ----

  const LastDocumentPrefix: string := "Last document: "

  /** The dashboard's last-document line: the first 20 characters of the
      name, and "..." exactly when the name is longer than that. */
  function LastDocumentLabel(name: string): (r: string)
    ensures |name| <= 20 ==> r == LastDocumentPrefix + name
    ensures |name| > 20 ==> r == LastDocumentPrefix + name[..20] + "..."
    ensures |r| <= |LastDocumentPrefix| + 23
  {
    LastDocumentPrefix + Take(name, 20) + (if |name| > 20 then "..." else "")
  }

  /** The label always starts with the name's first (at most 20) characters,
      and two names that fit are told apart by their labels. */
  lemma LastDocumentLabelShowsStart(name: string, other: string)
    ensures var n := Min(|name|, 20);
            LastDocumentLabel(name)[|LastDocumentPrefix|..][..n] == name[..n]
    ensures |name| <= 20 && |other| <= 20 && LastDocumentLabel(name) == LastDocumentLabel(other) ==> name == other
  {
    var n := Min(|name|, 20);
    assert LastDocumentLabel(name)[|LastDocumentPrefix|..][..n] == Take(name, 20);
    if |name| <= 20 && |other| <= 20 && LastDocumentLabel(name) == LastDocumentLabel(other) {
      assert name == LastDocumentLabel(name)[|LastDocumentPrefix|..];
    }
  }
}
