/** `POST /read {path}`: validation, download, case-insensitive dispatch on
    the file extension, assembly of DOCX text, and truncation to `MAX_CHARS`. */
module ReadEndpoint {
  import opened Common
  import opened PyText
  import opened Graph
  import opened Http

  const MissingPath := "Missing 'path'"
  const UnsupportedType := "Unsupported file type"

  /** Appended to a text cut at `MAX_CHARS`. */
  const Marker := "\n\n[...troncato...]"

  // ---- dispatch on the extension ----

  datatype FileKind = Pdf | Docx | PlainText | Unsupported

  /** The extractor `read` chooses: the lower-cased path ends with `.pdf`,
      `.docx` or `.txt`, or none of them. */
  function KindOf(path: string): (k: FileKind)
    ensures k == Pdf <==> EndsWith(Lower(path), ".pdf")
    ensures k == Docx <==> EndsWith(Lower(path), ".docx")
    ensures k == PlainText <==> EndsWith(Lower(path), ".txt")
  {
    var lower := Lower(path);
    EndsWithLastChar(lower, ".pdf");
    EndsWithLastChar(lower, ".docx");
    EndsWithLastChar(lower, ".txt");
    if EndsWith(lower, ".pdf") then Pdf
    else if EndsWith(lower, ".docx") then Docx
    else if EndsWith(lower, ".txt") then PlainText
    else Unsupported
  }

  /** Ending with a suffix fixes the last character. */
  lemma EndsWithLastChar(s: string, suffix: string)
    requires |suffix| > 0
    ensures EndsWith(s, suffix) ==> s[|s| - 1] == suffix[|suffix| - 1]
  {
    if EndsWith(s, suffix) {
      assert s[|s| - |suffix|..][|suffix| - 1] == s[|s| - 1];
    }
  }

  /** The dispatch ignores letter case in the extension. */
  lemma KindOfIgnoresCase()
    ensures KindOf("Docs/Report.PDF") == Pdf
    ensures KindOf("offerta.DocX") == Docx
    ensures KindOf("/note.txt") == PlainText
  {
    assert Lower("Docs/Report.PDF")[11..] == ".pdf";
    assert Lower("offerta.DocX")[7..] == ".docx";
    assert Lower("/note.txt")[5..] == ".txt";
  }

  /** The dispatch looks at nothing but the end of the path: a bare `pdf`
      and a `.txt` that is not last are unsupported. */
  lemma KindOfLooksAtEnd()
    ensures KindOf("Docs/x.xyz") == Unsupported
    ensures KindOf("pdf") == Unsupported
    ensures KindOf("note.txt.bak") == Unsupported
  {
    assert Lower("Docs/x.xyz")[9] == 'z';
    assert Lower("note.txt.bak")[11] == 'k';
  }

  // ---- DOCX text ----

  type Row = seq<string>
  type Table = seq<Row>

  /** What `python-docx` exposes of a document: the text of each paragraph
      and, per table, the text of each cell of each row. */
  datatype DocxDoc = DocxDoc(paragraphs: seq<string>, tables: seq<Table>)

  /** The rows of all tables, table after table. */
  function AllRows(tables: seq<Table>): seq<Row>
    decreases |tables|
  {
    if |tables| == 0 then [] else tables[0] + AllRows(tables[1..])
  }

  /** One tab-joined line per row, in the order of `AllRows`. */
  function RowLines(rows: seq<Row>): (r: seq<string>)
    ensures |r| == |rows|
    ensures forall i :: 0 <= i < |rows| ==> r[i] == Join(rows[i], '\t')
  {
    seq(|rows|, i requires 0 <= i < |rows| => Join(rows[i], '\t'))
  }

  /** The `parts` list: every paragraph first, then every table row. */
  function DocxLines(doc: DocxDoc): (r: seq<string>)
    ensures |r| == |doc.paragraphs| + |AllRows(doc.tables)|
    ensures r[..|doc.paragraphs|] == doc.paragraphs
    ensures forall i :: 0 <= i < |AllRows(doc.tables)| ==> r[|doc.paragraphs| + i] == Join(AllRows(doc.tables)[i], '\t')
  {
    doc.paragraphs + RowLines(AllRows(doc.tables))
  }

  /** The text `read` returns for a DOCX file: `"\n".join(parts)`. */
  function DocxText(doc: DocxDoc): (r: string)
  {
    Join(DocxLines(doc), '\n')
  }

  /** Joining two non-empty lists is joining each and putting one separator between. */
  lemma {:induction false} JoinAppend(a: seq<string>, b: seq<string>, sep: char)
    requires |a| >= 1 && |b| >= 1
    ensures Join(a + b, sep) == Join(a, sep) + [sep] + Join(b, sep)
    decreases |a|
  {
    if |a| == 1 {
      assert (a + b)[1..] == b;
    } else {
      assert (a + b)[1..] == a[1..] + b;
      JoinAppend(a[1..], b, sep);
    }
  }

  /** All paragraph text comes before any table text: the DOCX text starts
      with the paragraphs joined by newlines, followed by a newline when there
      are table rows. */
  lemma ParagraphsComeFirst(doc: DocxDoc)
    requires |doc.paragraphs| >= 1
    ensures StartsWith(DocxText(doc), Join(doc.paragraphs, '\n'))
    ensures |AllRows(doc.tables)| >= 1 ==>
              StartsWith(DocxText(doc), Join(doc.paragraphs, '\n') + "\n")
  {
    var rows := RowLines(AllRows(doc.tables));
    if |rows| == 0 {
      assert DocxLines(doc) == doc.paragraphs;
    } else {
      JoinAppend(doc.paragraphs, rows, '\n');
      var p := Join(doc.paragraphs, '\n');
      assert DocxText(doc) == p + "\n" + Join(rows, '\n');
      assert DocxText(doc)[..|p|] == p;
      assert DocxText(doc)[..|p + "\n"|] == p + "\n";
    }
  }

  /** No paragraph or cell text holds a newline. */
  predicate NoNewlines(doc: DocxDoc)
  {
    && (forall i :: 0 <= i < |doc.paragraphs| ==> '\n' !in doc.paragraphs[i])
    && (forall r, c :: 0 <= r < |AllRows(doc.tables)| && 0 <= c < |AllRows(doc.tables)[r]| ==>
                       '\n' !in AllRows(doc.tables)[r][c])
  }

  lemma {:induction false} JoinKeepsOut(parts: seq<string>, sep: char, c: char)
    requires c != sep
    requires forall i :: 0 <= i < |parts| ==> c !in parts[i]
    ensures c !in Join(parts, sep)
    decreases |parts|
  {
    if |parts| > 1 {
      JoinKeepsOut(parts[1..], sep, c);
    }
  }

  /** Under `NoNewlines`, no line of the `parts` list holds a newline. */
  lemma DocxLinesHaveNoNewline(doc: DocxDoc)
    requires NoNewlines(doc)
    ensures forall i :: 0 <= i < |DocxLines(doc)| ==> '\n' !in DocxLines(doc)[i]
  {
    var rows := AllRows(doc.tables);
    RowLinesHaveNoNewline(rows);
    var lines := doc.paragraphs + RowLines(rows);
    assert DocxLines(doc) == lines;
    forall i | 0 <= i < |lines| ensures '\n' !in lines[i] {
      if i >= |doc.paragraphs| {
        assert lines[i] == RowLines(rows)[i - |doc.paragraphs|];
      }
    }
  }

  lemma RowLinesHaveNoNewline(rows: seq<Row>)
    requires forall r, c :: 0 <= r < |rows| && 0 <= c < |rows[r]| ==> '\n' !in rows[r][c]
    ensures forall i :: 0 <= i < |RowLines(rows)| ==> '\n' !in RowLines(rows)[i]
  {
    forall i | 0 <= i < |rows| ensures '\n' !in RowLines(rows)[i] {
      JoinKeepsOut(rows[i], '\t', '\n');
    }
  }

  /** The DOCX text reads back, line by line, as the paragraphs followed by
      the table rows in table order, and each row line reads back, split at
      tabs, as its cells. */
  lemma DocxTextReadsBack(doc: DocxDoc)
    requires NoNewlines(doc)
    requires |DocxLines(doc)| >= 1
    ensures Split(DocxText(doc), '\n') == doc.paragraphs + RowLines(AllRows(doc.tables))
    ensures forall r :: 0 <= r < |AllRows(doc.tables)| && |AllRows(doc.tables)[r]| >= 1
                        && (forall c :: 0 <= c < |AllRows(doc.tables)[r]| ==> '\t' !in AllRows(doc.tables)[r][c]) ==>
                        Split(Split(DocxText(doc), '\n')[|doc.paragraphs| + r], '\t') == AllRows(doc.tables)[r]
  {
    DocxLinesHaveNoNewline(doc);
    SplitJoin(DocxLines(doc), '\n');
    var rows := AllRows(doc.tables);
    forall r | 0 <= r < |rows| && |rows[r]| >= 1 && (forall c :: 0 <= c < |rows[r]| ==> '\t' !in rows[r][c])
      ensures Split(DocxLines(doc)[|doc.paragraphs| + r], '\t') == rows[r]
    {
      SplitJoin(rows[r], '\t');
    }
  }

  /** One paragraph "Hello" and a 2x2 table give "Hello\ncellA\tcellB\ncellC\tcellD". */
  lemma DocxTextExample()
    ensures DocxText(DocxDoc(["Hello"], [[["cellA", "cellB"], ["cellC", "cellD"]]]))
            == "Hello\ncellA\tcellB\ncellC\tcellD"
  {
    var doc := DocxDoc(["Hello"], [[["cellA", "cellB"], ["cellC", "cellD"]]]);
    ExampleLines();
    ExampleJoin();
  }

  lemma ExampleLines()
    ensures DocxLines(DocxDoc(["Hello"], [[["cellA", "cellB"], ["cellC", "cellD"]]]))
            == ["Hello", "cellA\tcellB", "cellC\tcellD"]
  {
    var rows: seq<Row> := [["cellA", "cellB"], ["cellC", "cellD"]];
    var tables: seq<Table> := [rows];
    assert tables[1..] == [];
    assert AllRows(tables[1..]) == [];
    assert AllRows(tables) == tables[0] + AllRows(tables[1..]);
    assert tables[0] + [] == rows;
    JoinPair("cellA", "cellB", '\t');
    assert "cellA" + ['\t'] + "cellB" == "cellA\tcellB";
    JoinPair("cellC", "cellD", '\t');
    assert "cellC" + ['\t'] + "cellD" == "cellC\tcellD";
    var rowLines := RowLines(rows);
    assert rowLines[0] == "cellA\tcellB" && rowLines[1] == "cellC\tcellD";
    assert rowLines == ["cellA\tcellB", "cellC\tcellD"];
    assert DocxLines(DocxDoc(["Hello"], tables)) == ["Hello"] + rowLines;
  }

  lemma ExampleJoin()
    ensures Join(["Hello", "cellA\tcellB", "cellC\tcellD"], '\n') == "Hello\ncellA\tcellB\ncellC\tcellD"
  {
    var lines := ["Hello", "cellA\tcellB", "cellC\tcellD"];
    JoinPair("cellA\tcellB", "cellC\tcellD", '\n');
    assert lines[1..] == ["cellA\tcellB", "cellC\tcellD"];
    assert Join(lines, '\n') == "Hello" + "\n" + Join(lines[1..], '\n');
  }

  lemma JoinPair(a: string, b: string, sep: char)
    ensures Join([a, b], sep) == a + [sep] + b
  {
    assert [a, b][1..] == [b];
  }

  // ---- truncation ----

  /** Python's `s[:n]`: a negative `n` counts from the end. */
  function PyPrefix(s: string, n: int): (r: string)
    ensures StartsWith(s, r)
    ensures 0 <= n <= |s| ==> |r| == n
    ensures n > |s| ==> r == s
    ensures -|s| <= n < 0 ==> |r| == |s| + n
    ensures n < -|s| ==> r == ""
  {
    if n >= 0 then (if n <= |s| then s[..n] else s)
    else if |s| + n >= 0 then s[..|s| + n]
    else ""
  }

  /** Truncation to `MAX_CHARS`: a text that fits is returned unchanged; a
      longer one keeps its first `MAX_CHARS` characters and gains the marker,
      so its length becomes `MAX_CHARS` plus the marker's length. */
  function Truncate(text: string, maxChars: int): (r: string)
    ensures |text| <= maxChars ==> r == text
    ensures |text| > maxChars ==> EndsWith(r, Marker) && r[..|r| - |Marker|] == PyPrefix(text, maxChars)
    ensures 0 <= maxChars < |text| ==> |r| == maxChars + |Marker| && r[..maxChars] == text[..maxChars]
    ensures 0 <= maxChars ==> |r| <= maxChars + |Marker|
  {
    if |text| > maxChars then
      var r := PyPrefix(text, maxChars) + Marker;
      assert r[|r| - |Marker|..] == Marker;
      r
    else text
  }

  /** With a non-negative cap the leading text is never altered, and the
      result ends with the marker exactly when text was cut off or the text
      itself ended with it: nothing is dropped without a mark. */
  lemma TruncationIsMarked(text: string, maxChars: int)
    requires maxChars >= 0
    ensures var k := if |text| < maxChars then |text| else maxChars;
            |Truncate(text, maxChars)| >= k && Truncate(text, maxChars)[..k] == text[..k]
    ensures EndsWith(Truncate(text, maxChars), Marker) <==> |text| > maxChars || EndsWith(text, Marker)
  {
  }

  /** With `MAX_CHARS = 10`, a text of 50 characters comes back as 10 + 18 characters. */
  lemma TruncationExample(text: string)
    requires |text| == 50
    ensures |Truncate(text, 10)| == 10 + |Marker| == 28
  {
  }

  // ---- the endpoint ----

  /** The libraries `read` calls on the downloaded bytes: `pdfminer`'s
      `extract_text`, `python-docx`'s `Document`, and
      `bytes.decode("utf-8", errors="ignore")`, which cannot raise. */
  datatype Extractors = Extractors(
    pdf: Bytes -> Outcome<string>,
    docx: Bytes -> Outcome<DocxDoc>,
    utf8: Bytes -> string)

  /** The text of the downloaded file, by kind. */
  function Extract(kind: FileKind, content: Bytes, ex: Extractors): (r: Outcome<string>)
    requires kind != Unsupported
    ensures kind == Pdf ==> r == ex.pdf(content)
    ensures kind == PlainText ==> r == Done(ex.utf8(content))
    ensures kind == Docx ==> (r.Done? <==> ex.docx(content).Done?)
    ensures kind == Docx && r.Done? ==> r.value == DocxText(ex.docx(content).value)
    ensures kind == Docx && r.Threw? ==> r.message == ex.docx(content).message
  {
    match kind
    case Pdf => ex.pdf(content)
    case Docx =>
      (match ex.docx(content)
       case Done(doc) => Done(DocxText(doc))
       case Threw(m) => Threw(m))
    case PlainText => Done(ex.utf8(content))
  }

  /** The part of `read()` after the path check: the file at `url` is
      downloaded first (even when its extension will turn out unsupported), a
      download failure is answered by the 502/500 mapping, an unsupported
      extension by 415, an extractor exception by 500, and otherwise 200 with
      the path and the extracted text truncated to `maxChars`. */
  function Answer(path: string, url: string, maxChars: int,
                  fetch: string -> Result<Bytes>, ex: Extractors): (r: Reply)
    ensures r.calls == [url]
    ensures fetch(url).Err? ==> r == FailureReply("graph_error", fetch(url).failure, [url])
    ensures r.status == 415 <==> fetch(url).Ok? && KindOf(path) == Unsupported
    ensures r.status == 415 ==> r.body == Error(UnsupportedType)
    ensures r.status == 200 <==> && fetch(url).Ok? && KindOf(path) != Unsupported
                                 && Extract(KindOf(path), fetch(url).value, ex).Done?
    ensures r.status == 200 ==>
              && fetch(url).Ok? && KindOf(path) != Unsupported
              && r.body == Document(path, Truncate(Extract(KindOf(path), fetch(url).value, ex).value, maxChars))
    ensures r.status in {200, 415, 500, 502}
    ensures 0 <= maxChars && r.status == 200 ==> r.body.Document? && |r.body.text| <= maxChars + |Marker|
    ensures fetch(url).Ok? && KindOf(path) != Unsupported && Extract(KindOf(path), fetch(url).value, ex).Threw? ==>
              r == Reply(500, Error(Extract(KindOf(path), fetch(url).value, ex).message), [url])
  {
    match fetch(url)
    case Err(failure) => FailureReply("graph_error", failure, [url])
    case Ok(content) =>
      var kind := KindOf(path);
      if kind == Unsupported then Reply(415, Error(UnsupportedType), [url])
      else
        match Extract(kind, content, ex)
        case Threw(m) => FailureReply("graph_error", Exception(m), [url])
        case Done(text) => Reply(200, Document(path, Truncate(text, maxChars)), [url])
  }

  /** `read()`: a blank path is answered 400 before Graph is asked anything;
      otherwise the answer is that of the stripped path and its content URL. */
  function Handle(user: string, maxChars: int, pathArg: Option<string>,
                  fetch: string -> Result<Bytes>, ex: Extractors): (r: Reply)
    ensures IsBlank(OrEmpty(pathArg)) ==> r == Reply(400, Error(MissingPath), [])
    ensures !IsBlank(OrEmpty(pathArg)) ==>
              var path := Strip(OrEmpty(pathArg));
              r == Answer(path, ContentUrl(user, path), maxChars, fetch, ex)
    ensures r.status in {200, 400, 415, 500, 502}
  {
    var path := Strip(OrEmpty(pathArg));
    if path == "" then Reply(400, Error(MissingPath), [])
    else Answer(path, ContentUrl(user, path), maxChars, fetch, ex)
  }
}
