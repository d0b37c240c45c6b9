/** Chunking of header sections (`DocumentChunking`): the page-label forward fill that
    `doc_chunk_splits` runs over the sections before handing them to the character
    splitter, and the line-per-document audit file written by `save_splits_jsonl`. */
module DataChunking {
  import opened Python
  import opened Text
  import opened PagePattern

  /** The metadata key the forward fill writes. */
  const PageKey := "Page"

  /** The default window size and overlap of `doc_chunk_splits`. */
  const DefaultChunkSize := 1000
  const DefaultChunkOverlap := 100

  /** A document section as the header splitter hands it over; its metadata is updated in place. */
  class Document {
    var pageContent: string
    var metadata: map<string, PyValue>
    var id: Option<string>

    constructor (pageContent: string, metadata: map<string, PyValue>, id: Option<string>)
      ensures this.pageContent == pageContent && this.metadata == metadata && this.id == id
    {
      this.pageContent := pageContent;
      this.metadata := metadata;
      this.id := id;
    }
  }

  /** The value of a document: what the character splitter reads and what the JSONL writer saves. */
  datatype DocValue = DocValue(pageContent: string, metadata: map<string, PyValue>, id: Option<string>)

  function Texts(docs: seq<Document>): (texts: seq<string>)
    reads docs
    ensures |texts| == |docs|
    ensures forall k :: 0 <= k < |docs| ==> texts[k] == docs[k].pageContent
  {
    seq(|docs|, k requires 0 <= k < |docs| reads docs => docs[k].pageContent)
  }

  function Snapshot(docs: seq<Document>): (values: seq<DocValue>)
    reads docs
    ensures |values| == |docs|
    ensures forall k :: 0 <= k < |docs| ==>
      values[k] == DocValue(docs[k].pageContent, docs[k].metadata, docs[k].id)
  {
    seq(|docs|, k requires 0 <= k < |docs| reads docs =>
      DocValue(docs[k].pageContent, docs[k].metadata, docs[k].id))
  }

  // ---------------------------------------------------------------- forward fill

  /** The page label carried after reading `texts` in order, starting from `None`:
      the label of the last text that contains a page marker. */
  function CurrentPage(texts: seq<string>): PyValue {
    if texts == [] then PyNone
    else match Search(texts[|texts| - 1])
      case Some(digits) => PyStr(PageLabel(digits))
      case None => CurrentPage(texts[..|texts| - 1])
  }

  /** The label the forward fill gives to section `k`. */
  function Label(texts: seq<string>, k: nat): PyValue
    requires k < |texts|
  {
    CurrentPage(texts[..k + 1])
  }

  /** The last position at which `d` occurs in `docs`. */
  ghost function LastIndex(docs: seq<Document>, d: Document): (k: nat)
    requires d in docs
    ensures k < |docs| && docs[k] == d
    ensures forall j :: k < j < |docs| ==> docs[j] != d
  {
    if docs[|docs| - 1] == d then |docs| - 1 else LastIndex(docs[..|docs| - 1], d)
  }

  ghost predicate Distinct(docs: seq<Document>) {
    forall j, k :: 0 <= j < k < |docs| ==> docs[j] != docs[k]
  }

  /** The metadata of `d` after the fill has passed the first `i` sections, when it held
      `before` at the start. */
  ghost function FilledMetadata(docs: seq<Document>, texts: seq<string>, i: nat, d: Document,
                                before: map<string, PyValue>): map<string, PyValue>
    requires i <= |docs| == |texts|
  {
    if i == 0 then before
    else if docs[i - 1] == d then FilledMetadata(docs, texts, i - 1, d, before)[PageKey := Label(texts, i - 1)]
    else FilledMetadata(docs, texts, i - 1, d, before)
  }

  /** Once the fill has passed `i` sections, a section among them carries the label of the
      last position it occupies there, and any other object is untouched. */
  lemma {:induction false} FilledMetadataIsLastLabel(docs: seq<Document>, texts: seq<string>, i: nat,
                                                     d: Document, before: map<string, PyValue>)
    requires i <= |docs| == |texts|
    ensures FilledMetadata(docs, texts, i, d, before)
         == if d in docs[..i] then before[PageKey := Label(texts, LastIndex(docs[..i], d))] else before
  {
    if i > 0 {
      FilledMetadataIsLastLabel(docs, texts, i - 1, d, before);
      LastIndexStep(docs, i - 1);
    }
  }

  /** `doc_chunk_splits`: fills the `"Page"` metadata of every section in order, then hands
      the sections to the character splitter with the window size and overlap. When the same
      section object appears more than once, its last position decides its label. */
  method DocChunkSplits(headerSplits: seq<Document>,
                        splitDocuments: (seq<DocValue>, int, int) -> seq<DocValue>,
                        chunkSize: int := DefaultChunkSize,
                        chunkOverlap: int := DefaultChunkOverlap)
    returns (chunkedDocs: seq<DocValue>)
    modifies headerSplits`metadata
    ensures forall k :: 0 <= k < |headerSplits| ==>
      headerSplits[k].pageContent == old(headerSplits[k].pageContent)
      && headerSplits[k].id == old(headerSplits[k].id)
    ensures forall k :: 0 <= k < |headerSplits| ==>
      headerSplits[k].metadata == old(headerSplits[k].metadata)[PageKey :=
        Label(old(Texts(headerSplits)), LastIndex(headerSplits, headerSplits[k]))]
    ensures Distinct(headerSplits) ==> forall k :: 0 <= k < |headerSplits| ==>
      headerSplits[k].metadata == old(headerSplits[k].metadata)[PageKey := Label(old(Texts(headerSplits)), k)]
    ensures forall k :: 0 <= k < |headerSplits| ==> PageKey in headerSplits[k].metadata
    ensures chunkedDocs == splitDocuments(Snapshot(headerSplits), chunkSize, chunkOverlap)
  {
    ghost var texts := Texts(headerSplits);
    var pageName := PyNone;
    for i := 0 to |headerSplits|
      invariant pageName == CurrentPage(texts[..i])
      invariant forall k :: 0 <= k < |headerSplits| ==>
        headerSplits[k].metadata == FilledMetadata(headerSplits, texts, i, headerSplits[k], old(headerSplits[k].metadata))
    {
      var doc := headerSplits[i];
      var found := Search(doc.pageContent);
      CurrentPageStep(texts, i);
      if found.Some? {
        pageName := PyStr(PageLabel(found.value));
      }
      doc.metadata := doc.metadata[PageKey := pageName];
    }
    TakeAll(headerSplits);
    forall k | 0 <= k < |headerSplits|
      ensures headerSplits[k].metadata == old(headerSplits[k].metadata)[PageKey :=
        Label(texts, LastIndex(headerSplits, headerSplits[k]))]
    {
      FilledMetadataIsLastLabel(headerSplits, texts, |headerSplits|, headerSplits[k], old(headerSplits[k].metadata));
    }
    forall k | 0 <= k < |headerSplits| && Distinct(headerSplits)
      ensures LastIndex(headerSplits, headerSplits[k]) == k
    {
      LastIndexDistinct(headerSplits, k);
    }
    chunkedDocs := splitDocuments(Snapshot(headerSplits), chunkSize, chunkOverlap);
  }

  lemma CurrentPageStep(texts: seq<string>, i: nat)
    requires i < |texts|
    ensures Label(texts, i) == match Search(texts[i])
      case Some(digits) => PyStr(PageLabel(digits))
      case None => CurrentPage(texts[..i])
  {
    assert texts[..i + 1][..i] == texts[..i];
  }

  lemma LastIndexStep(docs: seq<Document>, i: nat)
    requires i < |docs|
    ensures LastIndex(docs[..i + 1], docs[i]) == i
    ensures forall d :: d in docs[..i] && d != docs[i] ==>
      d in docs[..i + 1] && LastIndex(docs[..i + 1], d) == LastIndex(docs[..i], d)
    ensures forall d :: d in docs[..i + 1] <==> d in docs[..i] || d == docs[i]
  {
    assert docs[..i + 1][..i] == docs[..i];
    assert docs[..i + 1] == docs[..i] + [docs[i]];
  }

  lemma LastIndexDistinct(docs: seq<Document>, k: nat)
    requires k < |docs| && Distinct(docs)
    ensures LastIndex(docs, docs[k]) == k
  {
  }

  /** The carried label is `None` exactly when no text read so far contains a page marker. */
  lemma {:induction false} CurrentPageNoneIffNoMarker(texts: seq<string>)
    ensures CurrentPage(texts) == PyNone <==> forall j :: 0 <= j < |texts| ==> Search(texts[j]) == None
  {
    if texts != [] {
      var init := texts[..|texts| - 1];
      CurrentPageNoneIffNoMarker(init);
      assert forall j :: 0 <= j < |init| ==> init[j] == texts[j];
    }
  }

  /** The carried label is that of the last text containing a marker, with the digits as written. */
  lemma {:induction false} CurrentPageIsLastMarker(texts: seq<string>, j: nat, digits: string)
    requires j < |texts| && Search(texts[j]) == Some(digits)
    requires forall m :: j < m < |texts| ==> Search(texts[m]) == None
    ensures CurrentPage(texts) == PyStr(PageLabel(digits))
    decreases |texts|
  {
    if j < |texts| - 1 {
      var init := texts[..|texts| - 1];
      assert forall m :: 0 <= m < |init| ==> init[m] == texts[m];
      CurrentPageIsLastMarker(init, j, digits);
    }
  }

  /** Before the first section with a marker every label is `None`, and after it every
      label is set; a section without a marker of its own gets `None` only then. */
  lemma LabelNoneIffNoEarlierMarker(texts: seq<string>, k: nat)
    requires k < |texts|
    ensures Label(texts, k) == PyNone <==> forall j :: 0 <= j <= k ==> Search(texts[j]) == None
  {
    CurrentPageNoneIffNoMarker(texts[..k + 1]);
    assert forall j :: 0 <= j <= k ==> texts[..k + 1][j] == texts[j];
  }

  /** A section gets the label of the nearest section at or before it that contains a
      marker, built from the first marker inside that section. */
  lemma LabelIsNearestMarker(texts: seq<string>, j: nat, k: nat, digits: string)
    requires j <= k < |texts| && Search(texts[j]) == Some(digits)
    requires forall m :: j < m <= k ==> Search(texts[m]) == None
    ensures Label(texts, k) == PyStr(PageLabel(digits))
  {
    assert forall m :: 0 <= m <= k ==> texts[..k + 1][m] == texts[m];
    CurrentPageIsLastMarker(texts[..k + 1], j, digits);
  }

  /** The label changes only at sections that contain a marker. */
  lemma LabelChangesOnlyAtMarkers(texts: seq<string>, k: nat)
    requires 0 < k < |texts| && Label(texts, k) != Label(texts, k - 1)
    ensures Search(texts[k]).Some?
  {
    CurrentPageStep(texts, k);
  }

  /** The digits are kept as written, leading zeros included: a section headed
      `# Page 007` is labelled `Page 007`, not `Page 7`. */
  lemma DigitsKeptAsWritten(digits: string)
    requires |digits| > 0 && AllDigits(digits)
    ensures Label(["# Page " + digits], 0) == PyStr(PageLabel(digits))
  {
    var s := "# Page " + digits;
    assert s[..7] == "# Page ";
    assert s[2..6] == Keyword by { assert s[2..6] == s[..7][2..6]; }
    assert s[7..7 + |digits|] == digits;
    assert RegexMatchAt(s, 0, 2, 7, digits);
    RegexMatchIsScanMatch(s, 0, 2, 7, digits);
    SearchFindsFirstMatch(s, 0, digits);
    assert [s][..1] == [s];
  }

  // ---------------------------------------------------------------- JSONL audit file

  /** One saved line before JSON encoding: `page_content`, `metadata` and, when present, `id`. */
  datatype JsonRecord = JsonRecord(pageContent: string, metadata: map<string, PyValue>, id: Option<string>)

  /** The record saved for a document: its text and metadata, with an `id` only when the
      document's id is truthy. */
  function ToRecord(doc: DocValue): (r: JsonRecord)
    ensures r.pageContent == doc.pageContent && r.metadata == doc.metadata
    ensures r.id.Some? <==> Truthy(doc.id)
    ensures r.id.Some? ==> r.id == doc.id
  {
    JsonRecord(doc.pageContent, doc.metadata, if Truthy(doc.id) then doc.id else None)
  }

  function JsonLines(documents: seq<DocValue>, dumps: JsonRecord -> string): (lines: seq<string>)
    ensures |lines| == |documents|
    ensures forall k :: 0 <= k < |documents| ==> lines[k] == dumps(ToRecord(documents[k]))
  {
    seq(|documents|, k requires 0 <= k < |documents| => dumps(ToRecord(documents[k])))
  }

  /** An open text file. */
  class TextFile {
    var content: string

    constructor (content: string)
      ensures this.content == content
    {
      this.content := content;
    }
  }

  /** `save_splits_jsonl`: opens the file for writing, which discards what it held, and
      writes one encoded record per document, in order, each followed by a newline.
      `dumps` stands for `json.dumps`. */
  method SaveSplitsJsonl(documents: seq<DocValue>, file: TextFile, dumps: JsonRecord -> string)
    modifies file
    ensures file.content == Terminated(JsonLines(documents, dumps), '\n')
  {
    file.content := "";
    for i := 0 to |documents|
      invariant file.content == Terminated(JsonLines(documents[..i], dumps), '\n')
    {
      var doc := documents[i];
      var data := JsonRecord(doc.pageContent, doc.metadata, None);
      if Truthy(doc.id) {
        data := data.(id := doc.id);
      }
      assert data == ToRecord(documents[i]);
      TerminatedAppend(JsonLines(documents[..i], dumps), dumps(data), '\n');
      assert JsonLines(documents[..i + 1], dumps) == JsonLines(documents[..i], dumps) + [dumps(data)];
      file.content := file.content + dumps(data) + "\n";
    }
    TakeAll(documents);
  }

  /** When the encoder writes no raw newline (as `json.dumps` does not), the saved file
      reads back as exactly one line per document, in order, and nothing after the last
      newline. */
  lemma SavedFileHasOneLinePerDocument(documents: seq<DocValue>, dumps: JsonRecord -> string)
    requires forall r :: '\n' !in dumps(r)
    ensures Split(Terminated(JsonLines(documents, dumps), '\n'), "\n")
         == JsonLines(documents, dumps) + [""]
    ensures forall k :: 0 <= k < |documents| ==>
      JsonLines(documents, dumps)[k] == dumps(ToRecord(documents[k]))
  {
    SplitTerminated(JsonLines(documents, dumps), '\n');
  }
}
