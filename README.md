# Document retrieval pipeline: a Dafny model of its core

This project models the core of a retrieval-augmented question answering pipeline over PDF
documents. The core has three parts:

- **Page numbering** (`DocumentProcessor.convert_to_markdown`). The converter's markdown is
  cut at the page-break placeholder `<!-- Page Break -->`. Every non-blank page is then
  re-emitted under a `# Page i` heading, where `i` is its 1-based position.
- **Chunking** (`DocumentChunking`).
  - `doc_chunk_splits` gives every header section a `"Page"` label. It searches the section
    for `#\s*Page\s*(\d+)`. When a section has no marker, it carries forward the label of the
    last section that had one. The sections then go to a character splitter with window 1000
    and overlap 100.
  - `save_splits_jsonl` writes one JSON line per document it is given.
- **Vector store** (`mongo_utils`).
  - `create_vector_index` checks whether an index of that name exists and creates it only if
    it does not.
  - `upsert_data` builds one record per (chunk, vector) pair and upserts the records, keyed by
    a content id `<stem>_<hash(text)>`.
  - `search_result_for_llm` runs a vector search that asks for `top_k` results out of
    `20 * top_k` candidates. It formats each hit as `[i] source | header | page:text` and joins
    the lines with a blank line.

## Modules

| File | Module | What it holds |
|---|---|---|
| `python.dfy` | `Python` | A few Python values: `None`, truthiness, `dict.get`, f-string printing of `None`. |
| `text.dfy` | `Text` | The string functions the core uses: `str.strip` (ASCII whitespace), `str.split`, `str.join`, `str(int)`, and a line-terminated file body. `split`/`join` and `str(int)` come with round-trip lemmas. `strip` is characterised as cutting whitespace from the two ends and nothing else. |
| `page_pattern.dfy` | `PagePattern` | `re.search(r'#\s*Page\s*(\d+)')` as a left-to-right scan. The scan is proved equal to a declarative reading of the regular expression, and its result is proved to be the leftmost match. |
| `pdf_processor.dfy` | `PdfProcessor` | The page-numbering loop, written as a method. Its result is proved equal to a recursive specification, and that specification is characterised. |
| `data_chunking.dfy` | `DataChunking` | The forward fill as a method that updates the sections' metadata in place, plus its characterisation. Also the JSONL writer as a method on a file object. |
| `mongo_utils.dfy` | `MongoUtils` | A collection object with its search indexes and its records. It holds the index check-then-create, the record builder and ordered upsert bulk, and the search context formatter. |

Calls into code outside the core are function parameters:

- `splitDocuments`: the character splitter.
- `dumps`: `json.dumps`.
- `hash`: Python's string hash.
- `embedQuery`: the embedding service.
- `aggregate`: the store's vector search.

The model promises only what follows from the code around those calls.

### Behaviours a caller may not expect

The model follows the code in each case below.

- **Forward fill.** Every section is labelled with the *first* marker inside it. The label is
  `"Page " + digits`, with the digits as written (`# Page 007` gives `Page 007`).
- **JSONL writer.**
  - The file is opened with mode `"w"`, so earlier contents are discarded. Nothing is
    appended to an earlier audit file.
  - No write count is returned.
  - No directories are created.
- **Upsert.**
  - The code pairs chunks with vectors using `zip`, so the extra items of the longer list are
    dropped silently. Lists of different lengths are not an error.
  - The upsert returns nothing. The inserted and updated counts are only logged.
- **Index check.** Only the name is compared. An existing index with a different definition
  is kept as it is, with no error.
- **Index filter paths.** The index filters on `metadata.Header 1` and `metadata.Page`, but
  the records store `metadata.header` and `metadata.page`. The model keeps the paths exactly
  as written.

## Model

| member | source | states |
|---|---|---|
| PdfProcessor.NumberPages | src/data_processing/pdf_processor.py:34-38 | The loop's output is the numbered markdown: the input is split at the placeholder, and each segment at 1-based position i contributes `"\n\n# Page i\n\n " + strip(segment) + "\n"` if it is not blank, or nothing. |
| PdfProcessor.PageBlock | src/data_processing/pdf_processor.py:38 | The block for the segment at position i: `"\n\n# Page " + str(i) + "\n\n " + strip(segment) + "\n"`. |
| PdfProcessor.Emit | src/data_processing/pdf_processor.py:37-38 | A segment contributes its block when its stripped text is non-empty, and nothing otherwise. |
| PdfProcessor.Numbered | src/data_processing/pdf_processor.py:34-38 | The numbered output: the contributions of the segments of `split("<!-- Page Break -->")`, numbered from 1, concatenated in order. |
| PdfProcessor.NumberedAppend | src/data_processing/pdf_processor.py:36-38 | Appending one segment to the input appends exactly that segment's contribution to the output. This is the loop's accumulation step. |
| PdfProcessor.EmittedFrom | src/data_processing/pdf_processor.py:36-37 | The emitted page numbers are no more than there are segments, and each lies within the segments' positions. |
| PdfProcessor.EmittedExactlyNonBlank | src/data_processing/pdf_processor.py:36-37 | Page number p gets a block if and only if p is a segment position and that segment is not all whitespace. Blank segments still use up their number. |
| PdfProcessor.EmittedIncreasing | src/data_processing/pdf_processor.py:36 | Page numbers are emitted in strictly increasing order. |
| PdfProcessor.NumberedIsBlocks | src/data_processing/pdf_processor.py:34-38 | The output is the concatenation of the blocks of the emitted pages, in page order. |
| PdfProcessor.BlockCount | src/data_processing/pdf_processor.py:34-37 | There are at most one more blocks than placeholders. |
| PdfProcessor.SinglePage | src/data_processing/pdf_processor.py:34-38 | Non-blank markdown with no placeholder becomes the single block for page 1. |
| PdfProcessor.BlankInput | src/data_processing/pdf_processor.py:34-38 | Empty or all-whitespace markdown becomes the empty string. |
| PdfProcessor.BlockMarkerIsFirstMatch | src/data_processing/pdf_processor.py:38 | The chunker's page search, run on a block followed by any text, finds that block's own heading and captures `str(i)`. |
| PdfProcessor.HeadingIsFirstMatch | src/data_processing/pdf_processor.py:38 | Any text that opens with the block heading followed by digits and a newline matches the page pattern first at its `#`, and the match captures exactly those digits. |
| PdfProcessor.FirstMatchIsFirstPage | src/data_processing/pdf_processor.py:36-38 | In the numbered output, the page search finds the number of the first emitted page. |
| Text.Strip | src/data_processing/pdf_processor.py:37-38 | `strip()` gives the empty text if and only if the input is all whitespace. Otherwise the result neither begins nor ends with whitespace. |
| Text.IsSpace | src/data_processing/pdf_processor.py:37-38 | The whitespace class behind `strip()` here and in src/database/mongo_utils.py:138, and behind `\s` in src/chunking/data_chunking.py:59: space, tab, newline, carriage return, vertical tab, form feed and the separators U+001C to U+001F. It is limited to ASCII. |
| Text.IsDigit | src/chunking/data_chunking.py:59 | The digit class behind `\d`: the ASCII digits `0` to `9`. |
| Text.StripIsOuterSlice | src/data_processing/pdf_processor.py:37-38 | The stripped text is the slice of the input that starts right after its leading whitespace, and only whitespace follows that slice. With the contract of `Strip`, this fixes the result exactly: the input with its leading and trailing whitespace cut off, and nothing else. |
| Text.StripCutsOnlyOuterWhitespace | src/data_processing/pdf_processor.py:37-38 | The stripped text is a contiguous piece of the input with only whitespace before and after it. |
| Text.SplitFrom | src/data_processing/pdf_processor.py:34 | The scan behind `str.split(sep)`. It reads left to right. At each occurrence of `sep` it closes the current piece and skips the separator. It ends with the last piece. |
| Text.Split | src/data_processing/pdf_processor.py:34 | `markdown_output.split("<!-- Page Break -->")`: the scan started with an empty piece. |
| Text.Join | src/database/mongo_utils.py:143 | `sep.join(parts)`: the parts in order, with `sep` between neighbours. No parts give the empty text, and one part gives that part. |
| Text.SplitCount | src/data_processing/pdf_processor.py:34 | `split(sep)` yields one more piece than there are non-overlapping occurrences of `sep`. |
| Text.JoinSplit | src/data_processing/pdf_processor.py:34 | Joining the pieces of `split(sep)` with `sep` gives back the input. |
| Text.SplitNoSeparator | src/data_processing/pdf_processor.py:34 | A text without the separator splits into itself alone. |
| Text.SplitTerminated | src/chunking/data_chunking.py:96 | Splitting newline-terminated lines that contain no newline gives back the lines, plus one empty piece after the last newline. |
| Text.NatToString | src/data_processing/pdf_processor.py:38 | `str(i)` of a natural number is a non-empty string of digits. |
| Text.ParseNatToString | src/data_processing/pdf_processor.py:38 | Reading back the decimal digits of `str(i)` gives `i`. |
| Text.IntToString | src/database/mongo_utils.py:89 | `str(h)` of an integer is non-empty, contains no `_`, and starts with `-` exactly when h is negative. |
| Text.IntToStringInjective | src/database/mongo_utils.py:89 | Different hash values print differently. |
| PagePattern.SkipSpaces | src/chunking/data_chunking.py:59 | Greedy `\s*`: it stops at the first non-whitespace character, or at the end of the text, having passed only whitespace. |
| PagePattern.SkipDigits | src/chunking/data_chunking.py:59 | Greedy digit run: it stops at the first non-digit, or at the end of the text, having passed only digits. |
| PagePattern.MatchAt | src/chunking/data_chunking.py:59 | The pattern tried at one position: a `#`, greedy whitespace, `Page`, greedy whitespace, then a non-empty greedy digit run, which is the capture. |
| PagePattern.Search | src/chunking/data_chunking.py:59 | `re.search`: the capture of the first position, from the left, where the pattern matches, or no match. |
| PagePattern.PageLabel | src/chunking/data_chunking.py:63 | The label `f"Page {digits}"` built from the captured group. |
| PagePattern.ScanMatchIsRegexMatch | src/chunking/data_chunking.py:59 | A match the scan finds at a position is a match of `#\s*Page\s*(\d+)` there, with the same captured group. |
| PagePattern.RegexMatchIsScanMatch | src/chunking/data_chunking.py:59 | Every match of the regular expression at a position is found by the scan, with the same capture. Greedy `\s*` cannot stop anywhere else, because `P` and digits are not whitespace. |
| PagePattern.SearchNoneIffNoMatch | src/chunking/data_chunking.py:59-61 | `re.search` returns no match if and only if the pattern matches nowhere in the text. |
| PagePattern.SearchIsLeftmost | src/chunking/data_chunking.py:59 | What the search returns is the capture at the leftmost matching position. |
| PagePattern.SearchFindsFirstMatch | src/chunking/data_chunking.py:59 | A match with no earlier match is the one the search returns. |
| DataChunking.DocChunkSplits | src/chunking/data_chunking.py:51-78 | Every section keeps its text and id. Its metadata becomes the old metadata with `"Page"` set to the forward-fill label of its last position in the list (the fill starts from `None` on every call, so no label carries over from an earlier document), or of its own position when the sections are distinct objects. Every section has a `"Page"` key afterwards. The chunks are the splitter's output for the updated sections, window size and overlap. |
| DataChunking.CurrentPage | src/chunking/data_chunking.py:56-67 | The carried `page_name` after reading the sections in order from `None`: a section with a marker sets it from its first marker, any other section leaves it unchanged. |
| DataChunking.Label | src/chunking/data_chunking.py:57-67 | The label written to section k: the carried value after reading sections 0 to k. |
| DataChunking.FilledMetadataIsLastLabel | src/chunking/data_chunking.py:57-67 | After the fill has passed a prefix of the sections, a section object in that prefix carries the label of its last position there. Any other object keeps its metadata. |
| DataChunking.CurrentPageStep | src/chunking/data_chunking.py:59-67 | A section whose text has a marker is labelled from that marker. Otherwise it takes the label carried from the sections before it. |
| DataChunking.CurrentPageNoneIffNoMarker | src/chunking/data_chunking.py:56-67 | The carried label is `None` if and only if no section read so far contains a marker. |
| DataChunking.CurrentPageIsLastMarker | src/chunking/data_chunking.py:59-67 | The carried label is built from the first marker of the last section that contains one. |
| DataChunking.LabelNoneIffNoEarlierMarker | src/chunking/data_chunking.py:56-67 | Section k is labelled `None` if and only if no section at or before k contains a marker. |
| DataChunking.LabelIsNearestMarker | src/chunking/data_chunking.py:59-67 | Section k gets `"Page " + digits` from the nearest section at or before it that contains a marker. |
| DataChunking.LabelChangesOnlyAtMarkers | src/chunking/data_chunking.py:61-67 | The label differs from the previous section's label only at a section that contains a marker. |
| DataChunking.DigitsKeptAsWritten | src/chunking/data_chunking.py:63 | The captured digits are kept exactly as written, leading zeros included. |
| DataChunking.ToRecord | src/chunking/data_chunking.py:89-94 | The saved record has the document's text and metadata. It has an `id` if and only if the document's id is truthy, and then it is that id. |
| DataChunking.JsonLines | src/chunking/data_chunking.py:87-96 | There is one encoded record per document, in document order. |
| DataChunking.SaveSplitsJsonl | src/chunking/data_chunking.py:86-96 | The file holds exactly the encoded records, each followed by a newline, in document order. Whatever it held before is gone. |
| DataChunking.SavedFileHasOneLinePerDocument | src/chunking/data_chunking.py:96 | When the encoder writes no raw newline, splitting the file at newlines gives back one line per document and an empty rest. |
| MongoUtils.EnsureIndex | src/database/mongo_utils.py:66-72 | Afterwards an index of that name exists. The existing indexes are left unchanged. At most one index is added, and it is the vector index definition. Nothing is added if and only if the name was already listed. |
| MongoUtils.IndexNames | src/database/mongo_utils.py:67 | The `existing_indexes` list: the name of every listed index, in listing order. |
| MongoUtils.VectorIndexModel | src/database/mongo_utils.py:37-65 | The submitted index: type `vectorSearch`, a 768-dimension cosine vector field on `embedding`, and filter fields `metadata.Header 1`, `metadata.Page` and `metadata.source`. |
| MongoUtils.EnsureIndexIdempotent | src/database/mongo_utils.py:66-72 | Running the check-then-create twice is the same as running it once. |
| MongoUtils.CreateVectorIndex | src/database/mongo_utils.py:35-72 | The collection's index list becomes the result of the check-then-create, using the 768-dimension cosine index on `embedding` with its three filter paths. The records are not touched. |
| MongoUtils.StemAndSuffix | src/database/mongo_utils.py:89 | The stem followed by the suffix is the file name. A name has a suffix exactly when its last dot is neither its first nor its last character, and the suffix is then that dot and what follows it. |
| MongoUtils.Stem | src/database/mongo_utils.py:89 | `pdf_path.stem`: the name before its last dot, unless that dot is the first or the last character, in which case the whole name. |
| MongoUtils.Suffix | src/database/mongo_utils.py:89 | `pdf_path.suffix`: the last dot and what follows it, or empty under the same exceptions. |
| MongoUtils.ChunkId | src/database/mongo_utils.py:89 | The content identity `f"{stem}_{hash(text)}"`. |
| MongoUtils.ChunkIdInjective | src/database/mongo_utils.py:89 | A chunk id `stem_hash` determines both its stem and its hash value. |
| MongoUtils.SameIdIffSameHash | src/database/mongo_utils.py:89 | Two chunks of one file get the same id if and only if their texts hash alike. |
| MongoUtils.BuildRecord | src/database/mongo_utils.py:82-91 | The per-record dictionary: the chunk text, the vector, and metadata holding the file name, `"Page"` and `"Header 1"` read with default `None`, and the chunk id. |
| MongoUtils.BuildRecords | src/database/mongo_utils.py:80-92 | There is one record per pair of `zip(chunks, vectors)`, as many as the shorter list, in order. |
| MongoUtils.BuiltRecordProvenance | src/database/mongo_utils.py:82-91 | Each record has its chunk's text, its own vector and the file name. Page and header are taken from the chunk's metadata, or are `None` when the key is missing. The id is `stem + "_" + str(hash(text))`. |
| MongoUtils.LastWithId | src/database/mongo_utils.py:96-102 | The record returned is the last record in the bulk with a given id: it sits at a position after which no record carries that id. There is none if and only if no record has that id. |
| MongoUtils.ReplaceOne | src/database/mongo_utils.py:97-101 | `ReplaceOne` with `upsert=True`, keyed on `metadata.chunk_id`: the record is stored under its own chunk id, replacing what was there or inserting it. |
| MongoUtils.BulkReplace | src/database/mongo_utils.py:96-102 | The ordered bulk: the replacements applied first to last. |
| MongoUtils.BulkReplaceContents | src/database/mongo_utils.py:96-102 | After the ordered bulk, each written id holds the last record written with it, and every other id keeps what it held. |
| MongoUtils.BulkReplaceKeepsKeying | src/database/mongo_utils.py:96-102 | The bulk keeps every record filed under its own chunk id. |
| MongoUtils.BulkReplaceIdempotent | src/database/mongo_utils.py:96-102 | Applying the same bulk twice leaves the store as one application did. |
| MongoUtils.UpsertTwiceIsUpsertOnce | src/database/mongo_utils.py:75-102 | Upserting the same chunks and vectors twice gives the same store as upserting once. |
| MongoUtils.UpsertData | src/database/mongo_utils.py:75-105 | The records become the old records after the ordered bulk of upserts of the built records. Records stay keyed by chunk id. Empty input leaves the store unchanged. The indexes are not touched. |
| MongoUtils.ContextLines | src/database/mongo_utils.py:135-141 | There is one citation line per result. |
| MongoUtils.ContextLinesRanks | src/database/mongo_utils.py:136-141 | The line at position k cites the result at position k under rank k + 1. |
| MongoUtils.SearchPipeline | src/database/mongo_utils.py:112-132 | The aggregation pipeline: `$vectorSearch` on the named index and `embedding` with the query vector, `numCandidates = top_k * 20` and `limit = top_k`, then a `$project` keeping `text` and `metadata`, dropping `_id` and adding the score. |
| MongoUtils.FieldOr | src/database/mongo_utils.py:137-140 | A metadata field as printed: its stored value shown by the f-string, or `Unknown` when the key is missing. |
| MongoUtils.ContextLine | src/database/mongo_utils.py:141 | The line for rank i: `[i]`, a space, then source, header and page separated by a space, a vertical bar and a space, then a colon, the stripped text and one trailing space. |
| MongoUtils.Context | src/database/mongo_utils.py:143 | The citation lines joined with `"\n\n"`. |
| MongoUtils.SearchResultForLlm | src/database/mongo_utils.py:107-143 | The context is the citation lines of the store's answer to the pipeline for the embedded query, joined by a blank line. |
| MongoUtils.AtMostTopKLines | src/database/mongo_utils.py:112-121 | The pipeline asks for `top_k` results from `20 * top_k` candidates. A store that keeps to that limit yields at most `top_k` lines. |
| MongoUtils.ContextOpensWithTopResult | src/database/mongo_utils.py:141-143 | No results give the empty context. Otherwise the context opens with the top result's line, followed by a blank line when more lines come after it. |
| MongoUtils.UnknownOnlyWhenMissing | src/database/mongo_utils.py:137-140 | A field prints as `Unknown` only when its key is missing, or when it holds that very text. A stored `None` prints as `None`. |
| MongoUtils.StoredRecordLine | src/database/mongo_utils.py:136-141 | For a record the upsert wrote, the line shows the file name, the header and page as stored, and the stripped text, and never falls back to `Unknown`. |
| MongoUtils.Projected | src/database/mongo_utils.py:122-131 | What the `$project` stage returns for a stored record shaped as at src/database/mongo_utils.py:82-91. It keeps the text and the metadata as a dictionary with `source`, `page`, `header` and `chunk_id`, drops `_id` and the embedding, and adds the score. |
| Python.Show | src/database/mongo_utils.py:141 | An f-string prints a string as itself and `None` as `None`. |
| Python.Get | src/database/mongo_utils.py:87-88 | `dict.get(key, default)`: the stored value when the key is present, else the default. |
| Python.Truthy | src/chunking/data_chunking.py:93-94 | A document id is truthy when it is present and not the empty string. |

## Left out

- The Docling conversion, the open/write of the markdown file, path handling, logging and
  exception re-raising around the numbering loop. The model takes the converter's markdown as
  a string and returns the numbered string.
- The header splitter (`header_splits`) and the recursive character splitter. They are library
  code, so the character splitter is the `splitDocuments` parameter. No claim is made about
  chunk sizes, overlap or the splitter's parameter checks.
- Whitespace and digits beyond ASCII. `str.strip`, `\s` and `\d` are modelled on ASCII and
  the control characters Python counts as whitespace. Unicode spaces and non-ASCII decimal
  digits are not modelled.
- The metadata dictionary is a value per section. Two different section objects that share one
  metadata dictionary are not modelled. Repeated occurrences of the *same* section object are
  modelled.
- `save_splits_jsonl`: joining the folder path with the file name and returning the save path
  are not modelled. The file is an object whose contents are a string.
- `json.dumps` is the `dumps` parameter. The JSON encoding itself is not modelled.
- Python's string `hash` is the `hash` parameter. It is salted per process, so ids agree only
  within one run.
- `PurePath.name` is taken as given: the model receives the file name. The stem follows the
  rule of the Python versions where a dot-only suffix does not count.
- The environment settings (connection string, database, collection, index name) are read at
  import time in the source. The index name is the `indexName` parameter, and the collection
  is a `Collection` object.
- The MongoDB connection and its ping, server-side index builds, and the vector ranking are left out. The
  ranking is the `aggregate` parameter. The `_id` field, and matching several stored documents
  with one filter, are not modelled. The store maps each chunk id to one record.
- `upsert_data`: the upserted and modified counts are logged only, so they are not modelled.
- UpsertData: write failures are not modelled. Every replacement in the model succeeds. The
  ordered `bulk_write` stops at the first failed write and raises, and the writes before it
  stay applied.
- The embedding client and the language model client are out of scope. The embedding client
  is the `embedQuery` parameter.
- `rest_api.py`, `utils.py` and `run.py` are not part of this model.
