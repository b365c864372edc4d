# Zotero PDF assistant: the deterministic core, modelled in Dafny

The Zotero reader-pane assistant answers questions about the PDF a user has
open. Four pieces of its code are plain deterministic logic, and this project
models and verifies each of them:

- **Page-text assembly in the worker's PDF loader** (`load`,
  `src/worker/rag-worker.ts`). Module `PdfLoader`. The loader walks each page's
  text items. An item's string is emitted as it is, or with one `"\n"` in front
  when its baseline Y differs from that of the previous text item. Pages
  without items are skipped. Every record is stamped with its 1-based page
  number and the page count. When `splitPages` is false, all page texts are
  merged into one record, joined by a blank line. The two loops are methods
  (`AssemblePage`, `Load`) proved equal to specification functions
  (`PageText`, `Loaded`). Lemmas characterise those functions directly in
  terms of the items and pages.
- **The context formatter** (`formatDocs`, `src/modules/components/rag.ts`).
  Module `ContextFormat`. Retrieved documents become
  `<document><content>…</content><source>…</source><page>…</page></document>`
  blocks. A missing or empty source becomes `unknown_source`. The 0-based
  `metadata.page` becomes `parseInt(page) + 1`, or 1 by default. The blocks are
  joined by a separator. The model pairs the serialiser with a reader,
  `ReadBlock`, which recovers a block's fields from the block's end. It proves
  that every document whose source contains no `<` can be read back from its
  slot of the output.
- **The embeddings client cache** (`getEmbeddingInstance`,
  `resetEmbeddingInstance`, `src/modules/components/embeddings.ts`). Module
  `Embeddings`. The four module-level variables are the fields of the class
  `EmbeddingsModule`. The methods are proved against a pure transition
  function, `Acquire`. Lemmas about `Acquire` cover several calls in a row:
  reuse under unchanged preferences, a new client after a change or a reset,
  and the API key taking no part in the decision. The foreign
  `new OllamaEmbeddings(...)` is a parameter. It either constructs, yielding
  the next instance number, or throws.
- **The per-item PDF text cache** (`PDFTextCache`,
  `src/modules/components/pdfText.ts`). Module `PdfText`. The class has the
  source's two fields. `ExtractPDFText` is the source's scan for the first PDF
  attachment, proved against the find-first function `FirstPdf`. A pure
  function, `GetText`, specifies `GetPDFText`. Lemmas about `GetText` cover
  repeated calls.

Two shared modules support these. `Wrappers` holds `Option` and `Result`.
`JsText` models the JavaScript built-ins the code relies on:
`Array.prototype.join`, the decimal rendering of an integer, and
`parseInt(s, 10)`, including its leading white space, its sign and its
stop at the first non-digit.

Three quirks of the code are kept as written:

- The loader treats a previous baseline of 0 like no previous baseline
  (`!lastY`). The next item then gets no newline even though its Y differs.
- The page written by the formatter is `parseInt(metadata.page) + 1`. A number
  is parsed through its decimal string, and `null` parses as NaN and gives 1.
- The embeddings cache is keyed only by base URL and model name. The cached
  API key is only ever set to `null`. An unset preference (`undefined`) never
  equals a cached `null`, so with an unset preference every call tries to
  rebuild the client, and fails.

## Model

| member | source | states |
|---|---|---|
| `PdfLoader.AssemblePage` | src/worker/rag-worker.ts:58-73 | The item loop that tracks `lastY` and pushes each string, or `"\n"` plus the string, yields exactly the page text defined by the function `PageText` |
| `PdfLoader.Load` | src/worker/rag-worker.ts:39-114 | The page loop, which skips empty pages and stamps page number and page count, and the optional merge, yield exactly `Loaded(pages, splitPages, sep)` |
| `PdfLoader.LastYIsLastText` | src/worker/rag-worker.ts:60-71 | After walking the items, `lastY` is the baseline of the last item that has a string, or absent when there is none |
| `PdfLoader.PiecesMatchTextItems` | src/worker/rag-worker.ts:62-71 | There is one emitted piece per text item. The first is the item's string verbatim. A later one gets exactly one leading `"\n"` iff the previous text item's Y is non-zero and different from its own, and is verbatim otherwise (same Y, or a previous Y of 0) |
| `PdfLoader.FirstTextVerbatim` | src/worker/rag-worker.ts:60-65 | The first text item of a page is emitted with no leading newline |
| `PdfLoader.NonTextItemsIgnored` | src/worker/rag-worker.ts:62-71 | Items without `str` neither contribute nor move `lastY`: dropping them leaves the emitted pieces unchanged |
| `PdfLoader.NoTextItemsEmptyText` | src/worker/rag-worker.ts:54-73 | A page whose items all lack `str` has the empty text; since the page has items, it still gets a record (see `PageRecordsComplete`) |
| `PdfLoader.PageTextLength` | src/worker/rag-worker.ts:39-73 | With the default separator `""`, the page text's length is the sum of the item string lengths plus the number of inserted newlines |
| `PdfLoader.PageRecordsSound` | src/worker/rag-worker.ts:50-90 | Every record comes from a page that has items. It carries that page's 1-based number, that page's text and the page count |
| `PdfLoader.PageRecordsOrdered` | src/worker/rag-worker.ts:50-91 | Records appear in strictly increasing page-number order |
| `PdfLoader.PageRecordsComplete` | src/worker/rag-worker.ts:50-56 | A page has a record iff its item list is non-empty |
| `PdfLoader.MergedLoad` | src/worker/rag-worker.ts:93-113 | With `splitPages` false, the result is empty iff every page is empty. Otherwise it is one record with no page number, the page count, and the per-page texts of the split result joined by `"\n\n"` |
| `ContextFormat.ContentOf` | src/modules/components/rag.ts:10 | A missing `pageContent` becomes `""`; a present one is used as it is |
| `ContextFormat.SourceOf` | src/modules/components/rag.ts:14 | A missing metadata, a missing source or an empty source gives `unknown_source`. Any other source is copied unchanged |
| `ContextFormat.ParsePageFacts` | src/modules/components/rag.ts:17-19 | `parseInt` of a numeric page gives the number back, and `parseInt(null)` is NaN |
| `ContextFormat.PageOf` | src/modules/components/rag.ts:16-22 | The page is 1 when metadata or page is absent or the page does not parse, `n + 1` for a numeric page `n`, and `parseInt(s) + 1` for a string `s` that parses |
| `ContextFormat.Render` | src/modules/components/rag.ts:24 | The template literal opens with `<document><content>`, carries the content verbatim right after it, and ends with `</page></document>`; `Block` applies it to a document's defaulted fields, and `ReadRender` and `DocumentRoundTrip` show that the fields can be read back |
| `ContextFormat.FormatDocs` | src/modules/components/rag.ts:7-27 | The output is empty iff there are no documents, because every block is non-empty; `FormatDocsLayout` and `FormatDocsRoundTrip` characterise it block by block |
| `ContextFormat.Blocks` | src/modules/components/rag.ts:8-25 | There is exactly one block per input document |
| `ContextFormat.ReadRender` | src/modules/components/rag.ts:24 | Reading back a rendered block gives exactly its content, source and page, with the content verbatim, whatever it contains |
| `ContextFormat.DocumentRoundTrip` | src/modules/components/rag.ts:9-24 | A document's block reads back as its content (or `""`), its source (or `unknown_source`) and its page number |
| `ContextFormat.FormatDocsLayout` | src/modules/components/rag.ts:7-27 | The output is the blocks in input order with the separator between neighbours and nothing else. An empty input gives `""` |
| `ContextFormat.FormatDocsRoundTrip` | src/modules/components/rag.ts:7-27 | Every document's fields can be read back from its slot of the joined output |
| `JsText.Join` | src/modules/components/rag.ts:26 | `Array.prototype.join`, also used at src/worker/rag-worker.ts:73 and 103: the result is at least as long as all parts together; `JoinAt`, `JoinSeparatorAt` and `JoinLength` characterise it exactly |
| `JsText.JoinAt` | src/modules/components/rag.ts:26 | `join` places every part verbatim at its offset |
| `JsText.JoinSeparatorAt` | src/modules/components/rag.ts:26 | `join` puts exactly one separator between neighbouring parts |
| `JsText.JoinLength` | src/worker/rag-worker.ts:73 | A joined string ends right after its last part |
| `JsText.JoinEmptySeparatorLength` | src/worker/rag-worker.ts:73 | Joining with `""` is concatenation: the length is the sum of the parts' lengths |
| `JsText.TrimStart` | src/modules/components/rag.ts:18 | `parseInt` skips exactly the leading ECMAScript white space |
| `JsText.LeadingDigits` | src/modules/components/rag.ts:18 | `parseInt` reads the longest run of decimal digits |
| `JsText.ParseInt` | src/modules/components/rag.ts:18-19 | A string without any digit parses as NaN |
| `JsText.NatToString` | src/modules/components/rag.ts:24 | The decimal rendering is non-empty, all digits, and has no leading zero |
| `JsText.IntToString` | src/modules/components/rag.ts:24 | The rendering starts with `-` iff the number is negative, and with a digit otherwise |
| `JsText.ParseIntOfIntToString` | src/modules/components/rag.ts:18 | `parseInt(String(n) + rest, 10) == n` whenever `rest` does not start with a digit |
| `JsText.IntToStringInjective` | src/modules/components/pdfText.ts:6-10 | Two item ids have the same `toString()` iff they are equal |
| `Embeddings.MissingSettings` | src/modules/components/embeddings.ts:37-43 | The error lists the missing settings, "Base URL" before "Model Name", separated by ", ". The list is empty iff both are set |
| `Embeddings.Cleared` | src/modules/components/embeddings.ts:11-19 | A reset sets the instance, API key, base URL and model name all to null |
| `Embeddings.Acquire` | src/modules/components/embeddings.ts:21-87 | If nothing needs rebuilding, the cached instance is returned and nothing changes. An incomplete config throws, lists what is missing and changes nothing. On success the cache holds the returned instance and the prefs just read. When a rebuild is needed and both preferences are set, the constructor decides the outcome: a successful construction returns the fresh instance, and a throwing one fails with its reason and nulls the instance. On any error the cached URL and model are kept. The API key is never touched |
| `Embeddings.EmbeddingsModule.constructor` | src/modules/components/embeddings.ts:6-9 | The module starts with all four variables null |
| `Embeddings.EmbeddingsModule.ResetEmbeddingInstance` | src/modules/components/embeddings.ts:11-19 | All four variables become null |
| `Embeddings.EmbeddingsModule.GetEmbeddingInstance` | src/modules/components/embeddings.ts:21-87 | The new state and the result are those of `Acquire`. A success returns the non-null cached instance, so the defensive null check at lines 78-84 never fires. An unchanged config leaves the state untouched |
| `Embeddings.ConsistentInitially` | src/modules/components/embeddings.ts:6-19 | The initial and the reset states are consistent: there is no instance and the API key is null |
| `Embeddings.AcquireKeepsConsistent` | src/modules/components/embeddings.ts:24-69 | Every call preserves that a cached instance was built with the cached, non-empty base URL and model name, and that the API key stays null |
| `Embeddings.SamePreferencesReuse` | src/modules/components/embeddings.ts:28-32 | After a successful call, a second call with the same preferences returns the same instance and changes nothing, whatever the constructor would do |
| `Embeddings.ChangedPreferenceGivesNewClient` | src/modules/components/embeddings.ts:28-59 | When either preference differs from the cached value, a successful call returns a newly constructed instance, never the cached one |
| `Embeddings.ResetForcesConstruction` | src/modules/components/embeddings.ts:11-69 | After a reset and with complete preferences, a call always constructs: it returns the new instance or the constructor's error |
| `Embeddings.ApiKeyIgnored` | src/modules/components/embeddings.ts:7-32 | Two states that differ only in the cached API key behave alike, so a key change never triggers a rebuild |
| `PdfText.FirstPdf` | src/modules/components/pdfText.ts:19-29 | Finds the first attachment whose content type is `application/pdf` or `""`, or reports that none is |
| `PdfText.Extracted` | src/modules/components/pdfText.ts:17-34 | An attachment item gives `""`. Any other item gives the text of its first PDF attachment in order, or throws "No PDF attachment found for this item" iff it has none |
| `PdfText.PDFTextCache.ExtractPDFText` | src/modules/components/pdfText.ts:17-34 | The scan with early return computes exactly `Extracted(item)` |
| `PdfText.GetText` | src/modules/components/pdfText.ts:5-15 | Extraction runs iff the cached id is not `item.id.toString()` or no text is cached. On success the cache holds the returned text and that id. If extraction throws, both fields keep their values. A cache hit returns the cached text and changes neither field |
| `PdfText.PDFTextCache.constructor` | src/modules/components/pdfText.ts:1-3 | Both fields start null |
| `PdfText.PDFTextCache.GetPDFText` | src/modules/components/pdfText.ts:5-15 | The new fields, the result and whether extraction ran are exactly those of `GetText` |
| `PdfText.PDFTextCache.ClearCache` | src/modules/components/pdfText.ts:36-39 | Both fields become null |
| `PdfText.SameItemServedFromCache` | src/modules/components/pdfText.ts:8-14 | A second call for the same item returns the same text, without extracting and without changing the cache |
| `PdfText.OtherItemExtracts` | src/modules/components/pdfText.ts:6-10 | A call for an item with a different id extracts again |
| `PdfText.AttachmentItemCachesEmptyText` | src/modules/components/pdfText.ts:18-33 | An attachment item yields `""`. That `""` is cached (it is not null), so the next call for the item does not extract |
| `PdfText.NoPdfAttachmentThrows` | src/modules/components/pdfText.ts:18-30 | A regular item with no PDF attachment throws and leaves the cache unchanged |
| `PdfText.ClearedCacheExtracts` | src/modules/components/pdfText.ts:36-39 | After `clearCache`, the next call extracts |

## Left out

- pdf.js is not modelled: opening the document, `getMetadata`, `getPage`,
  `getTextContent` (src/worker/rag-worker.ts:40-52). The loader receives the
  decoded pages. The records' `version`, `info` and `metadata` fields come from
  pdf.js and are not modelled.
- Worker messaging and the splitter call in `self.onmessage`
  (src/worker/rag-worker.ts:10-33) are message passing into library code.
- Baselines are integers. pdf.js gives floats, but the code only compares them
  for equality and tests them for falsiness. NaN and `-0` are not modelled.
- `split` and `embedAndStore` in rag.ts wrap `PDFLoader`,
  `RecursiveCharacterTextSplitter` and `FaissStore`, whose code is not part of
  this model. No chunking or vector-store guarantee is stated.
- `formatDocs` models `pageContent` and `source` as strings or absent. Other
  JavaScript values in those properties are not modelled. A numeric page is an
  integer; `parseInt` on a fractional number or on a number whose decimal form
  uses an exponent is not modelled.
- ContextFormat.PageOf: pages are exact integers, not IEEE-754 doubles. In the
  code `parseInt(page, 10) + 1` is a Number, so a parsed value above 2^53 is
  rounded. From 10^21 up, `${pageNumber}` renders in exponent form: the page
  string "1000000000000000000000" gives `1e+21`. The model instead writes the
  exact successor digit for digit.
- JsText.ParseInt: returns an unbounded integer. The rounding of a parsed
  value above 2^53 to a double is not modelled.
- JsText.IntToString: renders every integer in plain decimal. The exponent
  form that `String(n)` uses from 10^21 up is not modelled.
- The page value: `metadata.page` is modelled as `null`, an integer number or a
  string. Other values (`true`, objects, arrays) are not modelled. `true` and
  plain objects parse to NaN and give page 1; arrays parse through their
  string form.
- ContextFormat.ReadRender: the read-back is proved only for sources without
  `<`. A source containing `<` can make a block ambiguous to read from its end.
  The serialiser itself is modelled for every source.
- ContextFormat.DocumentRoundTrip: restricted to sources without `<`, as for
  `ReadRender`.
- ContextFormat.FormatDocsRoundTrip: restricted to a document whose source has
  no `<`, as for `ReadRender`. `FormatDocsLayout` places every block for every
  input.
- The wording of the embeddings errors, and all logging, are not modelled. An
  error carries the list of missing settings or the constructor's reason.
- `new OllamaEmbeddings(...)` is foreign code. The model says only whether it
  constructs or throws. The instance is identified by the number of clients
  constructed before it.
- Preferences are read by the host (`getPref`). They are parameters of
  `GetEmbeddingInstance`: a string or unset.
- `Zotero.Items.get` and the `attachmentText` promise are host calls. An item
  arrives with its attachments already resolved to content type and text.
- The top-level call at src/modules/components/pdfText.ts:44 refers to an
  undefined `item` and is not modelled.
- `async`/`await` is treated as sequential execution. Nothing in these
  components depends on interleaving.
- The placeholder responder (src/modules/components/llm.ts), the UI
  (src/modules/readerPane.ts, src/modules/components/ChatMessage.ts), the
  lifecycle hooks (src/hooks.ts, src/index.ts), the preference pane
  (addon/prefs.js) and the build and test scripts are not part of this model.
  They are host glue, randomness, timers or network calls.
