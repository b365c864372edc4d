/** The page-text assembly of the PDF loader that runs in the background worker
    (`load` in src/worker/rag-worker.ts). pdf.js is not modelled: a document is
    given already decoded, as its pages in order, each the sequence of items that
    `page.getTextContent()` returns. */
module PdfLoader {
  import opened Wrappers
  import opened JsText

  /** One entry of a page's text content. `str` is present exactly for text
      items (`"str" in item`; marked-content entries have none); `y` is the
      baseline, `item.transform[5]`. */
  datatype TextItem = TextItem(str: Option<string>, y: int)

  /** A loaded record: its `pageContent`, `metadata.pdf.totalPages` and
      `metadata.loc.pageNumber`, which the merged record does not have. */
  datatype Document = Document(pageContent: string, totalPages: nat, pageNumber: Option<nat>)

  // ---------------------------------------------------------------------------
  // The newline heuristic, as a function of the items walked so far
  // ---------------------------------------------------------------------------

  /** The test `lastY === y || !lastY` fails: a previous baseline exists, is
      not 0 (0 is falsy, like `undefined`) and differs from `y`. */
  predicate StartsNewLine(lastY: Option<int>, y: int) {
    lastY.Some? && lastY.value != 0 && lastY.value != y
  }

  /** What a text item contributes to `textItems`. */
  function Emitted(lastY: Option<int>, s: string, y: int): string {
    if StartsNewLine(lastY, y) then "\n" + s else s
  }

  /** The value of `lastY` after walking `items`. */
  function LastY(items: seq<TextItem>): Option<int>
    decreases |items|
  {
    if items == [] then None
    else
      var it := items[|items| - 1];
      if it.str.Some? then Some(it.y) else LastY(items[..|items| - 1])
  }

  /** The contents of `textItems` after walking `items`. */
  function Pieces(items: seq<TextItem>): seq<string>
    decreases |items|
  {
    if items == [] then []
    else
      var pre, it := items[..|items| - 1], items[|items| - 1];
      if it.str.Some? then Pieces(pre) + [Emitted(LastY(pre), it.str.value, it.y)] else Pieces(pre)
  }

  /** The text of one page: `textItems.join(parsedItemSeparator)`. */
  function PageText(items: seq<TextItem>, sep: string): string {
    Join(Pieces(items), sep)
  }

  /** The records pushed for `pages` (the first pages of a document with
      `total` pages): one per page with at least one item, numbered from 1. */
  function PageRecords(pages: seq<seq<TextItem>>, total: nat, sep: string): seq<Document>
    decreases |pages|
  {
    if pages == [] then []
    else
      var pre, page := pages[..|pages| - 1], pages[|pages| - 1];
      if page == [] then PageRecords(pre, total, sep)
      else PageRecords(pre, total, sep) + [Document(PageText(page, sep), total, Some(|pages|))]
  }

  function Contents(docs: seq<Document>): seq<string> {
    seq(|docs|, k requires 0 <= k < |docs| => docs[k].pageContent)
  }

  /** What `load(blob, splitPages, parsedItemSeparator)` returns. */
  function Loaded(pages: seq<seq<TextItem>>, splitPages: bool, sep: string): seq<Document> {
    var docs := PageRecords(pages, |pages|, sep);
    if splitPages then docs
    else if docs == [] then []
    else [Document(Join(Contents(docs), "\n\n"), |pages|, None)]
  }

  // ---------------------------------------------------------------------------
  // The loader
  // ---------------------------------------------------------------------------

  /** The inner loop of `load`: walk one page's items, tracking the last
      baseline, and join what was emitted. */
  method AssemblePage(items: seq<TextItem>, sep: string) returns (text: string)
    ensures text == PageText(items, sep)
  {
    var lastY: Option<int> := None;
    var textItems: seq<string> := [];
    for i := 0 to |items|
      invariant textItems == Pieces(items[..i])
      invariant lastY == LastY(items[..i])
    {
      var item := items[i];
      assert items[..i + 1][..i] == items[..i];
      if item.str.Some? {
        if lastY == Some(item.y) || lastY.None? || lastY == Some(0) {
          textItems := textItems + [item.str.value];
        } else {
          textItems := textItems + ["\n" + item.str.value];
        }
        lastY := Some(item.y);
      }
    }
    assert items[..|items|] == items;
    text := Join(textItems, sep);
  }

  /** `load`: one record per page that has items, in page order, or, when
      `splitPages` is false, all page texts merged into one record. */
  method Load(pages: seq<seq<TextItem>>, splitPages: bool, sep: string) returns (docs: seq<Document>)
    ensures docs == Loaded(pages, splitPages, sep)
  {
    var numPages := |pages|;
    var documents: seq<Document> := [];
    var i := 1;
    while i <= numPages
      invariant 1 <= i <= numPages + 1
      invariant documents == PageRecords(pages[..i - 1], numPages, sep)
    {
      assert pages[..i][..i - 1] == pages[..i - 1];
      var items := pages[i - 1];
      if |items| == 0 {
        i := i + 1;
        continue;
      }
      var text := AssemblePage(items, sep);
      documents := documents + [Document(text, numPages, Some(i))];
      i := i + 1;
    }
    assert pages[..numPages] == pages;
    if splitPages {
      return documents;
    }
    if |documents| == 0 {
      return [];
    }
    docs := [Document(Join(Contents(documents), "\n\n"), numPages, None)];
  }

  // ---------------------------------------------------------------------------
  // What the heuristic does, stated over the text items alone
  // ---------------------------------------------------------------------------

  /** The items that carry a string, in order. */
  function StringItems(items: seq<TextItem>): (s: seq<TextItem>)
    ensures |s| <= |items|
    ensures forall k :: 0 <= k < |s| ==> s[k].str.Some?
    decreases |items|
  {
    if items == [] then []
    else
      var pre, it := items[..|items| - 1], items[|items| - 1];
      if it.str.Some? then StringItems(pre) + [it] else StringItems(pre)
  }

  /** Text item `k` of `s` starts a new visual line: its predecessor has a
      non-zero baseline different from its own. */
  predicate LineBreakBefore(s: seq<TextItem>, k: nat)
    requires k < |s|
  {
    k > 0 && s[k - 1].y != 0 && s[k - 1].y != s[k].y
  }

  /** How many text items of `s` start a new visual line. */
  function LineBreaks(s: seq<TextItem>): nat
    decreases |s|
  {
    if s == [] then 0
    else LineBreaks(s[..|s| - 1]) + if LineBreakBefore(s, |s| - 1) then 1 else 0
  }

  /** Sum of the lengths of the items' strings. */
  function StringLength(items: seq<TextItem>): nat
    decreases |items|
  {
    if items == [] then 0
    else StringLength(items[..|items| - 1]) + |items[|items| - 1].str.GetOr("")|
  }

  /** `lastY` is the baseline of the last text item, if any. */
  lemma {:induction false} LastYIsLastText(items: seq<TextItem>)
    ensures var s := StringItems(items);
      LastY(items) == if s == [] then None else Some(s[|s| - 1].y)
    decreases |items|
  {
    if items != [] {
      LastYIsLastText(items[..|items| - 1]);
    }
  }

  /** The emitted pieces correspond one to one to the text items: the first is
      the item's string verbatim, and every later one is the item's string with
      exactly one "\n" in front when the previous text item's baseline is
      non-zero and different, and verbatim otherwise. */
  lemma {:induction false} PiecesMatchTextItems(items: seq<TextItem>)
    ensures var s := StringItems(items);
      && |Pieces(items)| == |s|
      && forall k :: 0 <= k < |s| ==>
           Pieces(items)[k] == if LineBreakBefore(s, k) then "\n" + s[k].str.value else s[k].str.value
    decreases |items|
  {
    if items != [] {
      var pre, it := items[..|items| - 1], items[|items| - 1];
      PiecesMatchTextItems(pre);
      if it.str.Some? {
        LastYIsLastText(pre);
        var s, sp := StringItems(items), StringItems(pre);
        assert s == sp + [it];
        forall k | 0 <= k < |sp|
          ensures LineBreakBefore(s, k) == LineBreakBefore(sp, k)
        {
        }
      }
    }
  }

  /** The first text item of a page is emitted without a leading newline. */
  lemma FirstTextVerbatim(items: seq<TextItem>)
    requires StringItems(items) != []
    ensures |Pieces(items)| > 0 && Pieces(items)[0] == StringItems(items)[0].str.value
  {
    PiecesMatchTextItems(items);
  }

  /** Keeping only the text items changes nothing: items without a string
      neither contribute nor move `lastY`. */
  lemma NonTextItemsIgnored(items: seq<TextItem>)
    ensures Pieces(StringItems(items)) == Pieces(items)
  {
    StringItemsIdempotent(items);
    PiecesMatchTextItems(items);
    PiecesMatchTextItems(StringItems(items));
  }

  lemma {:induction false} StringItemsIdempotent(items: seq<TextItem>)
    ensures StringItems(StringItems(items)) == StringItems(items)
    decreases |items|
  {
    if items != [] {
      var pre, it := items[..|items| - 1], items[|items| - 1];
      StringItemsIdempotent(pre);
      if it.str.Some? {
        var sp := StringItems(pre);
        assert (sp + [it])[..|sp|] == sp;
      }
    }
  }

  /** A page whose items all lack a string yields the empty text. */
  lemma NoTextItemsEmptyText(items: seq<TextItem>, sep: string)
    requires forall k :: 0 <= k < |items| ==> items[k].str.None?
    ensures PageText(items, sep) == ""
  {
    NoTextItemsNoPieces(items);
  }

  lemma {:induction false} NoTextItemsNoPieces(items: seq<TextItem>)
    requires forall k :: 0 <= k < |items| ==> items[k].str.None?
    ensures Pieces(items) == []
    decreases |items|
  {
    if items != [] {
      NoTextItemsNoPieces(items[..|items| - 1]);
    }
  }

  /** With the default separator "", a page's text is exactly as long as its
      item strings together plus one character per inserted newline. */
  lemma {:induction false} PageTextLength(items: seq<TextItem>)
    ensures |PageText(items, "")| == StringLength(items) + LineBreaks(StringItems(items))
    decreases |items|
  {
    if items != [] {
      var pre, it := items[..|items| - 1], items[|items| - 1];
      PageTextLength(pre);
      var sp := StringItems(pre);
      if it.str.Some? {
        var s := sp + [it];
        assert StringItems(items) == s;
        assert s[..|s| - 1] == sp;
        LastYIsLastText(pre);
        JoinSnoc(Pieces(pre), Emitted(LastY(pre), it.str.value, it.y), "");
        assert |Emitted(LastY(pre), it.str.value, it.y)| == |it.str.value| + if LineBreakBefore(s, |s| - 1) then 1 else 0;
      }
    }
  }

  // ---------------------------------------------------------------------------
  // Page records
  // ---------------------------------------------------------------------------

  /** `d` is the record of a page of `pages` that has items: it carries that
      page's 1-based number, its text and the document's page count. */
  predicate RecordOfPage(pages: seq<seq<TextItem>>, total: nat, sep: string, d: Document) {
    && d.pageNumber.Some?
    && 1 <= d.pageNumber.value <= |pages|
    && pages[d.pageNumber.value - 1] != []
    && d.pageContent == PageText(pages[d.pageNumber.value - 1], sep)
    && d.totalPages == total
  }

  /** Every record comes from a page with items, numbered from 1. */
  lemma {:induction false} PageRecordsSound(pages: seq<seq<TextItem>>, total: nat, sep: string)
    ensures forall k :: 0 <= k < |PageRecords(pages, total, sep)| ==>
      RecordOfPage(pages, total, sep, PageRecords(pages, total, sep)[k])
    decreases |pages|
  {
    if pages != [] {
      var n := |pages|;
      var pre := pages[..n - 1];
      PageRecordsSound(pre, total, sep);
      var r, rp := PageRecords(pages, total, sep), PageRecords(pre, total, sep);
      forall k | 0 <= k < |r|
        ensures RecordOfPage(pages, total, sep, r[k])
      {
        if k < |rp| {
          assert r[k] == rp[k];
          assert RecordOfPage(pre, total, sep, rp[k]);
          var q := rp[k].pageNumber.value;
          assert pages[q - 1] == pre[q - 1];
        }
      }
    }
  }

  /** Records appear in strictly increasing page order. */
  lemma {:induction false} PageRecordsOrdered(pages: seq<seq<TextItem>>, total: nat, sep: string)
    ensures forall j, k :: 0 <= j < k < |PageRecords(pages, total, sep)| ==>
      PageRecords(pages, total, sep)[j].pageNumber.GetOr(0) <
      PageRecords(pages, total, sep)[k].pageNumber.GetOr(0)
    decreases |pages|
  {
    if pages != [] {
      var n := |pages|;
      var pre := pages[..n - 1];
      PageRecordsOrdered(pre, total, sep);
      PageRecordsSound(pre, total, sep);
      var r, rp := PageRecords(pages, total, sep), PageRecords(pre, total, sep);
      forall j, k | 0 <= j < k < |r|
        ensures r[j].pageNumber.GetOr(0) < r[k].pageNumber.GetOr(0)
      {
        assert r[j] == rp[j];
        assert RecordOfPage(pre, total, sep, rp[j]);
        if k < |rp| {
          assert r[k] == rp[k];
        }
      }
    }
  }

  /** Every page with items has its record; a page without items has none. */
  lemma {:induction false} PageRecordsComplete(pages: seq<seq<TextItem>>, total: nat, sep: string)
    ensures forall p :: 1 <= p <= |pages| ==>
      (pages[p - 1] != [] <==> HasRecord(PageRecords(pages, total, sep), p))
    decreases |pages|
  {
    if pages != [] {
      var n := |pages|;
      var pre := pages[..n - 1];
      PageRecordsComplete(pre, total, sep);
      PageRecordsSound(pages, total, sep);
      PageRecordsSound(pre, total, sep);
      var r, rp := PageRecords(pages, total, sep), PageRecords(pre, total, sep);
      forall p | 1 <= p <= n
        ensures pages[p - 1] != [] <==> HasRecord(r, p)
      {
        if p < n {
          assert pages[p - 1] == pre[p - 1];
          if pages[p - 1] != [] {
            assert HasRecord(rp, p);
            var k :| 0 <= k < |rp| && rp[k].pageNumber == Some(p);
            assert r[k] == rp[k];
          }
        } else if pages[n - 1] != [] {
          assert r[|r| - 1].pageNumber == Some(n);
        }
      }
    }
  }

  predicate HasRecord(docs: seq<Document>, p: nat) {
    exists k :: 0 <= k < |docs| && docs[k].pageNumber == Some(p)
  }

  /** Without `splitPages`: no record at all when every page is empty, and
      otherwise exactly one record, without a page number, whose text is the
      per-page texts joined by a blank line. */
  lemma MergedLoad(pages: seq<seq<TextItem>>, sep: string)
    ensures Loaded(pages, false, sep) == [] <==> forall p :: 0 <= p < |pages| ==> pages[p] == []
    ensures Loaded(pages, false, sep) != [] ==>
      Loaded(pages, false, sep) ==
        [Document(Join(Contents(Loaded(pages, true, sep)), "\n\n"), |pages|, None)]
  {
    var r := PageRecords(pages, |pages|, sep);
    PageRecordsComplete(pages, |pages|, sep);
    if r == [] {
      forall p | 0 <= p < |pages|
        ensures pages[p] == []
      {
        assert pages[(p + 1) - 1] != [] <==> HasRecord(r, p + 1);
      }
    } else {
      PageRecordsSound(pages, |pages|, sep);
      assert RecordOfPage(pages, |pages|, sep, r[0]);
    }
  }
}
