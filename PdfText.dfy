/** The per-item cache of a library item's PDF full text
    (`PDFTextCache` in src/modules/components/pdfText.ts). It remembers the
    text of one item, keyed by the item's id as a string, and extracts again
    only when asked for another item or when it holds nothing. */
module PdfText {
  import opened Wrappers
  import opened JsText

  /** An attachment as the extraction sees it: its `attachmentContentType`
      and its `attachmentText`. */
  datatype Attachment = Attachment(contentType: string, text: string)

  /** A Zotero item: its numeric `id`, whether `isAttachment()` holds, and
      its attachments as `getAttachments()` lists them, already resolved. */
  datatype Item = Item(id: int, isAttachment: bool, attachments: seq<Attachment>)

  const NoPdfMessage := "No PDF attachment found for this item"

  /** The content types the extraction accepts as a PDF. */
  predicate IsPdf(a: Attachment) {
    a.contentType == "application/pdf" || a.contentType == ""
  }

  /** The position of the first PDF attachment, if any. */
  function FirstPdf(atts: seq<Attachment>): (r: Option<nat>)
    ensures r.Some? ==> r.value < |atts| && IsPdf(atts[r.value])
    ensures r.Some? ==> forall j :: 0 <= j < r.value ==> !IsPdf(atts[j])
    ensures r.None? <==> forall j :: 0 <= j < |atts| ==> !IsPdf(atts[j])
    decreases |atts|
  {
    if atts == [] then None
    else if IsPdf(atts[0]) then Some(0)
    else match FirstPdf(atts[1..])
      case None => None
      case Some(k) => Some(k + 1)
  }

  /** What `extractPDFText(item)` returns or throws: an attachment item gives
      "", any other item the text of its first PDF attachment. */
  function Extracted(item: Item): (r: Result<string, string>)
    ensures item.isAttachment ==> r == Ok("")
    ensures !item.isAttachment ==>
      (r.Err? <==> forall j :: 0 <= j < |item.attachments| ==> !IsPdf(item.attachments[j]))
    ensures r.Err? ==> r.error == NoPdfMessage
    ensures !item.isAttachment && r.Ok? ==>
      exists k :: 0 <= k < |item.attachments| && IsPdf(item.attachments[k]) &&
        (forall j :: 0 <= j < k ==> !IsPdf(item.attachments[j])) && r.value == item.attachments[k].text
  {
    if item.isAttachment then Ok("")
    else match FirstPdf(item.attachments)
      case Some(k) => Ok(item.attachments[k].text)
      case None => Err(NoPdfMessage)
  }

  /** The two fields of the cache; `None` is `null`. */
  datatype CacheState = CacheState(pdfText: Option<string>, currentItemID: Option<string>)

  const Empty := CacheState(None, None)

  /** The state after one `getPDFText` call, what it returned or threw, and
      whether it called the extraction. */
  datatype Lookup = Lookup(next: CacheState, result: Result<string, string>, extracted: bool)

  /** `item.id.toString()`. */
  function Key(item: Item): string {
    IntToString(item.id)
  }

  /** `getPDFText(item)`. The extraction runs exactly when the cached id is
      not this item's or nothing is cached; if it throws, the fields keep
      their values (they are assigned only after it returns). */
  function GetText(s: CacheState, item: Item): (l: Lookup)
    ensures l.extracted <==> s.currentItemID != Some(Key(item)) || s.pdfText.None?
    ensures l.extracted ==> l.result == Extracted(item)
    ensures l.result.Ok? ==> l.next == CacheState(Some(l.result.value), Some(Key(item)))
    ensures l.result.Err? ==> l.next == s
    ensures !l.extracted ==> s.pdfText.Some? && l == Lookup(s, Ok(s.pdfText.value), false)
  {
    if s.currentItemID != Some(Key(item)) || s.pdfText.None? then
      match Extracted(item)
      case Ok(t) => Lookup(CacheState(Some(t), Some(Key(item))), Ok(t), true)
      case Err(e) => Lookup(s, Err(e), true)
    else Lookup(s, Ok(s.pdfText.value), false)
  }

  class PDFTextCache {
    var pdfText: Option<string>
    var currentItemID: Option<string>

    function State(): CacheState
      reads this
    {
      CacheState(pdfText, currentItemID)
    }

    constructor ()
      ensures State() == Empty
    {
      pdfText, currentItemID := None, None;
    }

    /** `getPDFText`; `extracted` records whether the extraction ran. */
    method GetPDFText(item: Item) returns (r: Result<string, string>, ghost extracted: bool)
      modifies this
      ensures Lookup(State(), r, extracted) == GetText(old(State()), item)
    {
      var itemID := IntToString(item.id);
      extracted := false;
      if currentItemID != Some(itemID) || pdfText.None? {
        extracted := true;
        var t := ExtractPDFText(item);
        if t.Err? {
          return Err(t.error), extracted;
        }
        pdfText := Some(t.value);
        currentItemID := Some(itemID);
      }
      r := Ok(pdfText.value);
    }

    /** `extractPDFText`: scan the attachments in order and return the text
        of the first PDF one. */
    method ExtractPDFText(item: Item) returns (r: Result<string, string>)
      ensures r == Extracted(item)
    {
      if !item.isAttachment {
        var attachments := item.attachments;
        for i := 0 to |attachments|
          invariant forall j :: 0 <= j < i ==> !IsPdf(attachments[j])
        {
          var attachment := attachments[i];
          if attachment.contentType == "application/pdf" || attachment.contentType == "" {
            assert FirstPdf(attachments) == Some(i);
            return Ok(attachment.text);
          }
        }
        return Err(NoPdfMessage);
      }
      return Ok("");
    }

    /** `clearCache`: both fields become `null`. */
    method ClearCache()
      modifies this
      ensures pdfText.None? && currentItemID.None?
      ensures State() == Empty
    {
      pdfText := None;
      currentItemID := None;
    }
  }

  // ---------------------------------------------------------------------------
  // Properties over several calls
  // ---------------------------------------------------------------------------

  /** Asking again for the same item returns the same text, without
      extracting and without changing the cache. */
  lemma SameItemServedFromCache(s: CacheState, item: Item)
    requires GetText(s, item).result.Ok?
    ensures var l := GetText(s, item);
      GetText(l.next, item) == Lookup(l.next, l.result, false)
  {
  }

  /** Asking for an item with a different id after a successful call
      extracts again. */
  lemma OtherItemExtracts(s: CacheState, a: Item, b: Item)
    requires GetText(s, a).result.Ok?
    requires a.id != b.id
    ensures GetText(GetText(s, a).next, b).extracted
  {
    IntToStringInjective(a.id, b.id);
  }

  /** An item that is itself an attachment yields "" when extracted, and
      that "" is cached like any other text: the next call for it does not
      extract. */
  lemma AttachmentItemCachesEmptyText(s: CacheState, item: Item)
    requires item.isAttachment
    requires s.currentItemID != Some(Key(item)) || s.pdfText.None?
    ensures GetText(s, item).result == Ok("")
    ensures GetText(GetText(s, item).next, item) == Lookup(GetText(s, item).next, Ok(""), false)
  {
  }

  /** A non-attachment item without any PDF attachment makes the call throw
      and leaves the cache as it was. */
  lemma NoPdfAttachmentThrows(s: CacheState, item: Item)
    requires !item.isAttachment
    requires forall j :: 0 <= j < |item.attachments| ==> !IsPdf(item.attachments[j])
    requires s.currentItemID != Some(Key(item)) || s.pdfText.None?
    ensures GetText(s, item) == Lookup(s, Err(NoPdfMessage), true)
  {
  }

  /** After `clearCache` every call extracts. */
  lemma ClearedCacheExtracts(item: Item)
    ensures GetText(Empty, item).extracted
  {
  }
}
