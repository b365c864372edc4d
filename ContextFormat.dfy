/** The context formatter of src/modules/components/rag.ts (`formatDocs`): it
    serialises retrieved documents into tagged blocks for the answer prompt. */
module ContextFormat {
  import opened Wrappers
  import opened JsText

  /** A value stored under `metadata.page`: `null`, an integer-valued number
      or a string. */
  datatype PageValue = PageNull | PageNumber(n: int) | PageString(s: string)

  /** A document's `metadata`; `None` is a missing (`undefined`) property. */
  datatype Metadata = Metadata(source: Option<string>, page: Option<PageValue>)

  /** A retrieved document: `pageContent` and `metadata`, either possibly missing. */
  datatype Doc = Doc(pageContent: Option<string>, metadata: Option<Metadata>)

  /** The three values a block carries. */
  datatype Fields = Fields(content: string, source: string, page: int)

  const Open := "<document><content>"
  const ContentEnd := "</content>"
  const SourceTag := "<source>"
  const SourceEnd := "</source>"
  const PageTag := "<page>"
  const Close := "</page></document>"

  // ---------------------------------------------------------------------------
  // The defaulting rules
  // ---------------------------------------------------------------------------

  /** `doc.pageContent || ""`. */
  function ContentOf(d: Doc): (c: string)
    ensures d.pageContent.Some? ==> c == d.pageContent.value
    ensures d.pageContent.None? ==> c == ""
  {
    d.pageContent.GetOr("")
  }

  /** `doc.metadata?.source || "unknown_source"`: a missing or empty source is
      replaced, any other is kept as it is. */
  function SourceOf(d: Doc): (s: string)
    ensures s != "unknown_source" ==> d.metadata.Some? && d.metadata.value.source == Some(s)
    ensures d.metadata.Some? && d.metadata.value.source.Some? && d.metadata.value.source.value != "" ==>
      s == d.metadata.value.source.value
    ensures s != ""
  {
    if d.metadata.Some? && d.metadata.value.source.Some? && d.metadata.value.source.value != ""
    then d.metadata.value.source.value
    else "unknown_source"
  }

  /** `parseInt(page, 10)`: a number is first turned into its decimal string,
      `null` into the string "null". */
  function ParsePage(v: PageValue): Option<int> {
    match v
    case PageNull => ParseInt("null")
    case PageNumber(n) => ParseInt(IntToString(n))
    case PageString(s) => ParseInt(s)
  }

  /** A number reads back as itself; `null` does not parse. */
  lemma ParsePageFacts(v: PageValue)
    ensures v.PageNumber? ==> ParsePage(v) == Some(v.n)
    ensures v.PageNull? ==> ParsePage(v).None?
  {
    if v.PageNumber? {
      ParseIntOfIntToString(v.n, "");
      assert IntToString(v.n) + "" == IntToString(v.n);
    } else if v.PageNull? {
      assert AllNonDigits("null");
    }
  }

  /** The page number written into a block: 1 unless `metadata.page` is
      present and parses as an integer n, in which case n + 1 (the stored page
      is 0-based). */
  function PageOf(d: Doc): (p: int)
    ensures d.metadata.None? || d.metadata.value.page.None? ==> p == 1
    ensures d.metadata.Some? && d.metadata.value.page == Some(PageNull) ==> p == 1
    ensures d.metadata.Some? && d.metadata.value.page.Some? && d.metadata.value.page.value.PageNumber? ==>
      p == d.metadata.value.page.value.n + 1
    ensures d.metadata.Some? && d.metadata.value.page.Some? && d.metadata.value.page.value.PageString? ==>
      p == match ParseInt(d.metadata.value.page.value.s) case Some(n) => n + 1 case None => 1
  {
    if d.metadata.Some? && d.metadata.value.page.Some? then
      var v := d.metadata.value.page.value;
      ParsePageFacts(v);
      match ParsePage(v)
      case Some(n) => n + 1
      case None => 1
    else 1
  }

  function FieldsOf(d: Doc): Fields {
    Fields(ContentOf(d), SourceOf(d), PageOf(d))
  }

  // ---------------------------------------------------------------------------
  // Serialisation
  // ---------------------------------------------------------------------------

  /** The tagged block of one document's fields. */
  function Render(f: Fields): (b: string)
    ensures |Open| + |f.content| <= |b| && b[..|Open|] == Open && b[|Open|..|Open| + |f.content|] == f.content
    ensures |Close| <= |b| && b[|b| - |Close|..] == Close
  {
    Open + f.content + ContentEnd + SourceTag + f.source + SourceEnd + PageTag + IntToString(f.page) + Close
  }

  function Block(d: Doc): string {
    Render(FieldsOf(d))
  }

  function Blocks(docs: seq<Doc>): (bs: seq<string>)
    ensures |bs| == |docs|
  {
    seq(|docs|, k requires 0 <= k < |docs| => Block(docs[k]))
  }

  /** `formatDocs(docs, joinSeparator)`. */
  function FormatDocs(docs: seq<Doc>, sep: string): (r: string)
    ensures r == "" <==> docs == []
  {
    var bs := Blocks(docs);
    if docs == [] then Join(bs, sep)
    else
      JoinLength(bs, sep);
      assert |bs[|bs| - 1]| >= |Close|;
      Join(bs, sep)
  }

  // ---------------------------------------------------------------------------
  // Reading a block back
  // ---------------------------------------------------------------------------

  /** The position of the last `c` in `s`. */
  function LastIndexOf(s: string, c: char): (r: Option<nat>)
    ensures r.Some? ==> r.value < |s| && s[r.value] == c && c !in s[r.value + 1..]
    ensures r.None? ==> c !in s
    decreases |s|
  {
    if s == [] then None
    else if s[|s| - 1] == c then Some(|s| - 1)
    else
      var r := LastIndexOf(s[..|s| - 1], c);
      assert s == s[..|s| - 1] + [s[|s| - 1]];
      r
  }

  lemma LastIndexOfSplit(x: string, c: char, y: string)
    requires c !in y
    ensures LastIndexOf(x + [c] + y, c) == Some(|x|)
  {
    var s := x + [c] + y;
    assert s[|x|] == c;
    assert s[|x| + 1..] == y;
  }

  predicate HasPrefix(s: string, p: string) {
    |p| <= |s| && s[..|p|] == p
  }

  predicate HasSuffix(s: string, p: string) {
    |p| <= |s| && s[|s| - |p|..] == p
  }

  /** `s` split at its last `<` into the text before it and the text after
      `tag`, when `tag` (which starts with `<`) stands there. */
  function SplitAtLastTag(s: string, tag: string): Option<(string, string)>
    requires |tag| > 0 && tag[0] == '<'
  {
    match LastIndexOf(s, '<')
    case None => None
    case Some(i) =>
      if HasPrefix(s[i..], tag) then Some((s[..i], s[i + |tag|..])) else None
  }

  /** Recovers the fields of a block whose source contains no `<`: the content
      may contain anything, so the block is read from its end. */
  function ReadBlock(b: string): Option<Fields> {
    if |Open| + |Close| <= |b| && HasPrefix(b, Open) && HasSuffix(b, Close)
    then ReadBody(b[|Open|..|b| - |Close|])
    else None
  }

  /** Reads what stands between `Open` and `Close`. */
  function ReadBody(m: string): Option<Fields> {
    match SplitAtLastTag(m, PageTag)
    case None => None
    case Some(split) =>
      match (ParseInt(split.1), ReadContentAndSource(split.0))
      case (Some(page), Some(cs)) => Some(Fields(cs.0, cs.1, page))
      case _ => None
  }

  /** Reads `content</content><source>source</source>`. */
  function ReadContentAndSource(front: string): Option<(string, string)> {
    if !HasSuffix(front, SourceEnd) then None
    else
      match SplitAtLastTag(front[..|front| - |SourceEnd|], SourceTag)
      case None => None
      case Some(split) =>
        if HasSuffix(split.0, ContentEnd) then Some((split.0[..|split.0| - |ContentEnd|], split.1)) else None
  }

  lemma SplitAtLastTagOf(x: string, tag: string, y: string)
    requires |tag| > 0 && tag[0] == '<'
    requires '<' !in tag[1..] + y
    ensures SplitAtLastTag(x + tag + y, tag) == Some((x, y))
  {
    var s := x + tag + y;
    assert s == x + ['<'] + (tag[1..] + y);
    LastIndexOfSplit(x, '<', tag[1..] + y);
    assert s[|x|..] == tag + y;
    assert s[..|x|] == x;
    assert s[|x| + |tag|..] == y;
  }

  lemma ReadContentAndSourceOf(c: string, s: string)
    requires '<' !in s
    ensures ReadContentAndSource(c + ContentEnd + SourceTag + s + SourceEnd) == Some((c, s))
  {
    var front := c + ContentEnd + SourceTag + s + SourceEnd;
    var front1 := (c + ContentEnd) + SourceTag + s;
    assert front == front1 + SourceEnd;
    assert front[..|front| - |SourceEnd|] == front1;
    assert '<' !in SourceTag[1..] + s;
    SplitAtLastTagOf(c + ContentEnd, SourceTag, s);
    assert (c + ContentEnd)[..|c|] == c;
  }

  lemma NoAngleInNumber(n: int)
    ensures '<' !in IntToString(n)
  {
    if n < 0 {
      assert IntToString(n) == "-" + NatToString(-n);
    }
  }

  lemma ReadBodyOf(f: Fields)
    requires '<' !in f.source
    ensures ReadBody(f.content + ContentEnd + SourceTag + f.source + SourceEnd + PageTag + IntToString(f.page)) == Some(f)
  {
    var p := IntToString(f.page);
    var front := f.content + ContentEnd + SourceTag + f.source + SourceEnd;
    NoAngleInNumber(f.page);
    assert '<' !in PageTag[1..] + p;
    SplitAtLastTagOf(front, PageTag, p);
    ParseIntOfIntToString(f.page, "");
    assert p + "" == p;
    ReadContentAndSourceOf(f.content, f.source);
  }

  /** Reading a rendered block gives back its fields whenever the source has
      no `<`: content, source and page stand verbatim between their tags. */
  lemma ReadRender(f: Fields)
    requires '<' !in f.source
    ensures ReadBlock(Render(f)) == Some(f)
  {
    var m := f.content + ContentEnd + SourceTag + f.source + SourceEnd + PageTag + IntToString(f.page);
    var b := Render(f);
    assert b == Open + m + Close;
    assert b[..|Open|] == Open;
    assert b[|b| - |Close|..] == Close;
    assert b[|Open|..|b| - |Close|] == m;
    ReadBodyOf(f);
  }

  // ---------------------------------------------------------------------------
  // Properties of formatDocs
  // ---------------------------------------------------------------------------

  /** A document whose source has no `<` can be read back from its block:
      its content verbatim, its source or `unknown_source`, and its page. */
  lemma DocumentRoundTrip(d: Doc)
    requires d.metadata.Some? && d.metadata.value.source.Some? ==> '<' !in d.metadata.value.source.value
    ensures ReadBlock(Block(d)) == Some(Fields(ContentOf(d), SourceOf(d), PageOf(d)))
  {
    ReadRender(FieldsOf(d));
  }

  /** The output consists of one block per document, in input order, with
      one separator between neighbouring blocks and nothing else; no
      documents give the empty string. */
  lemma FormatDocsLayout(docs: seq<Doc>, sep: string)
    ensures docs == [] ==> FormatDocs(docs, sep) == ""
    ensures docs != [] ==>
      |FormatDocs(docs, sep)| == Offset(Blocks(docs), sep, |docs| - 1) + |Block(docs[|docs| - 1])|
    ensures forall k :: 0 <= k < |docs| ==> PartAt(FormatDocs(docs, sep), Blocks(docs), sep, k)
    ensures forall k :: 0 <= k < |docs| ==> SeparatorAfter(FormatDocs(docs, sep), Blocks(docs), sep, k)
  {
    var bs := Blocks(docs);
    if docs != [] {
      JoinLength(bs, sep);
    }
    forall k | 0 <= k < |docs|
      ensures PartAt(FormatDocs(docs, sep), bs, sep, k)
      ensures SeparatorAfter(FormatDocs(docs, sep), bs, sep, k)
    {
      JoinAt(bs, sep, k);
      if k + 1 < |docs| {
        JoinSeparatorAt(bs, sep, k);
      }
    }
  }

  /** Each document's fields can be read back from its slot of the output. */
  lemma FormatDocsRoundTrip(docs: seq<Doc>, sep: string, k: nat)
    requires k < |docs|
    requires docs[k].metadata.Some? && docs[k].metadata.value.source.Some? ==>
      '<' !in docs[k].metadata.value.source.value
    ensures Offset(Blocks(docs), sep, k) + |Block(docs[k])| <= |FormatDocs(docs, sep)|
    ensures ReadBlock(Slot(FormatDocs(docs, sep), Blocks(docs), sep, k)) == Some(FieldsOf(docs[k]))
  {
    FormatDocsLayout(docs, sep);
    assert PartAt(FormatDocs(docs, sep), Blocks(docs), sep, k);
    ReadRender(FieldsOf(docs[k]));
  }
}
