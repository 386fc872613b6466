/**
 * The parsed-page records (`Page`, `HeaderSection`), their JSON form as `PageEncoder`
 * writes it, and the start of a header section in `process_header`.
 */
module Page {
  import opened Wrappers
  import opened Json
  import ClearedText
  import Text

  /** One header and the cleared texts that answer it. `level` is the header tag's second character. */
  datatype HeaderSection = HeaderSection(level: string, content: string, responses: seq<string>)

  /** A parsed page. `title` and `description` are `None` where the page has none. */
  datatype Page = Page(
    url: string,
    title: Option<string>,
    description: Option<string>,
    data: seq<HeaderSection>,
    links: seq<string>,
    content: string)

  /** A page as the constructor leaves it: no sections, no links, no content yet. */
  function NewPage(url: string, title: Option<string>, description: Option<string>): (p: Page)
    ensures p.url == url && p.title == title && p.description == description
    ensures p.data == [] && p.links == [] && p.content == ""
  {
    Page(url, title, description, [], [], "")
  }

  /** A header section as the constructor leaves it: no responses yet. */
  function NewHeaderSection(level: string, content: string): (h: HeaderSection)
    ensures h.level == level && h.content == content && h.responses == []
  {
    HeaderSection(level, content, [])
  }

  // ---- JSON form ----

  const HeaderKeys: set<string> := {"level", "content", "responses"}
  const PageKeys: set<string> := {"url", "title", "description", "data", "links", "content"}

  function EncodeOptional(o: Option<string>): Json
  {
    match o
    case None => JNull
    case Some(s) => JString(s)
  }

  function EncodeHeader(h: HeaderSection): (j: Json)
    ensures j.JObject? && j.fields.Keys == HeaderKeys
  {
    JObject(map[
      "level" := JString(h.level),
      "content" := JString(h.content),
      "responses" := StringList(h.responses)])
  }

  function EncodeHeaders(hs: seq<HeaderSection>): (items: seq<Json>)
    ensures |items| == |hs|
    ensures forall k :: 0 <= k < |hs| ==> items[k] == EncodeHeader(hs[k])
  {
    seq(|hs|, k requires 0 <= k < |hs| => EncodeHeader(hs[k]))
  }

  /** `PageEncoder.default`: the page as a JSON object with exactly six keys. */
  function EncodePage(p: Page): (j: Json)
    ensures j.JObject? && j.fields.Keys == PageKeys
    ensures j.fields["data"].JArray? && |j.fields["data"].items| == |p.data|
  {
    JObject(map[
      "url" := JString(p.url),
      "title" := EncodeOptional(p.title),
      "description" := EncodeOptional(p.description),
      "data" := JArray(EncodeHeaders(p.data)),
      "links" := StringList(p.links),
      "content" := JString(p.content)])
  }

  // ---- Reading the JSON form back ----

  function DecodeStrings(items: seq<Json>): Option<seq<string>>
  {
    if |items| == 0 then Some([])
    else if !items[0].JString? then None
    else match DecodeStrings(items[1..])
      case None => None
      case Some(rest) => Some([items[0].s] + rest)
  }

  function DecodeOptional(j: Json): Option<Option<string>>
  {
    match j
    case JNull => Some(None)
    case JString(s) => Some(Some(s))
    case _ => None
  }

  function DecodeHeader(j: Json): Option<HeaderSection>
  {
    if !j.JObject? || j.fields.Keys != HeaderKeys then None
    else
      var f := j.fields;
      if !f["level"].JString? || !f["content"].JString? || !f["responses"].JArray? then None
      else match DecodeStrings(f["responses"].items)
        case None => None
        case Some(rs) => Some(HeaderSection(f["level"].s, f["content"].s, rs))
  }

  function DecodeHeaders(items: seq<Json>): Option<seq<HeaderSection>>
  {
    if |items| == 0 then Some([])
    else match (DecodeHeader(items[0]), DecodeHeaders(items[1..]))
      case (Some(h), Some(rest)) => Some([h] + rest)
      case _ => None
  }

  /** The page a JSON document written by the encoder describes, if it is one. */
  function DecodePage(j: Json): Option<Page>
  {
    if !j.JObject? || j.fields.Keys != PageKeys then None
    else
      var f := j.fields;
      if !f["url"].JString? || !f["data"].JArray? || !f["links"].JArray? || !f["content"].JString? then None
      else match (DecodeOptional(f["title"]), DecodeOptional(f["description"]),
                  DecodeHeaders(f["data"].items), DecodeStrings(f["links"].items))
        case (Some(t), Some(d), Some(hs), Some(ls)) => Some(Page(f["url"].s, t, d, hs, ls, f["content"].s))
        case _ => None
  }

  lemma {:induction false} StringsRoundTrip(xs: seq<string>)
    ensures DecodeStrings(StringList(xs).items) == Some(xs)
    decreases |xs|
  {
    if |xs| > 0 {
      var items := StringList(xs).items;
      assert items[1..] == StringList(xs[1..]).items;
      StringsRoundTrip(xs[1..]);
      assert [xs[0]] + xs[1..] == xs;
    }
  }

  lemma {:induction false} StringsDecodeEncode(items: seq<Json>, xs: seq<string>)
    requires DecodeStrings(items) == Some(xs)
    ensures StringList(xs).items == items
    decreases |items|
  {
    if |items| > 0 {
      var rest := DecodeStrings(items[1..]).value;
      StringsDecodeEncode(items[1..], rest);
      assert xs == [items[0].s] + rest;
      assert StringList(xs).items == [items[0]] + StringList(rest).items;
      assert [items[0]] + items[1..] == items;
    }
  }

  lemma HeaderRoundTrip(h: HeaderSection)
    ensures DecodeHeader(EncodeHeader(h)) == Some(h)
  {
    StringsRoundTrip(h.responses);
  }

  lemma HeaderDecodeEncode(j: Json, h: HeaderSection)
    requires DecodeHeader(j) == Some(h)
    ensures EncodeHeader(h) == j
  {
    var f := j.fields;
    StringsDecodeEncode(f["responses"].items, h.responses);
    assert EncodeHeader(h).fields == f;
  }

  lemma {:induction false} HeadersRoundTrip(hs: seq<HeaderSection>)
    ensures DecodeHeaders(EncodeHeaders(hs)) == Some(hs)
    decreases |hs|
  {
    if |hs| > 0 {
      var items := EncodeHeaders(hs);
      assert items[1..] == EncodeHeaders(hs[1..]);
      HeaderRoundTrip(hs[0]);
      HeadersRoundTrip(hs[1..]);
      assert [hs[0]] + hs[1..] == hs;
    }
  }

  lemma {:induction false} HeadersDecodeEncode(items: seq<Json>, hs: seq<HeaderSection>)
    requires DecodeHeaders(items) == Some(hs)
    ensures EncodeHeaders(hs) == items
    decreases |items|
  {
    if |items| > 0 {
      var h := DecodeHeader(items[0]).value;
      var rest := DecodeHeaders(items[1..]).value;
      HeaderDecodeEncode(items[0], h);
      HeadersDecodeEncode(items[1..], rest);
      assert hs == [h] + rest;
      assert EncodeHeaders(hs) == [EncodeHeader(h)] + EncodeHeaders(rest);
      assert [items[0]] + items[1..] == items;
    }
  }

  /** Every page survives being written by the encoder and read back. */
  lemma PageRoundTrip(p: Page)
    ensures DecodePage(EncodePage(p)) == Some(p)
  {
    HeadersRoundTrip(p.data);
    StringsRoundTrip(p.links);
  }

  /** The decoder accepts only what the encoder writes: a decoded document is the page's encoding. */
  lemma PageDecodeEncode(j: Json, p: Page)
    requires DecodePage(j) == Some(p)
    ensures EncodePage(p) == j
  {
    var f := j.fields;
    HeadersDecodeEncode(f["data"].items, p.data);
    StringsDecodeEncode(f["links"].items, p.links);
    assert EncodeOptional(p.title) == f["title"];
    assert EncodeOptional(p.description) == f["description"];
    assert EncodePage(p).fields == f;
  }

  /** Two pages with the same encoding are the same page. */
  lemma EncodePageInjective(p: Page, q: Page)
    requires EncodePage(p) == EncodePage(q)
    ensures p == q
  {
    PageRoundTrip(p);
    PageRoundTrip(q);
  }

  // ---- Opening a header section ----

  /** `header_tag.name[1]`: the tag name's second character, or the `IndexError` of a shorter name. */
  function HeaderLevel(tagName: string): (level: Option<string>)
    ensures level.Some? <==> |tagName| >= 2
    ensures level.Some? ==> |level.value| == 1 && level.value[0] == tagName[1]
  {
    if |tagName| >= 2 then Some([tagName[1]]) else None
  }

  /**
   * The first step of `process_header`: a new section for the header, holding the header's
   * cleared text and no responses yet, appended to the page's sections.
   */
  function OpenHeader(page: Page, tagName: string, text: string): (r: Option<Page>)
    ensures r.Some? <==> |tagName| >= 2
    ensures r.Some? ==>
              && |r.value.data| == |page.data| + 1
              && r.value.data[..|page.data|] == page.data
              && r.value.data[|page.data|] ==
                   NewHeaderSection([tagName[1]], ClearedText.ClearText(text))
              && r.value == page.(data := r.value.data)
  {
    match HeaderLevel(tagName)
    case None => None
    case Some(level) =>
      Some(page.(data := page.data + [NewHeaderSection(level, ClearedText.ClearText(text))]))
  }

  /** The headers `h1` to `h6` give the levels "1" to "6". */
  lemma HeaderTagLevels()
    ensures HeaderLevel("h1") == Some("1") && HeaderLevel("h2") == Some("2")
    ensures HeaderLevel("h3") == Some("3") && HeaderLevel("h4") == Some("4")
    ensures HeaderLevel("h5") == Some("5") && HeaderLevel("h6") == Some("6")
    ensures HeaderLevel("h") == None
  {
  }

  /**
   * The opened section's content holds no `\n`, and is empty exactly when the header's
   * text is all whitespace.
   */
  lemma OpenHeaderContent(page: Page, tagName: string, text: string)
    requires |tagName| >= 2
    ensures var h := OpenHeader(page, tagName, text).value.data[|page.data|];
            && '\n' !in h.content
            && (h.content == "" <==> Text.AllSpace(text))
  {
  }
}
