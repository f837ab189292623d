/**
 * The people service: two hard-coded profiles of the founders of DosiBridge,
 * optionally enriched with the paragraph of the company's About page that
 * mentions each of them.
 *
 * The scrape itself is not modelled: the tools receive what fetching the
 * About page returned or raised, and `FetchAboutMarkdown` models how that
 * result is derived from the API key and the HTTP exchange.
 */
module People {
  import opened Outcomes
  import opened PyText
  import opened Envelopes

  /** A JSON value as `httpx` decodes it and as the tools return it. */
  datatype Json =
    | JNull
    | JBool(b: bool)
    | JInt(i: int)
    | JFloat(x: real)
    | JStr(s: string)
    | JList(items: seq<Json>)
    | JObj(fields: map<string, Json>)

  /** Python truthiness of a decoded JSON value. */
  predicate Truthy(j: Json) {
    match j
    case JNull => false
    case JBool(b) => b
    case JInt(i) => i != 0
    case JFloat(x) => x != 0.0
    case JStr(s) => s != []
    case JList(items) => items != []
    case JObj(fields) => fields != map[]
  }

  /** The name of the Python type a JSON value decodes to. */
  function TypeName(j: Json): string {
    match j
    case JNull => "NoneType"
    case JBool(_) => "bool"
    case JInt(_) => "int"
    case JFloat(_) => "float"
    case JStr(_) => "str"
    case JList(_) => "list"
    case JObj(_) => "dict"
  }

  type Response = Envelope<Json>

  /** `_ok(data)`: unlike the arithmetic service, the data is not wrapped. */
  function Ok(data: Json): (r: Response)
    ensures IsSuccess(r) && r.data.value == data
  {
    Envelope(true, Some(data), None, map[])
  }

  /** `_err(message, code)`, whose code defaults to "ERROR". */
  function Err(message: string, code: string := "ERROR"): (r: Response)
    ensures IsFailure(r) && r.error.value == ErrorInfo(message, code)
  {
    Envelope(false, None, Some(ErrorInfo(message, code)), map[])
  }

  const ABOUT_URL: string := "https://dosibridge.com/about"
  const SNIPPET_KEY: string := "about_markdown_snippet"
  const KEY_MISSING: string := "FIRECRAWL_API_KEY env not set"

  /** A hard-coded profile with its one link, to the About page. */
  function Profile(name: string, role: string, summary: string): map<string, Json> {
    map[
      "name" := JStr(name),
      "role" := JStr(role),
      "summary" := JStr(summary),
      "links" := JList([JObj(map["title" := JStr("DosiBridge About"), "url" := JStr(ABOUT_URL)])])
    ]
  }

  const MIHADUL: map<string, Json> :=
    Profile("Mihadul Islam", "Co-founder, DosiBridge",
            "Mihadul Islam is a founder and CEO of DosiBridge, leading engineering and operations.")

  const SAZIB: map<string, Json> :=
    Profile("Abdullah Al Sazib", "Co-founder, DosiBridge",
            "Abdullah Al Sazib is a co-founder and CTO of DosiBridge, focusing on product and partnerships.")

  /** `HARD_CODED`, keyed by the lower-case full name. */
  const HARD_CODED: map<string, map<string, Json>> :=
    map["mihadul islam" := MIHADUL, "abdullah al sazib" := SAZIB]

  /** `s[:n]` for a non-negative `n`: the first `n` characters, or all of `s`. */
  function Head(s: string, n: nat): (r: string)
    ensures r <= s && |r| == Min(n, |s|)
  {
    s[..Min(n, |s|)]
  }

  /** `r` is a contiguous piece of `text`. */
  ghost predicate PieceOf(r: string, text: string) {
    exists i :: 0 <= i && MatchAt(text, r, i)
  }

  /** `key` occurs in `text` when case is ignored. */
  ghost predicate Mentions(text: string, key: string) {
    exists j :: 0 <= j <= |text| && MatchAt(Lower(text), Lower(key), j)
  }

  /** `text.lower().find(key.lower())`: where the first mention starts, or -1. */
  function MentionIndex(text: string, key: string): (r: int)
    ensures r == -1 <==> !Mentions(text, key)
    ensures r != -1 ==> 0 <= r && r + |key| <= |text| && MatchAt(Lower(text), Lower(key), r)
    ensures forall j :: 0 <= j < r ==> !MatchAt(Lower(text), Lower(key), j)
  {
    var r := Find(Lower(text), Lower(key), 0);
    assert r != -1 ==> MatchAt(Lower(text), Lower(key), r);
    r
  }

  const PARAGRAPH_BREAK: string := "\n\n"

  /**
   * Where the paragraph holding position `idx` starts: just after the last
   * blank line lying wholly before `idx`, or at 0 when there is none.
   */
  function ParagraphStart(text: string, idx: nat): (r: nat)
    requires idx <= |text|
    ensures r <= idx
    ensures r == 0 || (2 <= r && MatchAt(text, PARAGRAPH_BREAK, r - 2))
    ensures forall j :: 0 <= j && j + 2 <= idx && (r == 0 || r - 2 < j) ==> !MatchAt(text, PARAGRAPH_BREAK, j)
  {
    var k := RFind(text, PARAGRAPH_BREAK, idx);
    if k == -1 then 0 else k + 2
  }

  /** Where that paragraph ends: at the first blank line at or after `idx`, or at the end. */
  function ParagraphEnd(text: string, idx: nat): (r: nat)
    requires idx <= |text|
    ensures idx <= r <= |text|
    ensures r == |text| || MatchAt(text, PARAGRAPH_BREAK, r)
    ensures forall j :: idx <= j < r ==> !MatchAt(text, PARAGRAPH_BREAK, j)
  {
    var k := Find(text, PARAGRAPH_BREAK, idx);
    if k == -1 then |text| else k
  }

  /** The stripped paragraph around position `idx`. */
  function Paragraph(text: string, idx: nat): string
    requires idx <= |text|
  {
    Strip(text[ParagraphStart(text, idx)..ParagraphEnd(text, idx)])
  }

  /** `_extract_person_snippet(markdown, person_keywords)` */
  function ExtractPersonSnippet(markdown: string, personKeywords: string): (r: string)
    ensures |r| <= 1200
    ensures !Mentions(markdown, personKeywords) ==> r == markdown[..Min(600, |markdown|)]
  {
    var text := markdown;
    var idx := MentionIndex(text, personKeywords);
    if idx == -1 then Head(text, 600) else Head(Widen(text, idx), 1200)
  }

  /**
   * The snippet around position `idx` before truncation: the stripped
   * paragraph, or, when that is shorter than 200 characters, up to 800
   * characters of the text from `idx` on.
   */
  function Widen(text: string, idx: nat): string
    requires idx <= |text|
  {
    var paragraph := Paragraph(text, idx);
    if |paragraph| < 200 then text[idx..idx + Min(800, |text| - idx)] else paragraph
  }

  lemma LowerSlice(s: string, i: nat, j: nat)
    requires i <= j <= |s|
    ensures Lower(s[i..j]) == Lower(s)[i..j]
  {
  }

  lemma PieceAt(r: string, text: string, i: nat)
    requires i + |r| <= |text| && text[i..i + |r|] == r
    ensures PieceOf(r, text)
  {
    assert MatchAt(text, r, i);
  }

  /** The snippet is always a contiguous piece of the page. */
  lemma SnippetIsPieceOfText(markdown: string, personKeywords: string)
    ensures PieceOf(ExtractPersonSnippet(markdown, personKeywords), markdown)
  {
    var text := markdown;
    var r := ExtractPersonSnippet(markdown, personKeywords);
    var idx := MentionIndex(text, personKeywords);
    if idx == -1 {
      PieceAt(r, text, 0);
    } else {
      assert r <= Widen(text, idx);
      WidenedPiece(r, text, idx);
    }
  }

  lemma WidenedPiece(r: string, text: string, idx: nat)
    requires idx <= |text| && r <= Widen(text, idx)
    ensures PieceOf(r, text)
  {
    var paragraph := Paragraph(text, idx);
    if |paragraph| < 200 {
      PieceAt(r, text, idx);
    } else {
      StrippedPiece(r, text, ParagraphStart(text, idx), ParagraphEnd(text, idx));
    }
  }

  /**
   * When the paragraph around the first mention is short once stripped, the
   * snippet is the page from the mention on, at most 800 characters, and it
   * begins with the keywords as written in any case.
   */
  lemma SnippetOfShortParagraph(markdown: string, personKeywords: string)
    requires Mentions(markdown, personKeywords)
    requires |Paragraph(markdown, MentionIndex(markdown, personKeywords))| < 200
    ensures var idx := MentionIndex(markdown, personKeywords);
            var r := ExtractPersonSnippet(markdown, personKeywords);
            r <= markdown[idx..] && |r| == Min(800, |markdown| - idx)
            && (|personKeywords| <= 800 ==> Lower(personKeywords) <= Lower(r))
  {
    var idx := MentionIndex(markdown, personKeywords);
    var m := Min(800, |markdown| - idx);
    ShortWidenIsSlice(markdown, idx, m);
    if |personKeywords| <= 800 {
      MatchStartsSlice(markdown, personKeywords, idx, m);
    }
  }

  /** Around a short paragraph, the widened snippet is short enough to survive the final cut. */
  lemma ShortWidenIsSlice(text: string, idx: nat, m: nat)
    requires idx <= |text| && |Paragraph(text, idx)| < 200 && m == Min(800, |text| - idx)
    ensures Head(Widen(text, idx), 1200) == text[idx..idx + m]
  {
    WidenOfShortParagraph(text, idx, m);
    HeadOfShort(text[idx..idx + m], 1200);
  }

  lemma WidenOfShortParagraph(text: string, idx: nat, m: nat)
    requires idx <= |text| && |Paragraph(text, idx)| < 200 && m == Min(800, |text| - idx)
    ensures Widen(text, idx) == text[idx..idx + m]
  {
  }

  lemma HeadOfShort(s: string, n: nat)
    requires |s| <= n
    ensures Head(s, n) == s
  {
  }

  /** A prefix of the stripped `text[start..end]` is a piece of `text`. */
  lemma StrippedPiece(r: string, text: string, start: nat, end: nat)
    requires start <= end <= |text| && r <= Strip(text[start..end])
    ensures PieceOf(r, text)
  {
    var s := text[start..end];
    var lead := StripOffset(s);
    PrefixOfInnerSlicePiece(r, text, start, end, lead, |Strip(s)|);
  }

  /** The stripped text is a slice of the text. */
  lemma StripOffset(s: string) returns (lead: nat)
    ensures lead + |Strip(s)| <= |s| && Strip(s) == s[lead..lead + |Strip(s)|]
  {
    lead := LeadingCount(s, IsSpace);
  }

  lemma PrefixOfInnerSlicePiece(r: string, text: string, start: nat, end: nat, i: nat, n: nat)
    requires start <= end <= |text| && i + n <= end - start && r <= text[start..end][i..i + n]
    ensures PieceOf(r, text)
  {
    var inner, outer := text[start..end][i..i + n], text[start + i..start + i + n];
    forall k | 0 <= k < n
      ensures inner[k] == outer[k]
    {
      assert inner[k] == text[start..end][i + k] == text[start + i + k];
    }
    assert inner == outer;
    assert r == text[start + i..start + i + |r|];
    PieceAt(r, text, start + i);
  }

  /** A slice of `text` from a mention of `key` on, long enough to hold it, begins with it. */
  lemma MatchStartsSlice(text: string, key: string, idx: nat, m: nat)
    requires MatchAt(Lower(text), Lower(key), idx) && |key| <= m && idx + m <= |text|
    ensures Lower(key) <= Lower(text[idx..idx + m])
  {
    var k := |key|;
    assert Lower(text)[idx..idx + k] == Lower(key);
    LowerSlice(text, idx, idx + m);
    assert Lower(text[idx..idx + m])[..k] == Lower(text)[idx..idx + k];
  }

  /**
   * When that paragraph is long enough, the snippet is its first 1200
   * characters, and the paragraph runs between blank lines around the mention.
   */
  lemma SnippetOfLongParagraph(markdown: string, personKeywords: string)
    requires Mentions(markdown, personKeywords)
    requires |Paragraph(markdown, MentionIndex(markdown, personKeywords))| >= 200
    ensures var idx := MentionIndex(markdown, personKeywords);
            var paragraph := Paragraph(markdown, idx);
            var r := ExtractPersonSnippet(markdown, personKeywords);
            r <= paragraph && |r| == Min(1200, |paragraph|)
            && ParagraphStart(markdown, idx) <= idx <= ParagraphEnd(markdown, idx)
  {
  }

  /** How the HTTP exchange with the scraping API ended. */
  datatype Exchange =
      /** `raise_for_status` or the transport raised an `httpx.HTTPError` */
    | HttpFailed(message: string)
      /** the body was not JSON: `r.json()` raised a `ValueError` */
    | NotJson(message: string)
    | Responded(body: Json)

  /** `not FIRECRAWL_API_KEY`: the variable is unset or empty. */
  predicate KeyMissing(apiKey: Option<string>) {
    apiKey.None? || apiKey.value == []
  }

  /** `d.get(k)` */
  function Get(d: map<string, Json>, k: string): Json {
    if k in d then d[k] else JNull
  }

  /** `a or b` */
  function Or(a: Json, b: Json): (r: Json)
    ensures Truthy(a) ==> r == a
    ensures !Truthy(a) ==> r == b
  {
    if Truthy(a) then a else b
  }

  /** The exception `d.get` raises when the decoded body is not a dict. */
  function NoGet(body: Json): Exc {
    OtherError("AttributeError", "'" + TypeName(body) + "' object has no attribute 'get'")
  }

  /**
   * `_fetch_about_markdown()`. `render` is Python's `str` of a decoded JSON
   * value, applied when the markdown field holds something else than a string.
   */
  function FetchAboutMarkdown(apiKey: Option<string>, exchange: Exchange, render: Json -> string): (r: Outcome<string>)
    ensures KeyMissing(apiKey) ==> r == Raise(ValueError(KEY_MISSING))
    ensures !KeyMissing(apiKey) && exchange.HttpFailed? ==> r == Raise(HttpError(exchange.message))
    ensures !KeyMissing(apiKey) && exchange.NotJson? ==> r == Raise(ValueError(exchange.message))
    ensures !KeyMissing(apiKey) && exchange.Responded? && !exchange.body.JObj? ==> r == Raise(NoGet(exchange.body))
    ensures r.Raise? ==> r.exc.ValueError? || r.exc.HttpError? || (exchange.Responded? && !exchange.body.JObj?)
    ensures (!KeyMissing(apiKey) && exchange.Responded? && exchange.body.JObj? &&
             Get(exchange.body.fields, "markdown").JStr? && Truthy(Get(exchange.body.fields, "markdown"))) ==>
              r == Return(Get(exchange.body.fields, "markdown").s)
    ensures (!KeyMissing(apiKey) && exchange.Responded? && exchange.body.JObj? &&
             !Truthy(Get(exchange.body.fields, "markdown")) &&
             Get(exchange.body.fields, "content").JStr? && Truthy(Get(exchange.body.fields, "content"))) ==>
              r == Return(Get(exchange.body.fields, "content").s)
    ensures (!KeyMissing(apiKey) && exchange.Responded? && exchange.body.JObj? &&
             !Truthy(Get(exchange.body.fields, "markdown")) && !Truthy(Get(exchange.body.fields, "content"))) ==>
              r == Return("")
    ensures (!KeyMissing(apiKey) && exchange.Responded? && exchange.body.JObj? &&
             !Get(exchange.body.fields, "markdown").JStr? && Truthy(Get(exchange.body.fields, "markdown"))) ==>
              r == Return(render(Get(exchange.body.fields, "markdown")))
    ensures (!KeyMissing(apiKey) && exchange.Responded? && exchange.body.JObj? &&
             !Truthy(Get(exchange.body.fields, "markdown")) &&
             !Get(exchange.body.fields, "content").JStr? && Truthy(Get(exchange.body.fields, "content"))) ==>
              r == Return(render(Get(exchange.body.fields, "content")))
  {
    if KeyMissing(apiKey) then Raise(ValueError(KEY_MISSING))
    else
      match exchange
      case HttpFailed(message) => Raise(HttpError(message))
      case NotJson(message) => Raise(ValueError(message))
      case Responded(body) =>
        if !body.JObj? then Raise(NoGet(body))
        else
          var md := Or(Or(Get(body.fields, "markdown"), Get(body.fields, "content")), JStr(""));
          Return(if md.JStr? then md.s else render(md))
  }

  /** `{**base, "about_markdown_snippet": snippet}` keeps every field of `base` and adds the snippet. */
  predicate Annotates(record: map<string, Json>, base: map<string, Json>, snippet: string) {
    record.Keys == base.Keys + {SNIPPET_KEY}
    && (forall k :: k in base ==> record[k] == base[k])
    && record[SNIPPET_KEY] == JStr(snippet)
  }

  function Annotated(base: map<string, Json>, snippet: string): (r: map<string, Json>)
    requires SNIPPET_KEY !in base
    ensures Annotates(r, base, snippet)
  {
    base[SNIPPET_KEY := JStr(snippet)]
  }

  lemma ProfilesHaveNoSnippet()
    ensures SNIPPET_KEY !in MIHADUL && SNIPPET_KEY !in SAZIB
  {
    assert MIHADUL.Keys == {"name", "role", "summary", "links"};
    assert SAZIB.Keys == {"name", "role", "summary", "links"};
  }

  /** The two exception classes the tools catch. */
  predicate Caught(e: Exc) {
    e.HttpError? || e.ValueError?
  }

  /**
   * The body shared by `sazib_info` and `mihadul_info`: the profile stored
   * under `name`, annotated with the snippet about `keywords` when the page was
   * fetched, and the bare profile when fetching raised a caught exception.
   */
  function InfoTool(name: string, keywords: string, fetched: Outcome<string>): (r: Outcome<Response>)
    requires name in HARD_CODED && SNIPPET_KEY !in HARD_CODED[name]
    ensures r.Return? <==> fetched.Return? || Caught(fetched.exc)
    ensures r.Return? ==> IsSuccess(r.value) && WellFormed(r.value) && r.value.data.value.JObj?
    ensures fetched.Return? ==>
              Annotates(r.value.data.value.fields, HARD_CODED[name], ExtractPersonSnippet(fetched.value, keywords))
    ensures fetched.Raise? && Caught(fetched.exc) ==> r == Return(Ok(JObj(HARD_CODED[name])))
    ensures fetched.Raise? && !Caught(fetched.exc) ==> r == Raise(fetched.exc)
  {
    var base := HARD_CODED[name];
    match fetched
    case Return(md) => Return(Ok(JObj(Annotated(base, ExtractPersonSnippet(md, keywords)))))
    case Raise(e) => if Caught(e) then Return(Ok(JObj(base))) else Raise(e)
  }

  /** `sazib_info()` */
  function SazibInfo(fetched: Outcome<string>): (r: Outcome<Response>)
    ensures r.Return? <==> fetched.Return? || Caught(fetched.exc)
    ensures r.Return? ==> IsSuccess(r.value) && WellFormed(r.value) && r.value.data.value.JObj?
    ensures fetched.Return? ==>
              Annotates(r.value.data.value.fields, SAZIB, ExtractPersonSnippet(fetched.value, "Abdullah Al Sazib"))
    ensures fetched.Raise? && Caught(fetched.exc) ==> r == Return(Ok(JObj(SAZIB)))
    ensures fetched.Raise? && !Caught(fetched.exc) ==> r == Raise(fetched.exc)
  {
    ProfilesHaveNoSnippet();
    InfoTool("abdullah al sazib", "Abdullah Al Sazib", fetched)
  }

  /** `mihadul_info()` */
  function MihadulInfo(fetched: Outcome<string>): (r: Outcome<Response>)
    ensures r.Return? <==> fetched.Return? || Caught(fetched.exc)
    ensures r.Return? ==> IsSuccess(r.value) && WellFormed(r.value) && r.value.data.value.JObj?
    ensures fetched.Return? ==>
              Annotates(r.value.data.value.fields, MIHADUL, ExtractPersonSnippet(fetched.value, "Mihadul Islam"))
    ensures fetched.Raise? && Caught(fetched.exc) ==> r == Return(Ok(JObj(MIHADUL)))
    ensures fetched.Raise? && !Caught(fetched.exc) ==> r == Raise(fetched.exc)
  {
    ProfilesHaveNoSnippet();
    InfoTool("mihadul islam", "Mihadul Islam", fetched)
  }

  lemma HardCodedEntries()
    ensures HARD_CODED["abdullah al sazib"] == SAZIB && HARD_CODED["mihadul islam"] == MIHADUL
  {
  }

  /** The data of a `dosibridge_people` success: the page and both annotated profiles. */
  function PeopleRecord(sazibSnippet: string, mihadulSnippet: string): (r: map<string, Json>)
    ensures r.Keys == {"source_url", "abdullah_al_sazib", "mihadul_islam"}
    ensures r["source_url"] == JStr(ABOUT_URL)
    ensures r["abdullah_al_sazib"] == JObj(SAZIB[SNIPPET_KEY := JStr(sazibSnippet)])
    ensures r["mihadul_islam"] == JObj(MIHADUL[SNIPPET_KEY := JStr(mihadulSnippet)])
  {
    HardCodedEntries();
    ProfilesHaveNoSnippet();
    map[
      "source_url" := JStr(ABOUT_URL),
      "abdullah_al_sazib" := JObj(Annotated(HARD_CODED["abdullah al sazib"], sazibSnippet)),
      "mihadul_islam" := JObj(Annotated(HARD_CODED["mihadul islam"], mihadulSnippet))
    ]
  }

  /** `dosibridge_people()` */
  function DosibridgePeople(fetched: Outcome<string>): (r: Outcome<Response>)
    ensures r.Return? <==> fetched.Return? || Caught(fetched.exc)
    ensures r.Return? ==> WellFormed(r.value) && (IsSuccess(r.value) <==> fetched.Return?)
    ensures fetched.Return? ==>
              r.value.data.value.JObj? && r.value.data.value.fields.Keys == {"source_url", "abdullah_al_sazib", "mihadul_islam"}
              && r.value.data.value.fields["source_url"] == JStr(ABOUT_URL)
    ensures fetched.Raise? && fetched.exc.HttpError? ==> r == Return(Err(fetched.exc.msg, HTTP_ERROR))
    ensures fetched.Raise? && fetched.exc.ValueError? ==> r == Return(Err(fetched.exc.msg, CONFIG_ERROR))
  {
    match fetched
    case Return(md) =>
      Return(Ok(JObj(PeopleRecord(ExtractPersonSnippet(md, "Abdullah Al Sazib"), ExtractPersonSnippet(md, "Mihadul Islam")))))
    case Raise(e) =>
      if e.HttpError? then Return(Err(e.Str(), HTTP_ERROR))
      else if e.ValueError? then Return(Err(e.Str(), CONFIG_ERROR))
      else Raise(e)
  }

  /** `about_page_crawl()`: the decoded JSON reply, or the whole reply, under "markdown". */
  function AboutPageCrawl(apiKey: Option<string>, exchange: Exchange): (r: Outcome<Response>)
    ensures KeyMissing(apiKey) ==> r == Return(Err(KEY_MISSING, CONFIG_ERROR))
    ensures !KeyMissing(apiKey) && exchange.HttpFailed? ==> r == Return(Err(exchange.message, HTTP_ERROR))
    ensures !KeyMissing(apiKey) && exchange.NotJson? ==> r == Raise(ValueError(exchange.message))
    ensures !KeyMissing(apiKey) && exchange.Responded? && !exchange.body.JObj? ==> r == Raise(NoGet(exchange.body))
    ensures r.Return? ==> WellFormed(r.value)
    ensures r.Return? && IsSuccess(r.value) ==>
              exchange.Responded? && exchange.body.JObj? && r.value.data.value.JObj?
              && r.value.data.value.fields.Keys == {"url", "markdown"}
              && r.value.data.value.fields["url"] == JStr(ABOUT_URL)
    ensures (!KeyMissing(apiKey) && exchange.Responded? && exchange.body.JObj? &&
             Truthy(Get(exchange.body.fields, "markdown"))) ==>
              r == Return(Ok(JObj(map["url" := JStr(ABOUT_URL), "markdown" := Get(exchange.body.fields, "markdown")])))
    ensures (!KeyMissing(apiKey) && exchange.Responded? && exchange.body.JObj? &&
             !Truthy(Get(exchange.body.fields, "markdown")) && Truthy(Get(exchange.body.fields, "content"))) ==>
              r == Return(Ok(JObj(map["url" := JStr(ABOUT_URL), "markdown" := Get(exchange.body.fields, "content")])))
    ensures (!KeyMissing(apiKey) && exchange.Responded? && exchange.body.JObj? &&
             !Truthy(Get(exchange.body.fields, "markdown")) && !Truthy(Get(exchange.body.fields, "content"))) ==>
              r == Return(Ok(JObj(map["url" := JStr(ABOUT_URL), "markdown" := exchange.body])))
  {
    if KeyMissing(apiKey) then Return(Err(KEY_MISSING, CONFIG_ERROR))
    else
      match exchange
      case HttpFailed(message) => Return(Err(message, HTTP_ERROR))
      case NotJson(message) => Raise(ValueError(message))
      case Responded(body) =>
        if !body.JObj? then Raise(NoGet(body))
        else
          var md := Or(Or(Get(body.fields, "markdown"), Get(body.fields, "content")), body);
          Return(Ok(JObj(map["url" := JStr(ABOUT_URL), "markdown" := md])))
  }

  /**
   * Without an API key nothing is fetched: the info tools fall back to the
   * bare profiles, and the other two tools report a configuration error.
   */
  lemma NoKeyBehaviour(exchange: Exchange, render: Json -> string)
    ensures SazibInfo(FetchAboutMarkdown(None, exchange, render)) == Return(Ok(JObj(SAZIB)))
    ensures MihadulInfo(FetchAboutMarkdown(Some(""), exchange, render)) == Return(Ok(JObj(MIHADUL)))
    ensures DosibridgePeople(FetchAboutMarkdown(None, exchange, render)) == Return(Err(KEY_MISSING, CONFIG_ERROR))
    ensures AboutPageCrawl(None, exchange) == Return(Err(KEY_MISSING, CONFIG_ERROR))
  {
  }

  /** A failed HTTP exchange is hidden by the info tools and reported by `dosibridge_people`. */
  lemma HttpFailureBehaviour(apiKey: string, message: string, render: Json -> string)
    requires apiKey != []
    ensures SazibInfo(FetchAboutMarkdown(Some(apiKey), HttpFailed(message), render)) == Return(Ok(JObj(SAZIB)))
    ensures MihadulInfo(FetchAboutMarkdown(Some(apiKey), HttpFailed(message), render)) == Return(Ok(JObj(MIHADUL)))
    ensures DosibridgePeople(FetchAboutMarkdown(Some(apiKey), HttpFailed(message), render)) == Return(Err(message, HTTP_ERROR))
  {
  }

  /**
   * On the same fetched page, `dosibridge_people` reports each person exactly
   * as that person's own info tool does.
   */
  lemma PeopleAgreesWithInfoTools(markdown: string)
    ensures var people := DosibridgePeople(Return(markdown)).value.data.value.fields;
            people["abdullah_al_sazib"] == SazibInfo(Return(markdown)).value.data.value
            && people["mihadul_islam"] == MihadulInfo(Return(markdown)).value.data.value
  {
    ProfilesHaveNoSnippet();
    var sazib := SazibInfo(Return(markdown)).value.data.value.fields;
    var mihadul := MihadulInfo(Return(markdown)).value.data.value.fields;
    AnnotatesOnly(sazib, SAZIB, ExtractPersonSnippet(markdown, "Abdullah Al Sazib"));
    AnnotatesOnly(mihadul, MIHADUL, ExtractPersonSnippet(markdown, "Mihadul Islam"));
  }

  /** A profile annotated with a snippet is determined by the profile and the snippet. */
  lemma AnnotatesOnly(record: map<string, Json>, base: map<string, Json>, snippet: string)
    requires Annotates(record, base, snippet)
    ensures record == base[SNIPPET_KEY := JStr(snippet)]
  {
  }
}
