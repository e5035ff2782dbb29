/**
 * The page side of src/lib/scraper.ts: the streamed read loop of
 * `scrapeRecipePage`, the early structured-data attempt `tryExtractStructured`,
 * the raw-text fallback `extractRawContent` and `truncateContent`.
 *
 * The network is reduced to the sequence of decoded text chunks the body
 * delivers. The HTML parser and `JSON.parse` are the collaborators in `Env`.
 */
module Scraper {
  import opened Optional
  import opened Text
  import opened Json
  import opened TextCleaning
  import opened Recipe
  import opened JsonLd
  import opened ChunkedRead

  /**
   * What the scraper asks of the HTML parser and the JSON reader.
   * - `decode`: HTML entity decoding inside `cleanText`.
   * - `ldJsonScripts(html)`: the texts of the `script[type="application/ld+json"]` elements, in document order.
   * - `parseJson(text)`: `JSON.parse`; `None` when it throws.
   * - `stringify(v)`: `JSON.stringify(v, null, 2)`.
   * - `firstText(html, selector)`: the text of the first element matching `selector`, once scripts, styles,
   *   navigation, headers, footers, asides, frames, SVG and advertising blocks are removed; `None` when none matches.
   * - `bodyText(html)`: the text of `body` after the same removal.
   */
  datatype Env = Env(
    decode: string -> string,
    ldJsonScripts: string -> seq<string>,
    parseJson: string -> Option<Json>,
    stringify: Json -> string,
    firstText: (string, string) -> Option<string>,
    bodyText: string -> string)

  const Marker := "application/ld+json"
  const ScriptClose := "</script>"
  const TruncationNote := "\n[content truncated]"
  const MaxContent := 6000
  const RegionMinimum := 200

  /** The regions tried for raw text, most specific first. */
  const Selectors: seq<string> := ["[itemtype*=\"Recipe\"]", ".recipe", "#recipe", "[class*=\"recipe\"]", "article", "main"]

  /** The message of the error thrown when the page answers with a non-success status. */
  function FetchFailure(status: nat, statusText: string): (m: string)
    ensures |m| >= 20 && m[..20] == "Failed to fetch page"
  {
    "Failed to fetch page: " + NatToString(status) + " " + statusText
  }

  // ---------------------------------------------------------------------
  // truncateContent

  /** `truncateContent(text)` with the default cap of 6000 characters. */
  function TruncateContent(text: string): (r: string)
    ensures |text| <= MaxContent ==> r == text
    ensures |text| > MaxContent ==> |r| == MaxContent + |TruncationNote| && r[..MaxContent] == text[..MaxContent] && r[MaxContent..] == TruncationNote
  {
    if |text| <= MaxContent then text else text[..MaxContent] + TruncationNote
  }

  /**
   * The text comes back unchanged exactly when it is within the cap or
   * already looks like a truncated text.
   */
  lemma TruncateFixedPoints(text: string)
    ensures TruncateContent(text) == text <==>
      |text| <= MaxContent || (|text| == MaxContent + |TruncationNote| && text[MaxContent..] == TruncationNote)
  {
    if |text| > MaxContent {
      var r := TruncateContent(text);
      if r == text {
        assert text[MaxContent..] == r[MaxContent..];
      }
      if |text| == MaxContent + |TruncationNote| && text[MaxContent..] == TruncationNote {
        assert text == text[..MaxContent] + text[MaxContent..];
      }
    }
  }

  /** The result never exceeds the cap plus the note, and always begins with as much of the text as fits. */
  lemma TruncateBounds(text: string)
    ensures |TruncateContent(text)| <= MaxContent + |TruncationNote|
    ensures var n := if |text| <= MaxContent then |text| else MaxContent;
      TruncateContent(text)[..n] == text[..n]
  {
  }

  // ---------------------------------------------------------------------
  // extractRawContent

  /** The cleaned text of the first element matching `selector`, if any. */
  function RegionText(env: Env, html: string, selector: string): Option<string> {
    match env.firstText(html, selector)
    case Some(t) => Some(CleanText(env.decode, t))
    case None => None
  }

  /** A region is used when its cleaned text is longer than 200 characters. */
  predicate Long(text: Option<string>) {
    text.Some? && |text.value| > RegionMinimum
  }

  /** The cleaned region texts, one per selector. */
  function RegionTexts(env: Env, html: string, selectors: seq<string>): (r: seq<Option<string>>)
    ensures |r| == |selectors|
    ensures forall k :: 0 <= k < |r| ==> r[k] == RegionText(env, html, selectors[k])
  {
    if |selectors| == 0 then []
    else [RegionText(env, html, selectors[0])] + RegionTexts(env, html, selectors[1..])
  }

  /** The index of the first long region. */
  function FirstLong(texts: seq<Option<string>>, from: nat): (r: Option<nat>)
    requires from <= |texts|
    ensures r.Some? ==> from <= r.value < |texts| && Long(texts[r.value])
    ensures r.Some? ==> forall j :: from <= j < r.value ==> !Long(texts[j])
    ensures r.None? ==> forall j :: from <= j < |texts| ==> !Long(texts[j])
    decreases |texts| - from
  {
    if from == |texts| then None
    else if Long(texts[from]) then Some(from)
    else FirstLong(texts, from + 1)
  }

  /** The raw text from the regions named by `selectors`, or from the body. */
  function ExtractFrom(env: Env, html: string, selectors: seq<string>): (r: string)
    ensures |r| <= MaxContent + |TruncationNote|
  {
    var texts := RegionTexts(env, html, selectors);
    var text :=
      match FirstLong(texts, 0)
      case Some(k) => texts[k].value
      case None => CleanText(env.decode, env.bodyText(html));
    TruncateBounds(text);
    TruncateContent(text)
  }

  /** `extractRawContent(html, url)`: the content of the `raw` result it always gives. */
  function ExtractRawContent(env: Env, html: string): (r: string)
    ensures |r| <= MaxContent + |TruncationNote|
  {
    ExtractFrom(env, html, Selectors)
  }

  /** The first region, in selector order, whose cleaned text is longer than 200 characters is used. */
  lemma RawFromFirstLongRegion(env: Env, html: string, selectors: seq<string>, k: nat)
    requires k < |selectors| && Long(RegionText(env, html, selectors[k]))
    requires forall j :: 0 <= j < k ==> !Long(RegionText(env, html, selectors[j]))
    ensures ExtractFrom(env, html, selectors) == TruncateContent(CleanText(env.decode, env.firstText(html, selectors[k]).value))
  {
    var texts := RegionTexts(env, html, selectors);
    FirstLongIs(texts, k);
  }

  lemma FirstLongIs(texts: seq<Option<string>>, k: nat)
    requires k < |texts| && Long(texts[k])
    requires forall j :: 0 <= j < k ==> !Long(texts[j])
    ensures FirstLong(texts, 0) == Some(k)
  {
    var f := FirstLong(texts, 0);
    assert f.Some?;
  }

  /** With no region long enough, the body's cleaned text is used. */
  lemma RawFromBody(env: Env, html: string, selectors: seq<string>)
    requires forall j :: 0 <= j < |selectors| ==> !Long(RegionText(env, html, selectors[j]))
    ensures ExtractFrom(env, html, selectors) == TruncateContent(CleanText(env.decode, env.bodyText(html)))
  {
    var texts := RegionTexts(env, html, selectors);
    assert FirstLong(texts, 0).None?;
  }

  // ---------------------------------------------------------------------
  // tryExtractStructured

  /** The script tag is complete: the marker occurs and a closing tag follows its first occurrence. */
  predicate TagComplete(html: string) {
    match IndexOf(html, Marker, 0)
    case Some(start) => IndexOf(html, ScriptClose, start).Some?
    case None => false
  }

  /** The recipe nodes found in one script's text; a script that does not parse contributes none. */
  function ScriptRecipes(env: Env, script: string): (r: seq<Json>)
    ensures forall k :: 0 <= k < |r| ==> IsRecipeNode(r[k])
  {
    match env.parseJson(script)
    case Some(data) => FindRecipeObjects(data)
    case None => []
  }

  /** The index of the first script, at or after `from`, that holds a recipe node. */
  function FirstFound(env: Env, scripts: seq<string>, from: nat): (r: Option<nat>)
    requires from <= |scripts|
    ensures r.Some? ==> from <= r.value < |scripts| && |ScriptRecipes(env, scripts[r.value])| > 0
    ensures r.Some? ==> forall j :: from <= j < r.value ==> ScriptRecipes(env, scripts[j]) == []
    ensures r.None? ==> forall j :: from <= j < |scripts| ==> ScriptRecipes(env, scripts[j]) == []
    decreases |scripts| - from
  {
    if from == |scripts| then None
    else if |ScriptRecipes(env, scripts[from])| > 0 then Some(from)
    else FirstFound(env, scripts, from + 1)
  }

  /** The first recipe node of the first script that has one. */
  function FirstRecipe(env: Env, scripts: seq<string>): (r: Option<seq<(string, Json)>>)
    ensures r.None? <==> forall k :: 0 <= k < |scripts| ==> ScriptRecipes(env, scripts[k]) == []
  {
    match FirstFound(env, scripts, 0)
    case Some(k) => Some(ScriptRecipes(env, scripts[k])[0].fields)
    case None => None
  }

  /** The script that yields the node is the first one holding any recipe node, and the node is the first it holds. */
  lemma FirstRecipeIs(env: Env, scripts: seq<string>, k: nat)
    requires k < |scripts| && |ScriptRecipes(env, scripts[k])| > 0
    requires forall j :: 0 <= j < k ==> ScriptRecipes(env, scripts[j]) == []
    ensures FirstRecipe(env, scripts) == Some(ScriptRecipes(env, scripts[k])[0].fields)
  {
    var f := FirstFound(env, scripts, 0);
    assert f == Some(k);
  }

  /** What a found recipe node becomes: a mapped recipe, or its JSON text when it does not map. */
  function FromRecipeNode(env: Env, data: seq<(string, Json)>, url: string): (r: ScrapeResult)
    ensures r.Structured? <==> MapJsonLdToRecipe(env.decode, data, url).Some?
    ensures r.Structured? ==> r.recipe.source == url && r.recipe.title != ""
    ensures r.Structured? ==> r.recipe == MapJsonLdToRecipe(env.decode, data, url).value
    ensures r.Raw? ==> r.content == env.stringify(Obj(data))
  {
    match MapJsonLdToRecipe(env.decode, data, url)
    case Some(recipe) => Structured(recipe)
    case None => Raw(env.stringify(Obj(data)))
  }

  /**
   * `tryExtractStructured(html, url)`: `None` (the source's `null`) until the
   * tag is complete and some script holds a recipe node.
   */
  function TryExtractStructured(env: Env, html: string, url: string): (r: Option<ScrapeResult>)
    ensures r.Some? <==> TagComplete(html) && FirstRecipe(env, env.ldJsonScripts(html)).Some?
    ensures r.Some? ==> r.value == FromRecipeNode(env, FirstRecipe(env, env.ldJsonScripts(html)).value, url)
  {
    if !TagComplete(html) then None
    else
      match FirstRecipe(env, env.ldJsonScripts(html))
      case None => None
      case Some(data) => Some(FromRecipeNode(env, data, url))
  }

  /** Completeness read without `indexOf`: some marker has a closing tag at or after it. */
  lemma TagCompleteMeans(html: string)
    ensures TagComplete(html) <==>
      exists i: nat, j: nat :: i <= j && OccursAt(html, Marker, i) && OccursAt(html, ScriptClose, j)
  {
    match IndexOf(html, Marker, 0)
    case Some(start) =>
      if exists i: nat, j: nat :: i <= j && OccursAt(html, Marker, i) && OccursAt(html, ScriptClose, j) {
        var i: nat, j: nat :| i <= j && OccursAt(html, Marker, i) && OccursAt(html, ScriptClose, j);
        assert start <= i;
        assert IndexOf(html, ScriptClose, start).Some?;
      }
      if TagComplete(html) {
        var j := IndexOf(html, ScriptClose, start).value;
        assert OccursAt(html, Marker, start) && OccursAt(html, ScriptClose, j);
      }
    case None =>
  }

  // ---------------------------------------------------------------------
  // The read loop of scrapeRecipePage

  /** One loop step's attempt: the cheap marker test, then the structured extraction. */
  function Attempt(env: Env, url: string, buffer: string): (r: Option<ScrapeResult>)
    ensures r.Some? ==> Contains(buffer, Marker) && r == TryExtractStructured(env, buffer, url)
  {
    if Contains(buffer, Marker) then TryExtractStructured(env, buffer, url) else None
  }

  /** `r` is the raw content of `buffer`, or the structured extraction from it. */
  predicate EndsOnBuffer(env: Env, url: string, buffer: string, r: ScrapeResult) {
    r == Raw(ExtractRawContent(env, buffer)) || Attempt(env, url, buffer) == Some(r)
  }

  /** `scrapeRecipePage(url)` once the page has answered with `chunks`. */
  function Scrape(env: Env, chunks: seq<string>, url: string): (r: ScrapeResult)
    ensures exists j :: 0 <= j <= |chunks| && EndsOnBuffer(env, url, Concat(chunks[..j]), r)
  {
    Read(b => Attempt(env, url, b), b => Raw(ExtractRawContent(env, b)), chunks)
  }

  /** A structured result only comes from a buffer that holds a complete script tag and a recipe that maps. */
  lemma StructuredNeedsMarker(env: Env, chunks: seq<string>, url: string)
    requires Scrape(env, chunks, url).Structured?
    ensures exists j :: 0 <= j <= |chunks| && Contains(Concat(chunks[..j]), Marker) && TagComplete(Concat(chunks[..j]))
  {
    var attempt := b => Attempt(env, url, b);
    var fallback := b => Raw(ExtractRawContent(env, b));
    ReadOutcome(attempt, fallback, chunks, 0, "");
    var j :| 0 <= j <= |chunks| && (Scrape(env, chunks, url) == fallback("" + Concat(chunks[0..j]))
      || (attempt("" + Concat(chunks[0..j])).Some? && Scrape(env, chunks, url) == attempt("" + Concat(chunks[0..j])).value));
    assert chunks[0..j] == chunks[..j];
    assert "" + Concat(chunks[..j]) == Concat(chunks[..j]);
  }

  /** The loop as the program runs it. */
  method ScrapeStream(env: Env, chunks: seq<string>, url: string) returns (r: ScrapeResult, read: nat)
    ensures r == Scrape(env, chunks, url)
    ensures read < |chunks| ==> 0 < read && (Attempt(env, url, Concat(chunks[..read])).Some? || |Concat(chunks[..read])| > MaxBuffer)
  {
    r, read := ReadStream(b => Attempt(env, url, b), b => Raw(ExtractRawContent(env, b)), chunks);
  }
}
