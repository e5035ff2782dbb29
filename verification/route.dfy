/**
 * The `POST` handler of src/app/api/parse-recipe/route.ts as a decision over
 * the outcomes of what it calls: reading the request body, URL parsing, the
 * page scraper and the two AI extractors. Each of those is given as an
 * outcome, so the handler is a pure function; its result also records
 * whether the scraper ran and which extractors were called, in order.
 */
module ParseRoute {
  import opened Optional
  import opened Text
  import opened Json
  import opened Recipe
  import Scraper

  /** What a call does: return a value, or throw; a thrown `Error` carries its message, anything else thrown has none. */
  datatype Outcome<T> = Returned(value: T) | Threw(message: Option<string>)

  datatype Provider = Gemini | Claude

  /** The `source` field of a successful response. */
  datatype Source = FromStructuredData | FromProvider(provider: Provider)

  datatype Response =
    | Success(recipe: ParsedRecipe, source: Source)
    | Failure(status: nat, error: string)

  /**
   * The handler's collaborators. `nullBodyError` is the message of the
   * `TypeError` that destructuring `{ url }` out of a `null` body throws.
   */
  datatype Env = Env(
    nullBodyError: string,
    validUrl: string -> bool,
    scrape: string -> Outcome<ScrapeResult>,
    gemini: (string, string) -> Outcome<ParsedRecipe>,
    claude: (string, string) -> Outcome<ParsedRecipe>)

  /** The response, whether the scraper was called, and the extractors called in order. */
  datatype Handled = Handled(response: Response, scraped: bool, providers: seq<Provider>)

  const MissingUrl := "Missing or invalid URL"
  const BadUrlFormat := "Invalid URL format"
  const NoContent := "Could not extract content from this page"
  const NoRecipe := "No recipe found on this page. Try a direct link to a recipe."
  const Unreachable := "Could not reach that URL. Check the link and try again."
  const DefaultError := "Failed to parse recipe"
  const FetchMarker := "Failed to fetch page"

  /** Raw page text shorter than this is not sent to an extractor. */
  const MinContent := 50

  /** The `catch` block: a page that could not be fetched is 422, anything else is 500 with the thrown message. */
  function Caught(message: Option<string>): (r: Response)
    ensures r.Failure? && (r.status == 422 || r.status == 500)
    ensures r.status == 422 <==> message.Some? && Contains(message.value, FetchMarker)
    ensures r.status == 422 ==> r.error == Unreachable
    ensures r.status == 500 ==> r.error == (if message.Some? then message.value else DefaultError)
  {
    var m := match message case Some(s) => s case None => DefaultError;
    DefaultErrorIsNotFetch();
    if Contains(m, FetchMarker) then Failure(422, Unreachable) else Failure(500, m)
  }

  /** The fallback message does not look like a fetch failure. */
  lemma DefaultErrorIsNotFetch()
    ensures !Contains(DefaultError, FetchMarker)
  {
    var m, marker := DefaultError, FetchMarker;
    assert m[10] != marker[10];
    assert !OccursAt(m, marker, 0);
    assert m[11] != marker[10];
    assert !OccursAt(m, marker, 1);
    assert m[12] != marker[10];
    assert !OccursAt(m, marker, 2);
  }

  /** `const { url } = body`: destructuring `null` throws; any other non-object has no `url`. */
  function UrlField(env: Env, body: Json): (r: Outcome<Option<Json>>)
    ensures r.Threw? <==> body.Null?
    ensures body.Obj? ==> r == Returned(Get(body.fields, "url"))
    ensures !body.Obj? && !body.Null? ==> r == Returned(None)
  {
    match body
    case Null => Threw(Some(env.nullBodyError))
    case Obj(fields) => Returned(Get(fields, "url"))
    case _ => Returned(None)
  }

  /** `!url || typeof url !== "string"` fails exactly for everything but a non-empty string. */
  predicate UsableUrl(url: Option<Json>) {
    !Falsy(url) && url.Some? && url.value.Str?
  }

  /** The test lets through exactly the non-empty strings. */
  lemma UsableUrlIff(url: Option<Json>)
    ensures UsableUrl(url) <==> url.Some? && url.value.Str? && url.value.s != ""
  {
  }

  /** The handler's test of an extractor's result: a title, some ingredients and some instructions. */
  predicate Accepted(recipe: ParsedRecipe) {
    recipe.title != "" && |recipe.ingredients| > 0 && |recipe.instructions| > 0
  }

  /** Gemini first; Claude only when Gemini throws. Returns the outcome with its provider, and the providers called. */
  function Extract(env: Env, content: string, url: string): (r: (Outcome<(ParsedRecipe, Provider)>, seq<Provider>))
    ensures r.1 == [Gemini] || r.1 == [Gemini, Claude]
    ensures r.1 == [Gemini, Claude] <==> env.gemini(content, url).Threw?
    ensures r.0.Returned? ==> r.0.value.1 == r.1[|r.1| - 1]
    ensures r.0.Returned? && r.0.value.1 == Gemini ==> env.gemini(content, url) == Returned(r.0.value.0)
    ensures r.0.Returned? && r.0.value.1 == Claude ==> env.claude(content, url) == Returned(r.0.value.0)
    ensures r.0.Threw? ==> env.gemini(content, url).Threw? && env.claude(content, url) == Threw(r.0.message)
  {
    match env.gemini(content, url)
    case Returned(recipe) => (Returned((recipe, Gemini)), [Gemini])
    case Threw(_) =>
      match env.claude(content, url)
      case Returned(recipe) => (Returned((recipe, Claude)), [Gemini, Claude])
      case Threw(m) => (Threw(m), [Gemini, Claude])
  }

  /** The handler once the URL is known to be a valid one. */
  function HandleUrl(env: Env, url: string): (h: Handled)
    ensures h.scraped
    ensures h.response.Success? && h.response.source.FromProvider? ==>
      Accepted(h.response.recipe) && |h.providers| > 0 && h.response.source.provider == h.providers[|h.providers| - 1]
    ensures h.response.Success? && h.response.source == FromStructuredData ==>
      env.scrape(url) == Returned(Structured(h.response.recipe)) && h.providers == []
  {
    match env.scrape(url)
    case Threw(m) => Handled(Caught(m), true, [])
    case Returned(Structured(recipe)) => Handled(Success(recipe, FromStructuredData), true, [])
    case Returned(Raw(content)) =>
      if |content| < MinContent then Handled(Failure(422, NoContent), true, [])
      else
        var (outcome, called) := Extract(env, content, url);
        match outcome
        case Threw(m) => Handled(Caught(m), true, called)
        case Returned((recipe, provider)) =>
          if Accepted(recipe) then Handled(Success(recipe, FromProvider(provider)), true, called)
          else Handled(Failure(422, NoRecipe), true, called)
  }

  /** `POST(req)`, given what reading the request body does. */
  function Post(env: Env, body: Outcome<Json>): (h: Handled)
    ensures h.response.Failure? && h.response.status == 400 ==> !h.scraped && h.providers == []
    ensures h.providers == [] || h.providers == [Gemini] || h.providers == [Gemini, Claude]
    ensures h.providers != [] ==> h.scraped
    ensures h.response.Success? ==> h.scraped
    ensures h.response.Success? && h.response.source.FromProvider? ==> Accepted(h.response.recipe)
  {
    match body
    case Threw(m) => Handled(Caught(m), false, [])
    case Returned(v) =>
      match UrlField(env, v)
      case Threw(m) => Handled(Caught(m), false, [])
      case Returned(url) =>
        if !UsableUrl(url) then Handled(Failure(400, MissingUrl), false, [])
        else if !env.validUrl(url.value.s) then Handled(Failure(400, BadUrlFormat), false, [])
        else HandleUrl(env, url.value.s)
  }

  // ---------------------------------------------------------------------
  // Properties

  /** The body's `url` as the handler reads it, when reading the body and destructuring both succeed. */
  predicate UrlIs(env: Env, body: Outcome<Json>, url: Option<Json>) {
    body.Returned? && UrlField(env, body.value) == Returned(url)
  }

  /** A missing, empty or non-string `url` is 400 "Missing or invalid URL", and nothing is called. */
  lemma MissingUrlRejected(env: Env, body: Outcome<Json>, url: Option<Json>)
    requires UrlIs(env, body, url)
    ensures Post(env, body).response == Failure(400, MissingUrl) <==> !UsableUrl(url)
    ensures !UsableUrl(url) ==> !Post(env, body).scraped && Post(env, body).providers == []
  {
  }

  /** A string that does not parse as a URL is 400 "Invalid URL format", and nothing is called. */
  lemma BadUrlRejected(env: Env, body: Outcome<Json>, url: Option<Json>)
    requires UrlIs(env, body, url) && UsableUrl(url)
    ensures Post(env, body).response == Failure(400, BadUrlFormat) <==> !env.validUrl(url.value.s)
    ensures !env.validUrl(url.value.s) ==> !Post(env, body).scraped && Post(env, body).providers == []
  {
  }

  /** Past URL checks, the handler is `HandleUrl`: the scraper runs on exactly that URL. */
  lemma ValidUrlScrapes(env: Env, body: Outcome<Json>, url: Option<Json>)
    requires UrlIs(env, body, url) && UsableUrl(url) && env.validUrl(url.value.s)
    ensures Post(env, body) == HandleUrl(env, url.value.s)
  {
  }

  /** A structured scrape result is returned as it is, with source "structured", and no extractor runs. */
  lemma StructuredReturnedDirectly(env: Env, url: string, recipe: ParsedRecipe)
    requires env.scrape(url) == Returned(Structured(recipe))
    ensures HandleUrl(env, url) == Handled(Success(recipe, FromStructuredData), true, [])
  {
  }

  /** Raw text under 50 characters (the empty text included) is 422 with no extractor called. */
  lemma ShortContentRejected(env: Env, url: string, content: string)
    requires env.scrape(url) == Returned(Raw(content)) && |content| < MinContent
    ensures HandleUrl(env, url) == Handled(Failure(422, NoContent), true, [])
  {
  }

  /**
   * With enough raw text, Gemini is always tried first and Claude exactly
   * when Gemini throws; a success names the extractor whose result it
   * returns, and a result without title, ingredients or instructions is 422.
   */
  lemma ExtractorsInOrder(env: Env, url: string, content: string)
    requires env.scrape(url) == Returned(Raw(content)) && |content| >= MinContent
    ensures var h := HandleUrl(env, url);
      && h.providers[0] == Gemini
      && (Claude in h.providers <==> env.gemini(content, url).Threw?)
      && (env.gemini(content, url).Returned? ==>
            var recipe := env.gemini(content, url).value;
            h.response == if Accepted(recipe) then Success(recipe, FromProvider(Gemini)) else Failure(422, NoRecipe))
      && (env.gemini(content, url).Threw? && env.claude(content, url).Returned? ==>
            var recipe := env.claude(content, url).value;
            h.response == if Accepted(recipe) then Success(recipe, FromProvider(Claude)) else Failure(422, NoRecipe))
      && (env.gemini(content, url).Threw? && env.claude(content, url).Threw? ==>
            h.response == Caught(env.claude(content, url).message))
  {
  }

  /** A page the scraper could not fetch is reported as unreachable (422), whatever the HTTP status. */
  lemma FetchFailureUnreachable(env: Env, url: string, status: nat, statusText: string)
    requires env.scrape(url) == Threw(Some(Scraper.FetchFailure(status, statusText)))
    ensures HandleUrl(env, url).response == Failure(422, Unreachable)
    ensures HandleUrl(env, url).providers == []
  {
    var m := Scraper.FetchFailure(status, statusText);
    assert OccursAt(m, FetchMarker, 0) by {
      assert m[..20] == FetchMarker;
    }
  }

  /** Any other error, a failing Claude call included, is 500 with its message. */
  lemma OtherErrorsAre500(message: string)
    requires !Contains(message, FetchMarker)
    ensures Caught(Some(message)) == Failure(500, message)
  {
  }
}
