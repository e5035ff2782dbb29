# recipe-lab-ai: the recipe acquisition core in Dafny

This project models how recipe-lab-ai turns a recipe page URL into a
structured recipe, and proves properties of that model.

- **The page scraper** (src/lib/scraper.ts):
  - the streamed read loop of `scrapeRecipePage`, with its early structured-data attempt and the 500000-character cap;
  - `tryExtractStructured` and `findRecipeObjects`;
  - `mapJsonLdToRecipe`, with `parseIngredients`, `parseIngredientString`, `parseInstructions`, `parseDuration`, `parseServings`, `asString` and `cleanText`;
  - the raw-text fallback `extractRawContent` and `truncateContent`.
- **Timer detection and display** (src/lib/timer-utils.ts): `toSeconds`, `buildLabel`, `detectTimer` and `formatTime`.
- **The step-ingredient mapping** (src/lib/ai/gemini.ts):
  - the length guard on `stepIngredients`;
  - `mapStepIngredients`, which rebuilds step entries from 1-based indices;
  - `formatIngredientString`, and its two copies in the components.
- **The `POST` handler of the parse-recipe route** (src/app/api/parse-recipe/route.ts): URL checks, the scraper call, the Gemini-then-Claude fallback, the test that an extractor's result holds a recipe, and the error mapping of the `catch` block.

Everything is pure functions over immutable datatypes. Some things the program gets from elsewhere:

- the network, as the sequence of decoded text chunks the response body delivers;
- the HTML parser (cheerio), `JSON.parse`, `JSON.stringify` and entity decoding;
- the URL constructor;
- the AI extractors.

Each of these becomes a function-valued field of an `Env` datatype, or an outcome passed in.

Each regular expression is written out as an explicit matcher:

- `parseIngredientString`'s pattern is a backtracking search that tries the alternatives in the source's order. A direct reference definition covers cleaned lines, and a lemma proves the two agree.
- The duration and timer patterns are modelled as a leftmost search (`Text.Search`) of a deterministic matcher. Where backtracking cannot change a match, the module comments say why.

Modules, in dependency order:

| file | module | models |
|---|---|---|
| text.dfy | `Optional`, `Text` | `Option`; white space, `trim`, digits, `indexOf`, `split`/`join`, number rendering, leftmost regex search |
| json.dfy | `Json` | parsed JSON values, property lookup, `String(v)` |
| clean.dfy | `TextCleaning` | `cleanText` |
| recipe.dfy | `Recipe` | `Ingredient`, `StepIngredient`, `ParsedRecipe`, `ScrapeResult` |
| ingredient.dfy | `IngredientLine`, `IngredientQuirks` | `parseIngredientString`, and two lines it splits surprisingly |
| duration.dfy | `Duration` | `parseDuration` |
| jsonld.dfy | `JsonLd` | `findRecipeObjects`, `asString`, `parseServings`, `parseIngredients`, `parseInstructions`, `mapJsonLdToRecipe` |
| readloop.dfy | `ChunkedRead` | the read loop of `scrapeRecipePage` |
| scraper.dfy | `Scraper` | `tryExtractStructured`, `extractRawContent`, `truncateContent`, `scrapeRecipePage` |
| timer.dfy | `Timer` | `toSeconds`, `buildLabel`, `detectTimer`, `formatTime` |
| stepmap.dfy | `StepMap` | `formatIngredientString`, the `stepIngredients` guard, `mapStepIngredients` |
| route.dfy | `ParseRoute` | `POST` of the parse-recipe route |

## Model

| member | source | states |
|---|---|---|
| Text.Trim | src/lib/scraper.ts:257 | the result has no white space at either end |
| Text.TrimIsSlice | src/lib/scraper.ts:257 | `trim` removes only white space: its result is a contiguous slice of the input with only white space before and after it |
| Text.TrimSurrounded | src/lib/scraper.ts:257 | trimming white space wrapped around already-trimmed text gives back exactly that text |
| Text.TrimTrimmed | src/lib/scraper.ts:257 | trimmed text is a fixed point of `trim` |
| Text.LowerAll | src/lib/timer-utils.ts:23 | `toLowerCase` keeps the length and lowers every character in place |
| Text.IndexOf | src/lib/scraper.ts:62-64 | `indexOf(pat, from)` gives the first occurrence at or after `from`, and none means no occurrence there |
| Text.NatToStringRoundTrip | src/lib/scraper.ts:210-212 | the decimal text of a number reads back as that number |
| Text.NatToStringNoLeadingZero | src/lib/scraper.ts:210-212 | the decimal text of a number starts with `0` exactly when the number is 0 |
| Text.Search | src/lib/scraper.ts:204 | `String.match` without `g`: the match found is at the leftmost position where the pattern matches, and no earlier position matches |
| Text.SearchFinds | src/lib/scraper.ts:204 | if the pattern matches at `i` and nowhere earlier, the search returns the match at `i` |
| Text.SearchNone | src/lib/scraper.ts:204-205 | the search finds nothing exactly when the pattern matches at no position |
| TextCleaning.ReplaceInvisible | src/lib/scraper.ts:255 | the result has the same length; each U+00A0, U+200B, U+200C, U+200D or U+FEFF becomes a space at its position and every other character stays in place, so none of the five remains |
| TextCleaning.CollapseIsJoinedWords | src/lib/scraper.ts:256 | collapsing white space gives the text's words joined by single spaces, plus one space when the text ends in white space |
| TextCleaning.WordsShape | src/lib/scraper.ts:256 | every word is non-empty and has no white space; words of visible text are visible |
| TextCleaning.JoinWordsNormalized | src/lib/scraper.ts:256-257 | well-formed words joined by single spaces are trimmed, with every white space a lone `' '` |
| TextCleaning.ShapeIsJoinedWords | src/lib/scraper.ts:255-257 | the white-space stage is exactly the words of the invisible-free text joined by single spaces |
| TextCleaning.ShapeClean | src/lib/scraper.ts:254-257 | the white-space stage's output is trimmed, its only white space is single `' '` characters, and it has no invisible characters |
| TextCleaning.NormalizedIsJoinedWords | src/lib/scraper.ts:256-257 | the inverse direction: normalized text is its own words joined by single spaces |
| TextCleaning.ShapeFixpoint | src/lib/scraper.ts:254-257 | normalized, visible text passes through the white-space stage unchanged |
| TextCleaning.ShapeIdempotent | src/lib/scraper.ts:254-257 | the white-space stage applied twice equals applying it once |
| TextCleaning.EntityRun | src/lib/scraper.ts:250 | the `[#a-z0-9]+` run of the entity test is made of entity characters, ignoring case, and is maximal: the next character, if any, is not one |
| TextCleaning.CleanTextClean | src/lib/scraper.ts:248-258 | `cleanText` output is normalized and visible, whatever the entity decoder returns |
| TextCleaning.CleanTextIsJoinedWords | src/lib/scraper.ts:248-258 | `cleanText` is the words of the (decoded when an entity is present) text joined by single spaces |
| TextCleaning.CleanTextFixpoint | src/lib/scraper.ts:248-258 | text without an entity that is already normalized and visible comes back unchanged |
| Json.FieldIndex | src/lib/scraper.ts:232-240 | a property lookup finds the last binding of the key, as after `JSON.parse` with duplicate keys; none means the key is absent |
| Json.Get | src/lib/scraper.ts:232-240 | `obj[key]` is defined exactly when some member has that key, and then it is the value of the last member with the key |
| Json.JsString | src/lib/scraper.ts:219 | `String(v)` of a one-element array holding a string is that string, and of a non-negative number its decimal digits |
| IngredientLine.QuantityRun | src/lib/scraper.ts:159 | the run of quantity characters (`[\d\s/½⅓⅔¼¾⅛.,-]`) from a position is maximal |
| IngredientLine.FirstUnit | src/lib/scraper.ts:159 | the unit alternative chosen is the first, in the source's order, that fits at the position, and none before it fits |
| IngredientLine.MatchLine | src/lib/scraper.ts:158-160 | a match has a non-empty item, and a unit capture is one of the unit words matched ignoring case |
| IngredientLine.ParseWith | src/lib/scraper.ts:162-170 | quantity, unit and item are trimmed, and a non-empty unit spells one of the unit words |
| IngredientLine.ParseIngredientString | src/lib/scraper.ts:152-171 | all three fields are trimmed, and a non-empty unit is a unit token of the pattern |
| IngredientLine.UnitWordsAreLetters | src/lib/scraper.ts:159 | every unit alternative is a non-empty word of lower-case letters |
| IngredientLine.CleanSplitShape | src/lib/scraper.ts:159-167 | on a cleaned line: the item is a non-empty trimmed suffix of the line, the unit spells a unit word, and the quantity is quantity characters only |
| IngredientLine.MatchClean | src/lib/scraper.ts:158-160 | on a cleaned non-empty line the backtracking matcher always matches, and its captures are the direct split's |
| IngredientLine.ParseWithClean | src/lib/scraper.ts:158-167 | on cleaned non-empty lines the regex model and the direct reference split agree |
| IngredientLine.ParseCleanLine | src/lib/scraper.ts:149-171 | every cleaned non-empty ingredient line gives the reference split with a non-empty item, so the `match[3] \|\| s` fallback never applies |
| IngredientLine.ParseEmptyLine | src/lib/scraper.ts:158-170 | the empty line does not match and gives three empty fields |
| IngredientQuirks.LargeEggs | src/lib/scraper.ts:157-167 | "3 large eggs", the comment's own example, parses as quantity "3", unit "l", item "arge eggs" |
| IngredientQuirks.Garlic | src/lib/scraper.ts:159-167 | "2 garlic" parses as quantity "2", unit "g", item "arlic" |
| Duration.DesignatorDigits | src/lib/scraper.ts:204 | the `(\d+)X` group matches a non-empty digit run followed by the designator letter in either case |
| Duration.MatchFrom | src/lib/scraper.ts:204 | a match starts at a `p` in either case, and each capture that took part is a non-empty digit string |
| Duration.Render | src/lib/scraper.ts:207-213 | the rendering is "" exactly when hours and minutes are both 0 |
| Duration.ParseDuration | src/lib/scraper.ts:201-214 | a non-string gives ""; a string with no match comes back unchanged; a string with a match always changes, into text with no `p` in either case |
| Duration.DurationRoundTrip | src/lib/scraper.ts:203-213 | "PT<h>H<m>M" renders as `<h> hr <m> min`, `<h> hr`, `<m> min` or "" for those same h and m |
| Duration.DurationTextReads | src/lib/scraper.ts:201-214 | any ISO 8601 text "P[nY][nM][nD]T[nH][nM]…" reads as its hours and minutes, whatever date groups come before the `T` and whatever follows, provided what follows does not supply an hours or minutes group that was left out |
| Duration.MinutesOnlyDuration | src/lib/scraper.ts:203-212 | "PT30M" gives "30 min" |
| Duration.HoursOnlyDuration | src/lib/scraper.ts:203-211 | "PT1H" gives "1 hr" |
| Duration.FullDuration | src/lib/scraper.ts:203-212 | "P0Y0M0DT0H20M0.000S", the comment's own example, gives "20 min" |
| Duration.SecondsOnlyIsEmpty | src/lib/scraper.ts:204-213 | a duration of seconds only, such as "PT45S", gives "" |
| Duration.NoLetterPUnchanged | src/lib/scraper.ts:204-205 | a text without the letter `p` in either case is returned as it is |
| Duration.ParseDurationIdempotent | src/lib/scraper.ts:201-214 | parsing an already-parsed duration changes nothing |
| Duration.FirstPtGivesEmpty | src/lib/scraper.ts:204-213 | when the first `p` of a text is followed by `t` and then a non-digit (as in "Sept"), the result is "" |
| JsonLd.FindRecipeObjects | src/lib/scraper.ts:227-245 | every result is a Recipe node. A Recipe node gives itself. An array gives its elements' results in order. An object without an array `@graph` gives nothing, one with it gives the graph's results, and a scalar gives nothing |
| JsonLd.FindAll | src/lib/scraper.ts:228-229 | every node the `flatMap` over an array collects is a Recipe node |
| JsonLd.FindAllAppend | src/lib/scraper.ts:229 | the search over an array distributes over concatenation |
| JsonLd.FoundInside | src/lib/scraper.ts:227-245 | every node found is the input or nested inside it |
| JsonLd.AsString | src/lib/scraper.ts:223-225 | a string gives its cleaned text and anything else gives ""; the result is always normalized and visible |
| JsonLd.ParseServings | src/lib/scraper.ts:216-221 | a string is returned as it is; a number n gives its decimal text followed by " servings"; a non-empty array gives `String` of its first element; anything else gives "" |
| JsonLd.ServingsNumberRoundTrip | src/lib/scraper.ts:218 | a number n gives decimal digits reading back as n, followed by " servings" |
| JsonLd.StringElementsMembers | src/lib/scraper.ts:149 | the filter keeps exactly the array's string elements |
| JsonLd.StringElementsAppend | src/lib/scraper.ts:149 | the filter distributes over concatenation |
| JsonLd.StringElementsOfStrings | src/lib/scraper.ts:149 | an array of strings keeps all of them, in order |
| JsonLd.StringArrayIngredients | src/lib/scraper.ts:145-150 | an array of ingredient lines gives exactly one parsed ingredient per line, in order |
| JsonLd.ParseLines | src/lib/scraper.ts:149 | one ingredient per line, each the parse of that cleaned line |
| JsonLd.ParseIngredients | src/lib/scraper.ts:145-150 | a non-array gives []. An array gives the parse of each of its string elements, cleaned, in order. Every field is trimmed, and every non-empty unit is a unit token |
| JsonLd.IngredientItems | src/lib/scraper.ts:149-171 | a string element that cleans to "" gives three empty fields, and any other string element gives a non-empty item |
| JsonLd.ItemInstructions | src/lib/scraper.ts:176-196 | a string gives its cleaned text; an object with a string `text` gives that text cleaned; otherwise an object with an array `itemListElement` gives the section's steps; any other item gives nothing. Every step is cleaned text |
| JsonLd.SectionTexts | src/lib/scraper.ts:183-193 | a section gives at most one step per sub-item, each cleaned text |
| JsonLd.SubTexts | src/lib/scraper.ts:186-192 | at most one text per sub-item is collected |
| JsonLd.SubTextsMembers | src/lib/scraper.ts:186-192 | a text is collected exactly when some sub-item is an object whose `text` member is that string |
| JsonLd.SubTextsAppend | src/lib/scraper.ts:184-192 | collecting distributes over concatenation, so the texts keep the sub-items' order |
| JsonLd.SectionTextsCleaned | src/lib/scraper.ts:183-193 | a section's steps are exactly the collected `text` members, each cleaned, in order |
| JsonLd.InstructionsOf | src/lib/scraper.ts:176-196 | every step produced is normalized, visible text |
| JsonLd.ParseInstructions | src/lib/scraper.ts:173-199 | a non-array gives []; an array gives the `flatMap` of its items |
| JsonLd.InstructionsAppend | src/lib/scraper.ts:176-196 | the steps of concatenated item lists are the concatenated steps |
| JsonLd.PlainStringSteps | src/lib/scraper.ts:177 | a list of plain strings gives exactly the cleaned string elements, one step each |
| JsonLd.HowToStepSteps | src/lib/scraper.ts:180-181 | a list of HowToStep objects gives exactly their cleaned `text` members, one step each, in order |
| JsonLd.OneSectionSteps | src/lib/scraper.ts:182-193 | a single HowToSection gives the cleaned `text` of each of its object items, in order |
| JsonLd.SectionStringsDropped | src/lib/scraper.ts:184-192 | sub-items of a section that are plain strings contribute no step |
| JsonLd.MapJsonLdToRecipe | src/lib/scraper.ts:119-143 | no recipe exactly when the cleaned name is empty or there are neither ingredients nor instructions. Otherwise the title is the cleaned `name` and is normalized, the source is the URL, the ingredients, instructions, times, servings and notes are those parsed from their properties, and there are no step ingredients |
| ChunkedRead.Read | src/lib/scraper.ts:31-57 | the read ends with the fallback or a successful attempt on the buffer after some number of chunks |
| ChunkedRead.ReadFromPrefix | src/lib/scraper.ts:31-52 | if nothing stopped the loop during the first n chunks, the whole read equals resuming after n chunks with their concatenation as the buffer |
| ChunkedRead.ReadStopsAtHit | src/lib/scraper.ts:39-44 | the first buffer on which the attempt succeeds ends the read with that attempt's result |
| ChunkedRead.ReadStopsAtCap | src/lib/scraper.ts:47-51 | the first buffer past 500000 characters with no successful attempt ends the read with the fallback on that buffer |
| ChunkedRead.ReadToEnd | src/lib/scraper.ts:33-34 | a stream that never stops the loop ends with the fallback on everything read |
| ChunkedRead.ReadOutcome | src/lib/scraper.ts:31-57 | the read's result is the fallback or a successful attempt on the buffer after some number of chunks |
| ChunkedRead.ReadStream | src/lib/scraper.ts:31-57 | the loop computes the read. It stops early only after a successful attempt or an over-cap buffer, and every buffer before that was neither |
| Scraper.FetchFailure | src/lib/scraper.ts:20-22 | the error message for a non-success status begins with "Failed to fetch page" |
| Scraper.TruncateContent | src/lib/scraper.ts:260-263 | text of at most 6000 characters is unchanged; longer text keeps its first 6000 characters followed by the truncation note |
| Scraper.TruncateFixedPoints | src/lib/scraper.ts:260-263 | truncation leaves a text unchanged exactly when it is short enough or is already a truncated text |
| Scraper.TruncateBounds | src/lib/scraper.ts:260-263 | the result is never longer than 6000 characters plus the note, and it starts with the kept prefix of the input |
| Scraper.RegionTexts | src/lib/scraper.ts:107-110 | one cleaned region text per selector, in selector order |
| Scraper.FirstLong | src/lib/scraper.ts:107-113 | the region chosen is the first whose cleaned text is over 200 characters; none means no region qualifies |
| Scraper.ExtractFrom | src/lib/scraper.ts:90-117 | the raw content is never longer than 6000 characters plus the note |
| Scraper.ExtractRawContent | src/lib/scraper.ts:90-117 | with the source's selector list, the raw content is never longer than 6000 characters plus the note |
| Scraper.RawFromFirstLongRegion | src/lib/scraper.ts:107-113 | the first region with over 200 cleaned characters supplies the truncated content |
| Scraper.RawFromBody | src/lib/scraper.ts:115-116 | when no region qualifies, the truncated cleaned body text is the content |
| Scraper.TagCompleteMeans | src/lib/scraper.ts:62-65 | the extraction proceeds exactly when the marker occurs and a `</script>` occurs at or after its first occurrence |
| Scraper.ScriptRecipes | src/lib/scraper.ts:72-75 | every object taken from a script is a Recipe node |
| Scraper.FirstFound | src/lib/scraper.ts:70-79 | the script used is the first that yields a Recipe node, and none before it does |
| Scraper.FirstRecipe | src/lib/scraper.ts:70-81 | there is no recipe data exactly when no script yields a Recipe node |
| Scraper.FirstRecipeIs | src/lib/scraper.ts:70-79 | when script k is the first with a Recipe node, the data is that script's first Recipe node |
| Scraper.FromRecipeNode | src/lib/scraper.ts:83-87 | structured exactly when the mapping succeeds, and then the recipe is the mapped one, with the page URL and a non-empty title; otherwise raw content is the stringified node |
| Scraper.TryExtractStructured | src/lib/scraper.ts:60-88 | there is a result exactly when the script tag is complete and some script yields a Recipe node, and it is built from the first such node |
| Scraper.Attempt | src/lib/scraper.ts:39-41 | a loop step only produces a result when the buffer contains the marker, and then it is the structured extraction's |
| Scraper.Scrape | src/lib/scraper.ts:31-57 | the scrape result is the raw content of some prefix of the stream, or the structured extraction from such a prefix |
| Scraper.StructuredNeedsMarker | src/lib/scraper.ts:31-65 | a structured scrape result comes from a prefix of the stream that contains the marker and a complete script tag |
| Scraper.ScrapeStream | src/lib/scraper.ts:31-57 | the streaming loop computes `scrapeRecipePage`'s result. It stops before the end only on a result or on a buffer over the cap |
| Timer.BuildLabel | src/lib/timer-utils.ts:10-16 | the label is never empty |
| Timer.HoursMinutesText | src/lib/timer-utils.ts:10-15 | with hours and minutes, the label is `<h> hr <m> min` |
| Timer.SinglePartLabel | src/lib/timer-utils.ts:12-15 | a one-part label `<n> <unit>` reads back as n times the unit's seconds |
| Timer.LabelDenotes | src/lib/timer-utils.ts:6-16 | every label built as the source builds it reads back as the duration `toSeconds` computes |
| Timer.UnitAt | src/lib/timer-utils.ts:37 | the hour alternative is recognised exactly where "hour" or "hr" occurs |
| Timer.CompoundAt | src/lib/timer-utils.ts:26-28 | a compound match starts with the digit run at its position, and an hour word follows that run after optional spaces |
| Timer.RangeAt | src/lib/timer-utils.ts:36-38 | a range match needs the `<lo> - <hi>` prefix at its position |
| Timer.SimpleAt | src/lib/timer-utils.ts:53 | a simple match starts at a digit, and its whole part is the digit run there |
| Timer.RangeParts | src/lib/timer-utils.ts:40-48 | a range's parts add up to the upper bound times its unit's seconds, with seconds only on their own |
| Timer.SimpleParts | src/lib/timer-utils.ts:56-66 | seconds only ever come on their own |
| Timer.WholeParts | src/lib/timer-utils.ts:56-66 | a number without a fractional part counts that many of its unit: hours by 3600, minutes by 60, seconds by 1 |
| Timer.DetectParts | src/lib/timer-utils.ts:22-70 | seconds are only ever reported without hours and minutes |
| Timer.DetectTimer | src/lib/timer-utils.ts:22-70 | `null` exactly when the simple pattern matches nowhere in the lower-cased text; a found timer's label reads back as its duration in seconds, and both come from the same parts |
| Timer.DetectIgnoresCase | src/lib/timer-utils.ts:23 | detection gives the same result on the lower-cased instruction |
| Timer.CompoundIsSimple | src/lib/timer-utils.ts:26-28 | wherever the compound pattern matches, the simple one matches too |
| Timer.RangeIsSimple | src/lib/timer-utils.ts:36-38 | wherever the range pattern matches, the simple one matches somewhere |
| Timer.DetectPartsNoneIff | src/lib/timer-utils.ts:22-70 | no parts are found exactly when the simple pattern matches nowhere in the lower-cased text |
| Timer.NoHourNoCompound | src/lib/timer-utils.ts:26-28 | a text without `h` has no compound match |
| Timer.NoDashNoRange | src/lib/timer-utils.ts:36-38 | a text without `-` has no range match |
| Timer.CompoundAtStart | src/lib/timer-utils.ts:26-32 | a compound match at the start decides the timer: h hours and m minutes, with label `buildLabel(h, m, 0)` |
| Timer.CompoundDigits | src/lib/timer-utils.ts:25-33 | "<h> hour and <m> minutes" gives h·3600 + m·60 seconds with the matching label |
| Timer.CompoundPhrase | src/lib/timer-utils.ts:25-33 | the same for any rendered numbers h and m |
| Timer.RangeAtStart | src/lib/timer-utils.ts:35-49 | a range match at the start, with no compound match anywhere, decides the timer from the upper bound and the unit |
| Timer.RangeScales | src/lib/timer-utils.ts:39-48 | a range gives its upper bound times the unit's seconds, and its label reads back as that |
| Timer.RangeDigits | src/lib/timer-utils.ts:35-49 | "<lo>-<hi> minutes" gives hi minutes, whatever lo is |
| Timer.RangePhrase | src/lib/timer-utils.ts:35-49 | "10-12 minutes"-style text gives hi·60 seconds with label "<hi> min" |
| Timer.SimpleAtStart | src/lib/timer-utils.ts:51-67 | with no compound or range match, a simple match at the start decides the timer |
| Timer.HalfHour | src/lib/timer-utils.ts:58-61 | "<w>.5 hours" gives w hours and 30 minutes |
| Timer.WholeMinutes | src/lib/timer-utils.ts:66 | a whole number of minutes stays that number of minutes |
| Timer.SimpleDigits | src/lib/timer-utils.ts:51-67 | "<n> minutes" gives n·60 seconds |
| Timer.SimplePhrase | src/lib/timer-utils.ts:51-67 | "<n> minutes" for any rendered n gives n·60 seconds with label `buildLabel(0, n, 0)` |
| Timer.FormatTime | src/lib/timer-utils.ts:75-85 | zero or negative seconds display as "0:00" |
| Timer.FormatOfParts | src/lib/timer-utils.ts:75-85 | hours, minutes under 60 and seconds under 60 display, through `toSeconds` and `formatTime`, as those same three fields |
| Timer.Pad2Value | src/lib/timer-utils.ts:82 | `padStart(2, "0")` of a number under 100 is two digits reading back as it |
| Timer.ClockArithmetic | src/lib/timer-utils.ts:77-79 | minutes and seconds fields are under 60 and recombine to the total |
| Timer.LongClockRoundTrip | src/lib/timer-utils.ts:81-82 | `H:MM:SS` reads back as its duration |
| Timer.ShortClockRoundTrip | src/lib/timer-utils.ts:84 | `M:SS` reads back as its duration |
| Timer.ClockRoundTrip | src/lib/timer-utils.ts:81-84 | either clock form reads back as its duration |
| Timer.FormatTimeFields | src/lib/timer-utils.ts:81-84 | from one hour up there are three fields, minutes and seconds two digits each; below one hour two fields, seconds two digits |
| Timer.FormatTimeRoundTrip | src/lib/timer-utils.ts:75-85 | the display reads back as the seconds given, negatives as 0 |
| StepMap.NonEmpty | src/lib/ai/gemini.ts:75 | `filter(Boolean)` keeps only non-empty strings and never gives more strings than it was given |
| StepMap.NonEmptyMembers | src/lib/ai/gemini.ts:75 | `filter(Boolean)` keeps a string exactly when it is one of the parts and is non-empty |
| StepMap.NonEmptyAppend | src/lib/ai/gemini.ts:75 | filtering a concatenation is filtering each side and concatenating, so the kept parts keep their order |
| StepMap.FormattersAgree | src/components/step-ingredients.tsx:77-83 | pushing each non-empty field then joining gives the same text as `formatIngredientString` |
| StepMap.FormatEmptyIff | src/lib/ai/gemini.ts:74-76 | the formatted ingredient is "" exactly when all three fields are empty |
| StepMap.SplitJoin | src/lib/ai/gemini.ts:75 | joining with a separator and splitting on it gives back the parts, for parts without the separator |
| StepMap.FormatSplitsIntoFields | src/components/recipe-card.tsx:36-38 | the same expression as `formatIngredientString`: for space-free fields, splitting the text on spaces gives back exactly the non-empty fields in order |
| StepMap.GuardStepIngredients | src/lib/ai/gemini.ts:48-57 | only `stepIngredients` can change, and only to absent. A kept list has one entry per instruction, and a recipe that already meets this is untouched |
| StepMap.GuardDropsIff | src/lib/ai/gemini.ts:49-55 | the result has no step ingredients exactly when there were none or their count differs from the instructions' |
| StepMap.GuardIdempotent | src/lib/ai/gemini.ts:49-55 | applying the guard twice equals applying it once |
| StepMap.StepEntry | src/lib/ai/gemini.ts:105-107 | a step entry has at most one ingredient per index, each a recipe ingredient without totals |
| StepMap.InRange | src/lib/ai/gemini.ts:106-107 | the indices kept are within 1 and the number of ingredients |
| StepMap.InRangeMembers | src/lib/ai/gemini.ts:105-107 | an index is kept exactly when it is one of the listed indices and names an ingredient (1 to the number of ingredients) |
| StepMap.InRangeAppend | src/lib/ai/gemini.ts:105-107 | keeping the in-range indices of a concatenation keeps those of each side, in order and with repeats |
| StepMap.StepEntryIsIndexed | src/lib/ai/gemini.ts:104-108 | position by position, a step entry holds the ingredients its in-range indices name: out-of-range indices dropped, order and repeats kept |
| StepMap.StepEntryIsNamed | src/lib/ai/gemini.ts:105-107 | a step entry equals the list of ingredients named by its in-range indices, taken in order |
| StepMap.StepEntryFull | src/lib/ai/gemini.ts:105-107 | nothing is dropped exactly when every index is in range |
| StepMap.MapStepIngredients | src/lib/ai/gemini.ts:99-108 | no mapping exactly when the number of lists differs from the number of instructions; otherwise one entry per instruction, built from its list |
| StepMap.MappedFromRecipe | src/lib/ai/gemini.ts:103-108 | every ingredient in every step is one of the recipe's, and no step has more entries than its index list |
| StepMap.MappedPassesGuard | src/lib/ai/gemini.ts:49-55 | a mapping that exists always survives the length guard |
| ParseRoute.Caught | src/app/api/parse-recipe/route.ts:70-84 | an error is 422 "Could not reach that URL…" exactly when its message contains "Failed to fetch page". Otherwise it is 500 with the message, or "Failed to parse recipe" for a non-`Error` |
| ParseRoute.DefaultErrorIsNotFetch | src/app/api/parse-recipe/route.ts:73-76 | the fallback message is not itself classified as a fetch failure |
| ParseRoute.Extract | src/app/api/parse-recipe/route.ts:44-52 | Gemini is always called first and Claude exactly when Gemini throws. The result names the extractor whose return value it carries, and Claude's error is rethrown |
| ParseRoute.HandleUrl | src/app/api/parse-recipe/route.ts:28-69 | the scraper always runs; an AI success is accepted and names the last extractor called; a structured success is the scraper's recipe with no extractor called |
| ParseRoute.Post | src/app/api/parse-recipe/route.ts:6-85 | a 400 calls nothing. Extractors are called only after the scraper, Gemini before Claude. Every success comes after scraping, and an AI success has a title, ingredients and instructions |
| ParseRoute.UrlField | src/app/api/parse-recipe/route.ts:8-9 | destructuring `url` throws exactly when the body is `null`; an object gives its `url` member and anything else gives `undefined` |
| ParseRoute.UsableUrlIff | src/app/api/parse-recipe/route.ts:11 | the test passes exactly the non-empty strings |
| ParseRoute.MissingUrlRejected | src/app/api/parse-recipe/route.ts:8-16 | 400 "Missing or invalid URL" exactly when `url` is missing, empty or not a string, and then nothing is called |
| ParseRoute.BadUrlRejected | src/app/api/parse-recipe/route.ts:18-26 | for a usable string, 400 "Invalid URL format" exactly when it does not parse as a URL, and then nothing is called |
| ParseRoute.ValidUrlScrapes | src/app/api/parse-recipe/route.ts:28-29 | past the URL checks the response is that of handling the URL given |
| ParseRoute.StructuredReturnedDirectly | src/app/api/parse-recipe/route.ts:31-34 | a structured scrape is returned as is, with source "structured" and no extractor called |
| ParseRoute.ShortContentRejected | src/app/api/parse-recipe/route.ts:36-42 | raw content under 50 characters is 422 with no extractor called |
| ParseRoute.ExtractorsInOrder | src/app/api/parse-recipe/route.ts:44-69 | with enough raw content the outcome is decided by the extractors in order, each result tested for a title, ingredients and instructions |
| ParseRoute.FetchFailureUnreachable | src/app/api/parse-recipe/route.ts:76-81 | a scraper failure on an HTTP status is 422 "Could not reach that URL…", with no extractor called |
| ParseRoute.OtherErrorsAre500 | src/app/api/parse-recipe/route.ts:83 | any other message is 500 carrying that message |

## Behaviour worth knowing

These follow from the code as written. They are proved about the model.

- `parseIngredientString` has no word boundary after the unit.
  - Its unit alternatives are tried in order, and `l` and `g` come before the words that start with them.
  - So "3 large eggs" gives unit "l" and item "arge eggs" (`IngredientQuirks.LargeEggs`), and "2 garlic" gives unit "g" and item "arlic" (`IngredientQuirks.Garlic`).
- `parseDuration` searches anywhere in the text, and every part after `T` is optional.
  - So when the first `p` of a text, in either case, is followed by `t` and then by a non-digit or the end, that `pt` is the match, with no hours and no minutes.
  - Such a value renders as "". This covers "PT" itself and free text such as "Sept" or "empty" (`Duration.FirstPtGivesEmpty`).
- In `parseInstructions`, a HowToSection's sub-items that are plain strings are dropped (`JsonLd.SectionStringsDropped`). Only sub-objects with a string `text` give steps.

## Facts about the code that are easy to get wrong

- **Two error classes.** Every error whose message contains "Failed to fetch page" is 422, and every other error is 500 (`ParseRoute.Caught`).
- **Unparseable structured data is skipped.** A `ld+json` script whose JSON does not parse is passed over (`parseJson` returns `None`). A recipe node becomes raw content, stringified, only when it was found but `mapJsonLdToRecipe` rejects it (`Scraper.FromRecipeNode`).
- **The step-ingredient guard never fires after validation.** `parsedRecipeSchema` in src/lib/schema.ts:9-19 has no `stepIngredients` field, and zod's `parse` drops unknown keys. So the value `extractRecipe` checks at src/lib/ai/gemini.ts:49-55 never has the field, and the guard cannot act. The guard is modelled over an optional field, as its code reads (`StepMap.GuardStepIngredients`).

## Left out

- The network: `fetch`, headers, the 10-second timeout, `AbortController`, `reader.cancel()` and `TextDecoder`. The body is the sequence of decoded text chunks it delivers, and the non-success status appears only as the message of the error it throws (`Scraper.FetchFailure`).
- Cheerio: document loading, element removal, selector matching, `.text()` and entity decoding. These are the `Env` functions `ldJsonScripts`, `firstText`, `bodyText` and `decode`. The element removal of `extractRawContent` is part of what `firstText` and `bodyText` return.
- `JSON.parse`, `JSON.stringify` and `new URL()`: they are `Env` functions, or given as outcomes.
- The AI extractors (`extractRecipe` in gemini.ts and claude.ts): the prompts, the model calls and zod validation. The route receives their outcomes as functions.
- `mapStepIngredients`'s model call is left out. The index lists it returns are a parameter, and zod's rule that indices are integers ≥ 1 is not assumed (any `int` is accepted).
- `console.error` in the `catch` block: it has no effect on the response.
- The map-ingredients route, the UI components, timers and the wake lock. They are outside the acquisition core. Only the two copies of `formatIngredientString` are modelled.
- ParseServings: JSON numbers are integers here. A fractional `recipeYield` and the floating-point text of `String(number)` are not modelled.
- Timer.SimpleParts, Timer.DetectTimer: `parseFloat`, `Math.floor` and `Math.round` on decimal values are computed exactly over rationals. Round-half-up agrees with `Math.round` for non-negative values, but binary floating-point error is not modelled.
- Timer.FormatTime: modelled for integer seconds, so the `Math.round` of a fractional argument is left out.
- Text.LowerAll: lower-cases ASCII letters only; JavaScript's full Unicode case mapping is not modelled.
- Text lengths: a Dafny `char` is a Unicode scalar value, but JavaScript's `length` and `slice` count UTF-16 code units. On text outside the Basic Multilingual Plane (emoji, for instance), the model's lengths are smaller than the program's. This affects the 6000-character truncation (`Scraper.TruncateContent`), the 200-character region test (`Scraper.FirstLong`), the 50-character route check (`ParseRoute.ShortContentRejected`) and the 500000-character cap (`ChunkedRead.MaxBuffer`). `slice` can also cut between the two halves of a surrogate pair, which the model cannot.
- Duration.ParseDuration: `parseInt` of a long digit run is read exactly, as an unbounded natural number. JavaScript loses precision above 2^53 and renders 1e21 and beyond in exponent form. So for "PT99999999999999999M" the model renders the exact number, where the program renders a rounded one.
- Timer.DetectTimer: the same applies to `parseInt` and `parseFloat` of long digit runs, and to the template rendering of the resulting numbers in the label.
- Json.FieldIndex: for `@type === "Recipe"` and property reads, duplicate keys resolve to the last binding, as `JSON.parse` does. Prototype properties (`__proto__`, `constructor`) are not modelled.
