# Promptlens handlers in Dafny

Promptlens has two serverless HTTP handlers. This project models both as total
functions and proves what they promise.

- `api/analyze.js` takes an image and some preferences. It fills an
  instruction for the Gemini model from two preset tables: a style
  description and a focus description. It adds an output language and a
  variation count. It sends the instruction and the image in one
  `generateContent` call. The model's text is stripped of Markdown code
  fences and trimmed, then handed to `JSON.parse`. The status and body it
  answers with depend on the method gate, the image check, the API-key check
  and the upstream outcome.
- `api/test.js` is a diagnostics endpoint. It always answers 200 with four
  fields:
  - a constant status line;
  - a redacted preview of the API key (at most eight characters and "...", or "NOT SET");
  - the result of a small "Say OK" probe call, or "not tested" without a key;
  - the runtime version.

Modules:

- `Wrappers`: `Option`.
- `JsString`: the JavaScript string behaviour the handlers rely on:
  - truthiness of an optional string;
  - `String.prototype.trim` with the ECMAScript whitespace set;
  - `parseInt` with no radix argument, including the `0x` prefix;
  - integer-to-decimal rendering;
  - substring predicates.
- `Gemini`: the outgoing call as a value (`GeminiCall`) and its outcome (`Reply`).
  Outcomes are a rejected fetch, a body that is not JSON, or a JSON body with
  its status.
- `Fence`: the two global deletions `/```json\n?/g` and `/```\n?/g`, then trim.
- `Analyze`: the image-analysis handler.
- `Diagnostics`: the diagnostics handler.

The upstream service is a parameter `gemini: GeminiCall -> Reply`. "No call is
made" is stated as "the reply does not depend on `gemini`". `JSON.parse` is a
parameter `parse: string -> Parsed<J>` over an arbitrary value type `J`. The
environment variable `GEMINI_API_KEY` and `process.version` are parameters too.

Two behaviours of the code are worth knowing up front:

- The variation count is `parseInt(variations) || 1` (api/analyze.js:30).
  Only NaN and 0 become 1, so "-2" yields -2 and no count is clamped to a
  positive number (`Analyze.VariationCountExamples`).
- The diagnostics report has exactly four fields (api/test.js:33-38):
  `status`, `GEMINI_API_KEY`, `gemini_connection` and `node_version`.
  `Diagnostics.Report` has those four.

The preset lookup is the one deliberate change of behaviour; the
abstractions listed under "## Left out" (among them number formatting,
UTF-16 code units, non-string reply fields and a JSON `null` reply body) are
the other places where the model and the code can differ.
As written, `styleGuides[style] || styleGuides.detailed` (api/analyze.js:32)
also finds members every object inherits, such as `toString`. The model
proves that behaviour (`Analyze.GuideAsWritten`), records it under
"## Findings", and builds the prompt with the corrected lookup
(`Analyze.StyleGuide`, `Analyze.FocusGuide`), in which an unknown name
selects the default description.

## Model

| member | source | states |
|---|---|---|
| JsString.Truthy | api/analyze.js:12 | `!x` on an absent-or-string value: undefined and "" are exactly the falsy ones |
| JsString.IsWhitespace | api/analyze.js:65 | the characters `trim()` and `parseInt` skip are never a sign or a digit in any radix |
| JsString.Trim | api/analyze.js:65 | `trim()` leaves neither end of the text as whitespace |
| JsString.TrimCutsWhitespace | api/analyze.js:65 | what `trim()` keeps is a contiguous slice of the input; everything before and after it is whitespace |
| JsString.TrimIdempotent | api/analyze.js:65 | trimming twice is trimming once |
| JsString.TrimOfTrimmed | api/analyze.js:65 | text whose ends are not whitespace is unchanged by `trim()` |
| JsString.TrimKeepsAbsence | api/analyze.js:65 | trimming cannot create an occurrence of a substring |
| JsString.TrimDropsTrailingNewline | api/analyze.js:65 | a newline appended to the text does not change its trimmed form |
| JsString.LeadingWhitespaceAppend | api/analyze.js:65 | text appended after non-blank text leaves its leading whitespace as it was; after blank text the counts add |
| JsString.DigitPrefixLength | api/analyze.js:30 | `parseInt` reads the longest run of digits: all of the run is digits and the next character is not one |
| JsString.NatToDecimal | api/analyze.js:32 | the decimal rendering of a natural number is non-empty digits, with a leading zero only for 0 |
| JsString.NatToDecimalValue | api/analyze.js:32 | the digits of the decimal rendering denote the number again |
| JsString.ParseIntOfDecimal | api/analyze.js:30 | `parseInt` of any integer's decimal rendering, followed by non-digit text other than `x`/`X`, yields that integer |
| JsString.ParseInt | api/analyze.js:30 | `parseInt` yields a number only when the first non-whitespace character is a sign or a digit, and a negative number only after a minus sign |
| JsString.ParseSigned | api/analyze.js:30 | after the whitespace, a number needs a leading sign or digit; a negative result needs a minus sign, and a minus sign never gives a positive result |
| JsString.ParseUnsigned | api/analyze.js:30 | after an optional `0x`/`0X` prefix the numeral is NaN exactly when no digit of the radix it selects (16 or 10) follows |
| JsString.ParseIntSkipsWhitespace | api/analyze.js:30 | any run of leading whitespace leaves the result of `parseInt` unchanged |
| JsString.IntToDecimal | api/analyze.js:32 | `${vars}`: a minus sign exactly for negative numbers, then only decimal digits |
| Fence.DeleteAll | api/analyze.js:65 | a global deletion of a literal never lengthens the text |
| Fence.DeleteFenceLeavesNoFence | api/analyze.js:65 | after the `/```\n?/g` deletion no "```" is left in the text |
| Fence.DeleteAllAbsent | api/analyze.js:65 | text without the literal comes through a deletion of it unchanged |
| Fence.Clean | api/analyze.js:65 | the text handed to `JSON.parse` contains no "```" and is trimmed; fence-free text is only trimmed |
| Fence.CleanIdempotent | api/analyze.js:65 | cleaning already cleaned text changes nothing |
| Fence.CleanFenceFree | api/analyze.js:65 | text without "```" is only trimmed |
| Fence.CleanJsonFencedPayload | api/analyze.js:65 | a fence-free payload wrapped as "```json\n…\n```" cleans to the same text as the bare payload |
| Fence.CleanBareFencedPayload | api/analyze.js:65 | a fence-free payload wrapped as "```\n…\n```" cleans to the same text as the bare payload |
| Analyze.Guide | api/analyze.js:32 | `table[key] \|\| table[fallback]` over own entries: the result is a table entry; it is the keyed entry when that is non-empty, else the fallback |
| Analyze.StyleGuide | api/analyze.js:16-21 | a known style selects its description; an absent or unknown style selects "detailed" |
| Analyze.FocusGuide | api/analyze.js:22-27 | a known focus selects its description; an absent or unknown focus selects "full" |
| Analyze.OutputLanguage | api/analyze.js:29 | the label is "Brazilian Portuguese" exactly when the language is "portuguese", otherwise "English" |
| Analyze.VariationCount | api/analyze.js:30 | `parseInt(variations) \|\| 1`: a non-zero parse is used as is; NaN, 0 or an absent field give 1; never 0 |
| Analyze.VariationCountOfDecimal | api/analyze.js:30 | every non-zero integer written in decimal, negative ones included, comes through unchanged |
| Analyze.VariationCountExamples | api/analyze.js:30 | "3" gives 3 and "-2" gives -2 |
| Analyze.VariationCountOfZero | api/analyze.js:30 | "0" gives 1 |
| Analyze.VariationCountOfNonNumeric | api/analyze.js:30 | "abc" and an absent field give 1 |
| Analyze.LookupAsWritten | api/analyze.js:32 | property access on an object literal yields the own entry `table[key]` for a key in the table, the inherited Object.prototype member of that name for a prototype name outside it, and undefined otherwise |
| Analyze.GuideAsWritten | api/analyze.js:32 | as written, a key naming an inherited Object.prototype member outside the table yields that very member instead of the fallback; every other key yields what the corrected lookup gives |
| Analyze.InheritedNameBypassesDefault | api/analyze.js:32 | as written, style "toString" and focus "constructor" select inherited members rather than the defaults |
| Analyze.AsWrittenAgreesOnOtherKeys | api/analyze.js:32 | away from inherited names the written lookup and the corrected one agree |
| Analyze.RenderPrompt | api/analyze.js:32 | the instruction starts with the opening sentence and the variation count, and contains the language, style and focus texts |
| Analyze.TemplateContainsPieces | api/analyze.js:32 | a template interleaved with values starts with its head and contains every later value |
| Analyze.ChoosePrompt | api/analyze.js:29-32 | the choice is exactly the request's variation count, language label, style description and focus description; the count is non-zero, the descriptions come from the tables, and the language is Portuguese exactly when asked |
| Analyze.CallCarriesChoice | api/analyze.js:29-32 | for every request with an image, the instruction sent upstream starts by asking for the request's variation count and contains its language label and its style and focus descriptions |
| Analyze.TechnicalColorThree | api/analyze.js:16-32 | style "technical", focus "color", variations "3" ask for 3 prompts and carry both descriptions |
| Analyze.HasImage | api/analyze.js:12 | the image check passes exactly when both image fields are present and non-empty |
| Analyze.AnalysisCall | api/analyze.js:42-53 | the call carries the key, the instruction then the inline image (MIME type and data), and a 2048-token cap |
| Gemini.IsOk | api/analyze.js:56 | `response.ok` holds exactly for statuses whose hundreds digit is 2 |
| Analyze.MapReply | api/analyze.js:56-71 | 200 exactly when a 2xx reply has text that parses after cleaning; a non-2xx status is mirrored with the upstream message or "Gemini API error"; no text is 500; every exception is 500 with its message |
| Analyze.Handle | api/analyze.js:7-71 | OPTIONS is 200 with no body; other non-POST is 405; missing image is 400; missing key is 500; otherwise the mapped upstream reply; only OPTIONS has no body |
| Analyze.MethodGateIgnoresRequest | api/analyze.js:7-8 | a non-POST answer depends on nothing but the method |
| Analyze.MissingKeySkipsUpstream | api/analyze.js:35-38 | without a key the upstream is never consulted |
| Analyze.QuotaErrorMirrored | api/analyze.js:56-59 | an upstream 429 "quota exceeded" reaches the client as 429 "quota exceeded" |
| Analyze.FencedTextParsedAsPayload | api/analyze.js:65-68 | model text fenced as "```json" is answered as the bare payload would be |
| Diagnostics.KeyPreview | api/test.js:4-5 | "NOT SET" without a key; otherwise the first min(8, length) characters of the key and "...", at most 11 characters |
| Diagnostics.PreviewHidesRest | api/test.js:5 | keys agreeing on their first eight characters have the same preview |
| Diagnostics.ProbeCall | api/test.js:11-21 | the probe sends the key, the single text "Say OK" and a 10-token cap |
| Diagnostics.Classify | api/test.js:22-30 | "connected ✓" exactly for a 2xx JSON reply; "error: " plus the upstream message or the status exactly for other statuses; "fetch error: " plus the message exactly when fetch or `r.json()` throws |
| Diagnostics.PrefixedText | api/test.js:26-29 | the two error prefixes tell the status texts apart |
| Diagnostics.ConnectionStatus | api/test.js:8-31 | "not tested" exactly when no key is set; otherwise the classified probe outcome |
| Diagnostics.Diagnose | api/test.js:33-38 | always 200 with "backend online ✓", the key preview, the connection status and the runtime version |
| Diagnostics.MissingKeySkipsProbe | api/test.js:9 | without a key the report does not depend on the upstream |
| Diagnostics.ReportHidesKeyRest | api/test.js:5-38 | two keys with the same first eight characters and the same probe outcome give the same report |

## Left out

- The HTTP exchange with the Gemini API is not modelled. This covers `fetch`, the URL with the key in its query string and the JSON encoding of the request. The handlers' view of it is a `GeminiCall` value in and a `Reply` value out.
- Temperature 0.7 (api/analyze.js:52) is not part of `GeminiCall`, because floating point is not modelled.
- CORS headers (api/analyze.js:3-5, api/test.js:2) and the mutation of `res` are not modelled. A response is returned as a value.
- `async`/`await` and concurrency are not modelled.
- `JSON.parse` is a parameter, and the shape of the parsed analysis result is a type parameter `J`.
- Request fields are optional strings. A non-string field (a number, an array, an object) is not modelled.
- An absent `req.body` is not modelled. Destructuring it throws outside the `try`, which the hosting platform answers.
- A reply body that is JSON `null` is not modelled. Reading `err.error` or `data.error` on it throws.
- Analyze.VariationCount: numbers are unbounded integers. JavaScript's double precision and its exponent notation for very large numbers are not modelled.
- Diagnostics.KeyPreview: `slice(0, 8)` counts UTF-16 code units, but the model counts characters. They differ only for keys with characters outside the Basic Multilingual Plane.
- Analyze.ChoosePrompt, Analyze.AnalysisCall, Analyze.CallCarriesChoice, Analyze.Handle: they use the corrected preset lookup of the "## Findings" rows. For a style or focus named after an inherited member ("toString", "constructor", "__proto__", ...), the code embeds that member's text in the prompt, while the model embeds the "detailed" or "full" description.
- Analyze.MapReply: `Gemini.ReplyBody` keeps `error.message` and `text` only when they are strings; any other value counts as absent. The code differs for a truthy non-string. A message such as 42 is mirrored as is instead of "Gemini API error". A text such as 42 makes `text.replace` throw, giving 500 with that TypeError's message instead of "Empty response from Gemini".
- Diagnostics.Classify: for the same reason, a truthy non-string `error.message` such as 42 gives "error: 42" in the code, but "error: " and the status in the model.
- Analyze.Handle: `JSON.parse` of the cleaned text is applied to the text as a whole. Which JSON the model returns is not constrained.

## Findings

| source | as written | input that shows it | evidently intended | confidence | as-written member | corrected member |
|---|---|---|---|---|---|---|
| api/analyze.js:32 | `styleGuides[style] \|\| styleGuides.detailed` reads inherited Object.prototype members, which are truthy functions or objects, so the "detailed" default is skipped | style "toString" (or "constructor", "__proto__") | an unknown name selects the "detailed" description | high; not executed | Analyze.InheritedNameBypassesDefault | Analyze.StyleGuide |
| api/analyze.js:32 | `focusGuides[focus] \|\| focusGuides.full` reads inherited Object.prototype members, which are truthy, so the "full" default is skipped | focus "constructor" (or "__proto__", "toString") | an unknown name selects the "full" description | high; not executed | Analyze.InheritedNameBypassesDefault | Analyze.FocusGuide |
