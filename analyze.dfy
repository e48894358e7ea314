/**
 * The image-analysis handler: CORS preflight, method gate, image-field check,
 * prompt assembly from preset tables, API-key check, one upstream
 * generateContent call, and the mapping of its outcome onto the HTTP reply.
 */
module Analyze {
  import opened Wrappers
  import opened JsString
  import opened Gemini
  import Fence

  /** The fields destructured from the JSON request body; each may be absent. */
  datatype RequestBody = RequestBody(
    imageBase64: Option<string>,
    imageMime: Option<string>,
    style: Option<string>,
    language: Option<string>,
    variations: Option<string>,
    focus: Option<string>)

  /** Outcome of JSON.parse on the cleaned model text: a value of type J or the SyntaxError's message. */
  datatype Parsed<J> = Parsed(value: J) | SyntaxError(message: string)

  /** A reply body: none (`res.end()`), `{error: message}`, or the parsed model output. */
  datatype Body<J> = NoBody | Error(message: string) | Result(value: J)

  datatype Response<J> = Response(status: int, body: Body<J>)

  const MethodNotAllowed: string := "Method not allowed"
  const MissingImage: string := "Missing image data"
  const KeyNotConfigured: string := "GEMINI_API_KEY not configured in environment variables"
  const UpstreamFallback: string := "Gemini API error"
  const EmptyResponse: string := "Empty response from Gemini"
  const MaxOutputTokens: nat := 2048

  // ---------------------------------------------------------------------------
  // Preset tables
  // ---------------------------------------------------------------------------

  const StyleGuides: map<string, string> := map[
    "detailed" := "extremely detailed, covering all visual elements",
    "concise" := "concise and punchy, capturing the essence in few words",
    "technical" := "technical, focusing on camera settings, lighting conditions, and photographic techniques",
    "artistic" := "artistic and poetic, using evocative language"
  ]

  const FocusGuides: map<string, string> := map[
    "full" := "all aspects: subject, style, composition, colors, mood, lighting",
    "style" := "artistic style, visual aesthetics, rendering technique, and artistic medium",
    "composition" := "layout, framing, perspective, depth of field, and spatial arrangement",
    "color" := "color palette, harmony, tones, saturation, and color relationships"
  ]

  /**
   * `table[key] || table[fallback]` over the table's own entries: a key
   * with a non-empty entry selects it, anything else selects the fallback.
   */
  function Guide(table: map<string, string>, key: Option<string>, fallback: string): (r: string)
    requires fallback in table
    ensures r in table.Values
    ensures r != table[fallback] ==> key.Some? && key.value in table && r == table[key.value]
    ensures key.Some? && key.value in table && table[key.value] != "" ==> r == table[key.value]
    ensures !(key.Some? && key.value in table && table[key.value] != "") ==> r == table[fallback]
  {
    if key.Some? && key.value in table && table[key.value] != "" then table[key.value]
    else table[fallback]
  }

  /** The style description: the named preset's, or the "detailed" one. */
  function StyleGuide(style: Option<string>): (r: string)
    ensures r in StyleGuides.Values
    ensures style.Some? && style.value in StyleGuides ==> r == StyleGuides[style.value]
    ensures (style.None? || style.value !in StyleGuides) ==> r == StyleGuides["detailed"]
  {
    Guide(StyleGuides, style, "detailed")
  }

  /** The focus description: the named preset's, or the "full" one. */
  function FocusGuide(focus: Option<string>): (r: string)
    ensures r in FocusGuides.Values
    ensures focus.Some? && focus.value in FocusGuides ==> r == FocusGuides[focus.value]
    ensures (focus.None? || focus.value !in FocusGuides) ==> r == FocusGuides["full"]
  {
    Guide(FocusGuides, focus, "full")
  }

  /** The output-language label: Portuguese exactly when "portuguese" is asked for. */
  function OutputLanguage(language: Option<string>): (r: string)
    ensures r == "Brazilian Portuguese" || r == "English"
    ensures r == "Brazilian Portuguese" <==> language == Some("portuguese")
  {
    if language == Some("portuguese") then "Brazilian Portuguese" else "English"
  }

  /** `parseInt(variations) || 1`: NaN and 0 are falsy, so both become 1; nothing else is clamped. */
  function VariationCount(variations: Option<string>): (r: int)
    ensures r != 0
    ensures variations.Some? && ParseInt(variations.value).Some? && ParseInt(variations.value).value != 0 ==>
      r == ParseInt(variations.value).value
    ensures (variations.None? || ParseInt(variations.value).None? || ParseInt(variations.value) == Some(0)) ==> r == 1
  {
    match variations
    case None => 1
    case Some(v) =>
      match ParseInt(v)
      case Some(n) => if n != 0 then n else 1
      case None => 1
  }

  /** Any non-zero count written in decimal comes through unchanged, negative ones included. */
  lemma VariationCountOfDecimal(n: int)
    requires n != 0
    ensures VariationCount(Some(IntToDecimal(n))) == n
  {
    ParseIntOfDecimal(n, "");
    assert IntToDecimal(n) + "" == IntToDecimal(n);
  }

  /** "3" gives 3 and "-2" gives -2: negative counts are not clamped. */
  lemma VariationCountExamples()
    ensures VariationCount(Some("3")) == 3
    ensures VariationCount(Some("-2")) == -2
  {
    assert IntToDecimal(3) == "3";
    VariationCountOfDecimal(3);
    assert IntToDecimal(-2) == "-2";
    VariationCountOfDecimal(-2);
  }

  /** "0" parses to the falsy 0, which becomes 1. */
  lemma VariationCountOfZero()
    ensures VariationCount(Some("0")) == 1
  {
    ParseIntOfDecimal(0, "");
    assert IntToDecimal(0) + "" == "0";
  }

  /** Text with no leading digit is NaN, which becomes 1, as does an absent field. */
  lemma VariationCountOfNonNumeric()
    ensures VariationCount(Some("abc")) == 1
    ensures VariationCount(None) == 1
  {
    assert !IsWhitespace('a');
    assert LeadingWhitespace("abc") == 0;
    assert DigitValue('a', 10).None?;
  }

  // ---------------------------------------------------------------------------
  // The lookup as JavaScript performs it
  // ---------------------------------------------------------------------------

  /** Property names every object literal inherits from Object.prototype. */
  const ObjectPrototypeNames: set<string> := {
    "constructor", "__proto__", "hasOwnProperty", "isPrototypeOf", "propertyIsEnumerable",
    "toLocaleString", "toString", "valueOf",
    "__defineGetter__", "__defineSetter__", "__lookupGetter__", "__lookupSetter__"
  }

  /** What `table[key]` yields on an object literal: an own entry, an inherited member, or undefined. */
  datatype Lookup = Own(text: string) | Inherited(name: string) | Undefined

  /** `table[key]` with JavaScript's prototype chain: an absent key reads the property "undefined". */
  function LookupAsWritten(table: map<string, string>, key: Option<string>): (r: Lookup)
    ensures r.Own? <==> key.Some? && key.value in table
    ensures r.Inherited? <==> key.Some? && key.value !in table && key.value in ObjectPrototypeNames
    ensures r.Own? ==> r.text == table[key.value]
    ensures r.Inherited? ==> r.name == key.value
  {
    if key.None? then Undefined
    else if key.value in table then Own(table[key.value])
    else if key.value in ObjectPrototypeNames then Inherited(key.value)
    else Undefined
  }

  /**
   * `table[key] || table[fallback]` as written: an inherited member is a
   * function or an object, hence truthy, so it is chosen over the fallback.
   */
  function GuideAsWritten(table: map<string, string>, key: Option<string>, fallback: string): (r: Lookup)
    requires fallback in table
    ensures r.Inherited? <==> key.Some? && key.value !in table && key.value in ObjectPrototypeNames
    ensures r.Inherited? ==> r.name == key.value
    ensures !r.Inherited? ==> r == Own(Guide(table, key, fallback))
  {
    match LookupAsWritten(table, key)
    case Own(t) => if t != "" then Own(t) else Own(table[fallback])
    case Inherited(name) => Inherited(name)
    case Undefined => Own(table[fallback])
  }

  /**
   * The discrepancy: "toString" is not a style preset, yet as written it
   * selects Object.prototype.toString instead of the "detailed" description;
   * likewise "constructor" for the focus table.
   */
  lemma InheritedNameBypassesDefault()
    ensures "toString" !in StyleGuides && GuideAsWritten(StyleGuides, Some("toString"), "detailed") == Inherited("toString")
    ensures "constructor" !in FocusGuides && GuideAsWritten(FocusGuides, Some("constructor"), "full") == Inherited("constructor")
    ensures StyleGuide(Some("toString")) == StyleGuides["detailed"]
  {
  }

  /** Away from inherited names the written lookup and Guide agree. */
  lemma AsWrittenAgreesOnOtherKeys(table: map<string, string>, key: Option<string>, fallback: string)
    requires fallback in table
    requires key.None? || key.value in table || key.value !in ObjectPrototypeNames
    ensures GuideAsWritten(table, key, fallback) == Own(Guide(table, key, fallback))
  {
  }

  // ---------------------------------------------------------------------------
  // Prompt
  // ---------------------------------------------------------------------------

  /** The pieces the prompt is assembled from. */
  datatype PromptChoice = PromptChoice(variations: int, language: string, style: string, focus: string)

  const PromptOpening: string := "You are an expert AI image prompt engineer. Analyze the image and generate "
  const PromptAfterCount: string := " image generation prompt(s) in "
  const PromptAfterLanguage: string := ". Style: "
  const PromptAfterStyle: string := ", focusing on "
  const PromptClosing: string :=
    ". Return ONLY valid JSON with no markdown, no backticks, no extra text. Use this exact structure: "
    + "{\"analysis\":{\"subject\":\"\",\"style\":\"\",\"mood\":\"\",\"colors\":[],\"composition\":\"\",\"lighting\":\"\",\"technical\":\"\"},"
    + "\"prompts\":[{\"id\":1,\"title\":\"\",\"prompt\":\"\",\"negative_prompt\":\"\",\"style_tags\":[],\"aspect_ratio\":\"16:9\",\"quality_modifiers\":[]}],"
    + "\"metadata\":{\"model_suggested\":\"gemini-2.0-flash\",\"analysis_confidence\":0.95,\"image_type\":\"\"}}"

  /** The prompt template filled in with the chosen pieces, in order. */
  function RenderPrompt(c: PromptChoice): (p: string)
    ensures StartsWith(p, PromptOpening + IntToDecimal(c.variations) + PromptAfterCount)
    ensures Contains(p, c.language) && Contains(p, c.style) && Contains(p, c.focus)
  {
    TemplateContainsPieces(PromptOpening, IntToDecimal(c.variations), PromptAfterCount, c.language,
                           PromptAfterLanguage, c.style, PromptAfterStyle, c.focus, PromptClosing);
    PromptOpening + IntToDecimal(c.variations) + PromptAfterCount + c.language + PromptAfterLanguage
      + c.style + PromptAfterStyle + c.focus + PromptClosing
  }

  /** A template interleaved with four values starts with its head and contains each later value. */
  lemma TemplateContainsPieces(t0: string, v0: string, t1: string, v1: string, t2: string, v2: string,
                               t3: string, v3: string, t4: string)
    ensures var p := t0 + v0 + t1 + v1 + t2 + v2 + t3 + v3 + t4;
      StartsWith(p, t0 + v0 + t1) && Contains(p, v1) && Contains(p, v2) && Contains(p, v3)
  {
    var a1 := t0 + v0 + t1;
    var a2 := a1 + v1;
    var a3 := a2 + t2;
    var a4 := a3 + v2;
    var a5 := a4 + t3;
    var a6 := a5 + v3;
    StartsWithAppend(a1, a1, v1);
    StartsWithAppend(a2, a1, t2);
    StartsWithAppend(a3, a1, v2);
    StartsWithAppend(a4, a1, t3);
    StartsWithAppend(a5, a1, v3);
    StartsWithAppend(a6, a1, t4);
    ContainsAtEnd(a1, v1);
    ContainsAppend(a2, v1, t2);
    ContainsAppend(a3, v1, v2);
    ContainsAppend(a4, v1, t3);
    ContainsAppend(a5, v1, v3);
    ContainsAppend(a6, v1, t4);
    ContainsAtEnd(a3, v2);
    ContainsAppend(a4, v2, t3);
    ContainsAppend(a5, v2, v3);
    ContainsAppend(a6, v2, t4);
    ContainsAtEnd(a5, v3);
    ContainsAppend(a6, v3, t4);
  }

  /** What the request selects: count, language label, style and focus descriptions. */
  function ChoosePrompt(body: RequestBody): (c: PromptChoice)
    ensures c.variations != 0
    ensures c.style in StyleGuides.Values && c.focus in FocusGuides.Values
    ensures c.language == "Brazilian Portuguese" <==> body.language == Some("portuguese")
    ensures c.variations == VariationCount(body.variations) && c.language == OutputLanguage(body.language)
    ensures c.style == StyleGuide(body.style) && c.focus == FocusGuide(body.focus)
  {
    PromptChoice(VariationCount(body.variations), OutputLanguage(body.language), StyleGuide(body.style), FocusGuide(body.focus))
  }

  /** A technical-style, colour-focused request for three variations. */
  lemma TechnicalColorThree(body: RequestBody)
    requires body.style == Some("technical") && body.focus == Some("color") && body.variations == Some("3")
    ensures var p := RenderPrompt(ChoosePrompt(body));
      && StartsWith(p, PromptOpening + "3" + PromptAfterCount)
      && Contains(p, StyleGuides["technical"])
      && Contains(p, FocusGuides["color"])
  {
    VariationCountExamples();
    assert IntToDecimal(3) == "3";
  }

  // ---------------------------------------------------------------------------
  // The handler
  // ---------------------------------------------------------------------------

  /** `!imageBase64 || !imageMime` is false: both image fields are non-empty strings. */
  predicate HasImage(body: RequestBody)
    ensures HasImage(body) <==>
      && body.imageBase64.Some? && |body.imageBase64.value| > 0
      && body.imageMime.Some? && |body.imageMime.value| > 0
  {
    Truthy(body.imageBase64) && Truthy(body.imageMime)
  }

  /** The generateContent call: the prompt, then the inline image, capped at 2048 output tokens. */
  function AnalysisCall(body: RequestBody, apiKey: string): (call: GeminiCall)
    requires HasImage(body)
    ensures call.apiKey == apiKey && call.maxOutputTokens == MaxOutputTokens && |call.parts| == 2
    ensures call.parts[0] == Text(RenderPrompt(ChoosePrompt(body)))
    ensures call.parts[1] == InlineData(body.imageMime.value, body.imageBase64.value)
  {
    GeminiCall(apiKey, [Text(RenderPrompt(ChoosePrompt(body))), InlineData(body.imageMime.value, body.imageBase64.value)], MaxOutputTokens)
  }

  /**
   * For every request with an image, the instruction sent upstream asks for
   * the request's variation count and carries its language label and its
   * style and focus descriptions.
   */
  lemma CallCarriesChoice(body: RequestBody, apiKey: string)
    requires HasImage(body)
    ensures var text := AnalysisCall(body, apiKey).parts[0].text;
      && StartsWith(text, PromptOpening + IntToDecimal(VariationCount(body.variations)) + PromptAfterCount)
      && Contains(text, OutputLanguage(body.language))
      && Contains(text, StyleGuide(body.style))
      && Contains(text, FocusGuide(body.focus))
  {
    var c := ChoosePrompt(body);
    assert AnalysisCall(body, apiKey).parts[0].text == RenderPrompt(c);
  }

  /**
   * How the upstream outcome becomes the reply: a non-2xx status is mirrored
   * with the upstream message; an exception (transport, unreadable body, bad
   * JSON from the model) becomes 500 with its message; no text is 500.
   */
  function MapReply<J>(reply: Reply, parse: string -> Parsed<J>): (r: Response<J>)
    ensures r.status == 200 <==> r.body.Result?
    ensures r.body.Result? <==>
      && reply.Answered? && IsOk(reply.status) && Truthy(reply.body.text)
      && parse(Fence.Clean(reply.body.text.value)).Parsed?
    ensures reply.Transport? || reply.UnreadableBody? ==> r == Response(500, Error(reply.message))
    ensures reply.Answered? && !IsOk(reply.status) ==>
      r.status == reply.status &&
      r.body == Error(if Truthy(reply.body.errorMessage) then reply.body.errorMessage.value else UpstreamFallback)
    ensures reply.Answered? && IsOk(reply.status) && !Truthy(reply.body.text) ==> r == Response(500, Error(EmptyResponse))
    ensures reply.Answered? && IsOk(reply.status) && Truthy(reply.body.text) ==>
      match parse(Fence.Clean(reply.body.text.value))
      case Parsed(v) => r == Response(200, Result(v))
      case SyntaxError(m) => r == Response(500, Error(m))
  {
    match reply
    case Transport(m) => Response(500, Error(m))
    case UnreadableBody(_, m) => Response(500, Error(m))
    case Answered(status, body) =>
      if !IsOk(status) then
        Response(status, Error(if Truthy(body.errorMessage) then body.errorMessage.value else UpstreamFallback))
      else if !Truthy(body.text) then
        Response(500, Error(EmptyResponse))
      else
        match parse(Fence.Clean(body.text.value))
        case Parsed(v) => Response(200, Result(v))
        case SyntaxError(m) => Response(500, Error(m))
  }

  /**
   * The handler; `verb` is the HTTP request method. `gemini` answers the upstream call and `parse` stands for
   * JSON.parse; `apiKey` is the GEMINI_API_KEY environment variable.
   */
  function Handle<J>(verb: string, body: RequestBody, apiKey: Option<string>,
                     gemini: GeminiCall -> Reply, parse: string -> Parsed<J>): (r: Response<J>)
    ensures verb == "OPTIONS" ==> r == Response(200, NoBody)
    ensures verb != "OPTIONS" && verb != "POST" ==> r == Response(405, Error(MethodNotAllowed))
    ensures verb == "POST" && !HasImage(body) ==> r == Response(400, Error(MissingImage))
    ensures verb == "POST" && HasImage(body) && !Truthy(apiKey) ==> r == Response(500, Error(KeyNotConfigured))
    ensures verb == "POST" && HasImage(body) && Truthy(apiKey) ==>
      r == MapReply(gemini(AnalysisCall(body, apiKey.value)), parse)
    ensures r.body.NoBody? <==> verb == "OPTIONS"
  {
    if verb == "OPTIONS" then Response(200, NoBody)
    else if verb != "POST" then Response(405, Error(MethodNotAllowed))
    else if !HasImage(body) then Response(400, Error(MissingImage))
    else if !Truthy(apiKey) then Response(500, Error(KeyNotConfigured))
    else MapReply(gemini(AnalysisCall(body, apiKey.value)), parse)
  }

  /** A method other than POST is answered before the body is read: the body and everything else are irrelevant. */
  lemma MethodGateIgnoresRequest<J>(verb: string, b1: RequestBody, b2: RequestBody, k1: Option<string>, k2: Option<string>,
                                    g1: GeminiCall -> Reply, g2: GeminiCall -> Reply, p1: string -> Parsed<J>, p2: string -> Parsed<J>)
    requires verb != "POST"
    ensures Handle(verb, b1, k1, g1, p1) == Handle(verb, b2, k2, g2, p2)
  {
  }

  /** Without an API key the upstream is never consulted: the reply does not depend on it. */
  lemma MissingKeySkipsUpstream<J>(body: RequestBody, apiKey: Option<string>, g1: GeminiCall -> Reply, g2: GeminiCall -> Reply,
                                   parse: string -> Parsed<J>)
    requires !Truthy(apiKey)
    ensures Handle("POST", body, apiKey, g1, parse) == Handle("POST", body, apiKey, g2, parse)
  {
  }

  /** An upstream 429 with message "quota exceeded" reaches the caller as 429 with the same message. */
  lemma QuotaErrorMirrored<J>(body: RequestBody, apiKey: Option<string>, gemini: GeminiCall -> Reply, parse: string -> Parsed<J>)
    requires HasImage(body) && Truthy(apiKey)
    requires gemini(AnalysisCall(body, apiKey.value)) == Answered(429, ReplyBody(Some("quota exceeded"), None))
    ensures Handle("POST", body, apiKey, gemini, parse) == Response(429, Error("quota exceeded"))
  {
  }

  /** Model text wrapped in a ```json fence is parsed exactly as the bare payload would be. */
  lemma FencedTextParsedAsPayload<J>(payload: string, parse: string -> Parsed<J>)
    requires !Contains(payload, Fence.Fence) && payload != ""
    ensures MapReply(Answered(200, ReplyBody(None, Some("```json\n" + payload + "\n```"))), parse)
         == MapReply(Answered(200, ReplyBody(None, Some(payload))), parse)
  {
    Fence.CleanJsonFencedPayload(payload);
  }
}
