/**
 * The diagnostics handler: reports whether the API key is configured (as a
 * redacted preview), probes the upstream once when it is, and always answers
 * 200 with a fixed four-field record.
 */
module Diagnostics {
  import opened Wrappers
  import opened JsString
  import opened Gemini

  /** The JSON record the handler returns; the field names are GEMINI_API_KEY and gemini_connection on the wire. */
  datatype Report = Report(status: string, geminiApiKey: string, geminiConnection: string, nodeVersion: string)

  datatype DiagnosticsResponse = DiagnosticsResponse(statusCode: int, report: Report)

  const BackendOnline: string := "backend online ✓"
  const NotSet: string := "NOT SET"
  const NotTested: string := "not tested"
  const Connected: string := "connected ✓"
  const UpstreamErrorPrefix: string := "error: "
  const FetchErrorPrefix: string := "fetch error: "
  const PreviewLength: nat := 8

  function Min(a: int, b: int): int {
    if a <= b then a else b
  }

  /**
   * `key.slice(0, 8) + '...'` when a key is set, else "NOT SET": at most the
   * first eight characters of the key are shown, followed by an ellipsis.
   */
  function KeyPreview(apiKey: Option<string>): (r: string)
    ensures !Truthy(apiKey) ==> r == NotSet
    ensures Truthy(apiKey) ==>
      && |r| == Min(PreviewLength, |apiKey.value|) + 3 <= 11
      && r[..|r| - 3] == apiKey.value[..|r| - 3]
      && r[|r| - 3..] == "..."
  {
    if Truthy(apiKey) then
      var k := apiKey.value;
      k[..Min(PreviewLength, |k|)] + "..."
    else NotSet
  }

  /** The preview depends on nothing beyond the key's first eight characters. */
  lemma PreviewHidesRest(k1: string, k2: string)
    requires k1 != "" && k2 != ""
    requires k1[..Min(PreviewLength, |k1|)] == k2[..Min(PreviewLength, |k2|)]
    ensures KeyPreview(Some(k1)) == KeyPreview(Some(k2))
  {
  }

  /** The probe: the prompt "Say OK" with a ten-token output cap. */
  function ProbeCall(apiKey: string): (call: GeminiCall)
    ensures call.apiKey == apiKey && call.parts == [Text("Say OK")] && call.maxOutputTokens == 10
  {
    GeminiCall(apiKey, [Text("Say OK")], 10)
  }

  /**
   * The probe outcome as text. `r.json()` runs before `r.ok` is looked at,
   * so a body that is not JSON is a fetch error whatever the status.
   */
  function Classify(reply: Reply): (r: string)
    ensures r == Connected <==> reply.Answered? && IsOk(reply.status)
    ensures StartsWith(r, FetchErrorPrefix) <==> reply.Transport? || reply.UnreadableBody?
    ensures StartsWith(r, UpstreamErrorPrefix) <==> reply.Answered? && !IsOk(reply.status)
    ensures reply.Transport? || reply.UnreadableBody? ==> r == FetchErrorPrefix + reply.message
    ensures reply.Answered? && !IsOk(reply.status) ==>
      r == UpstreamErrorPrefix +
        (if Truthy(reply.body.errorMessage) then reply.body.errorMessage.value else IntToDecimal(reply.status))
    ensures r != NotTested
  {
    match reply
    case Transport(m) => PrefixedText(FetchErrorPrefix, m); FetchErrorPrefix + m
    case UnreadableBody(_, m) => PrefixedText(FetchErrorPrefix, m); FetchErrorPrefix + m
    case Answered(status, body) =>
      if IsOk(status) then
        assert Connected[0] != UpstreamErrorPrefix[0] && Connected[0] != FetchErrorPrefix[0];
        Connected
      else
        var detail := if Truthy(body.errorMessage) then body.errorMessage.value else IntToDecimal(status);
        PrefixedText(UpstreamErrorPrefix, detail);
        UpstreamErrorPrefix + detail
  }

  /** A status text built on one of the two prefixes is told apart from every other status text by its start. */
  lemma PrefixedText(prefix: string, x: string)
    requires prefix == FetchErrorPrefix || prefix == UpstreamErrorPrefix
    ensures StartsWith(prefix + x, prefix)
    ensures !StartsWith(prefix + x, if prefix == FetchErrorPrefix then UpstreamErrorPrefix else FetchErrorPrefix)
    ensures prefix + x != Connected && prefix + x != NotTested
  {
    assert (prefix + x)[..|prefix|] == prefix;
    assert (prefix + x)[0] == prefix[0];
  }

  /** `gemini_connection`: "not tested" without a key, otherwise the classified probe outcome. */
  function ConnectionStatus(apiKey: Option<string>, gemini: GeminiCall -> Reply): (r: string)
    ensures r == NotTested <==> !Truthy(apiKey)
    ensures Truthy(apiKey) ==> r == Classify(gemini(ProbeCall(apiKey.value)))
  {
    if Truthy(apiKey) then Classify(gemini(ProbeCall(apiKey.value))) else NotTested
  }

  /**
   * The handler: status 200 always, with the constant status line, the key
   * preview, the connection status and the runtime's version string.
   */
  function Diagnose(apiKey: Option<string>, nodeVersion: string, gemini: GeminiCall -> Reply): (r: DiagnosticsResponse)
    ensures r.statusCode == 200 && r.report.status == BackendOnline && r.report.nodeVersion == nodeVersion
    ensures r.report.geminiApiKey == KeyPreview(apiKey)
    ensures r.report.geminiConnection == ConnectionStatus(apiKey, gemini)
    ensures !Truthy(apiKey) ==> r.report.geminiApiKey == NotSet && r.report.geminiConnection == NotTested
  {
    DiagnosticsResponse(200, Report(BackendOnline, KeyPreview(apiKey), ConnectionStatus(apiKey, gemini), nodeVersion))
  }

  /** Without a key no probe is made: the report does not depend on the upstream. */
  lemma MissingKeySkipsProbe(apiKey: Option<string>, nodeVersion: string, g1: GeminiCall -> Reply, g2: GeminiCall -> Reply)
    requires !Truthy(apiKey)
    ensures Diagnose(apiKey, nodeVersion, g1) == Diagnose(apiKey, nodeVersion, g2)
  {
  }

  /** Two keys that agree on their first eight characters and meet the same upstream give the same report. */
  lemma ReportHidesKeyRest(k1: string, k2: string, nodeVersion: string, g1: GeminiCall -> Reply, g2: GeminiCall -> Reply)
    requires k1 != "" && k2 != ""
    requires k1[..Min(PreviewLength, |k1|)] == k2[..Min(PreviewLength, |k2|)]
    requires g1(ProbeCall(k1)) == g2(ProbeCall(k2))
    ensures Diagnose(Some(k1), nodeVersion, g1) == Diagnose(Some(k2), nodeVersion, g2)
  {
    PreviewHidesRest(k1, k2);
  }
}
