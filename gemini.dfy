/**
 * The one upstream dependency both handlers share: a generateContent call to
 * the Gemini API. The network exchange itself is not modelled; a handler
 * describes the call it would make as a GeminiCall and receives the outcome
 * as a Reply, already reduced to the fields the handlers read from it.
 */
module Gemini {
  import opened Wrappers

  /** One entry of `contents[0].parts`: a text part or an inline image. */
  datatype Part = Text(text: string) | InlineData(mimeType: string, data: string)

  /**
   * A generateContent request: the API key (sent in the query string), the
   * parts of the single content entry and the `maxOutputTokens` setting.
   */
  datatype GeminiCall = GeminiCall(apiKey: string, parts: seq<Part>, maxOutputTokens: nat)

  /**
   * What the handlers read from a JSON reply body: `error?.message` and
   * `candidates?.[0]?.content?.parts?.[0]?.text`, each absent when the
   * path does not lead to a string.
   */
  datatype ReplyBody = ReplyBody(errorMessage: Option<string>, text: Option<string>)

  /**
   * How a call ends: fetch itself rejects (Transport), the reply arrives but
   * `response.json()` throws (UnreadableBody), or a JSON reply arrives with
   * an HTTP status (Answered). The messages are the thrown errors' `message`.
   */
  datatype Reply =
    | Transport(message: string)
    | UnreadableBody(status: int, message: string)
    | Answered(status: int, body: ReplyBody)

  /** `response.ok`: the status is in the 2xx range, that is, its class (hundreds digit) is 2. */
  predicate IsOk(status: int)
    ensures IsOk(status) <==> status / 100 == 2
  {
    200 <= status <= 299
  }
}
