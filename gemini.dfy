/**
 * What both API handlers share: the outbound request to the generation
 * service, the nested path by which its answer text is reached, and the
 * shape of the HTTP responses the handlers return.
 */
module Gemini {
  import opened Wrappers
  import opened Json

  /** The generation endpoint; the API key is appended to it. */
  const Endpoint: string := "https://generativelanguage.googleapis.com/v1beta/models/gemini-2.0-flash:generateContent?key="

  /** One part of a request: inline binary data (base64 text) with its MIME type, or plain text. */
  datatype Part = InlineData(mimeType: string, data: string) | TextPart(text: string)

  datatype Content = Content(parts: seq<Part>)

  /** The request body `{ contents: [...] }`. */
  datatype Payload = Payload(contents: seq<Content>)

  /** The one upstream call a handler makes: where it goes and what it carries. */
  datatype Outbound = Outbound(url: string, body: Payload)

  /** An HTTP response of a handler: status and JSON body. */
  datatype Response = Response(status: int, body: Json)

  /** What one handler invocation does: the upstream call it made, if any, and its response. */
  datatype Exchange = Exchange(call: Option<Outbound>, response: Response)

  /** The key as a template literal writes it: the text `undefined` when the variable is unset. */
  function KeyText(apiKey: Option<string>): string {
    match apiKey
    case None => "undefined"
    case Some(k) => k
  }

  /** `!process.env.GEMINI_API_KEY` is false: the variable is set and not empty. */
  predicate Configured(apiKey: Option<string>)
    // a truthy string; the URL then carries the key itself
    ensures Configured(apiKey) <==> apiKey.Some? && Truthy(Some(Str(apiKey.value)))
    ensures Configured(apiKey) ==> KeyText(apiKey) == apiKey.value
  {
    apiKey.Some? && apiKey.value != ""
  }

  /** The request URL for a given key configuration: the endpoint, then the key text. */
  function RequestUrl(apiKey: Option<string>): (url: string)
    ensures |url| == |Endpoint| + |KeyText(apiKey)|
    ensures url[..|Endpoint|] == Endpoint
    ensures url[|Endpoint|..] == KeyText(apiKey)
  {
    Endpoint + KeyText(apiKey)
  }

  /** A response whose body is `{ error: message }`. */
  function ErrorResponse(status: int, message: string): Response {
    Response(status, Single("error", Str(message)))
  }

  /** The response is an error response with a non-empty message. */
  predicate IsErrorWithMessage(r: Response) {
    r.body.Obj? && r.body.fields.Keys == {"error"} &&
    r.body.fields["error"].Str? && r.body.fields["error"].s != ""
  }

  /** `v?.candidates?.[0]?.content?.parts?.[0]?.text`. */
  function AnswerText(v: Option<Json>): (r: Option<Json>)
    // every step of the chain must exist: a text is found only in an object with `candidates`
    ensures r.Some? ==> v.Some? && v.value.Obj? && "candidates" in v.value.fields
    ensures r.Some? ==> Member(v, "candidates").value.Arr? || Member(v, "candidates").value.Obj?
  {
    Member(First(Member(Member(First(Member(v, "candidates")), "content"), "parts")), "text")
  }

  /** The reply shape the service sends: one candidate whose content has one part holding `text`. */
  function CandidateReply(text: Json): Json {
    Single("candidates", Arr([Single("content", Single("parts", Arr([Single("text", text)])))]))
  }

  /**
   * The answer path reads back exactly what a well-formed reply carries, and
   * finds nothing in a reply that has no `candidates` field.
   */
  lemma AnswerTextOfReply(text: Json, other: map<string, Json>)
    ensures AnswerText(Some(CandidateReply(text))) == Some(text)
    ensures "candidates" !in other ==> AnswerText(Some(Obj(other))) == None
    ensures AnswerText(Some(Null)) == None && AnswerText(None) == None
  {
    var part := Single("text", text);
    var parts := Single("parts", Arr([part]));
    var content := Single("content", parts);
    assert Member(Some(CandidateReply(text)), "candidates") == Some(Arr([content]));
    assert First(Some(Arr([content]))) == Some(content);
    assert Member(Some(parts), "parts") == Some(Arr([part]));
    assert First(Some(Arr([part]))) == Some(part);
    NothingAlongAbsentPath(None);
    NothingAlongAbsentPath(Some(Null));
    if "candidates" !in other {
      NothingAlongAbsentPath(Some(Obj(other)));
    }
  }

  /** When the reply has no `candidates`, the whole path finds nothing. */
  lemma NothingAlongAbsentPath(v: Option<Json>)
    requires Member(v, "candidates") == None
    ensures AnswerText(v) == None
  {
    assert First(None) == None;
    assert Member(None, "parts") == None;
    assert Member(None, "text") == None;
  }
}
