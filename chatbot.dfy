/**
 * `POST /api/chatbot`: a chain of early-return guards over the request body,
 * the key configuration and the upstream reply, each mapped to a status and
 * a JSON body. The network call is abstracted as its outcome (`Fetched`), and
 * every exception the handler catches is an explicit input case.
 */
module ChatbotRoute {
  import opened Wrappers
  import opened Json
  import opened Text
  import opened Gemini

  /** The request body as `await req.json()` sees it: parsed JSON, or a parse error with its message. */
  datatype ChatRequest = JsonBody(body: Json) | UnparsableBody(message: string)

  /** The instruction text around the user's question. */
  const PromptHead: string := "\nYou are a professional nutritionist. Based on the user's question about food or health, give clear, practical, and accurate advice.\nQuestion: \""
  const PromptTail: string := "\"\n"
  const QuestionLabel: string := "Question: \""

  /** What V8 throws when `const { message } = null` destructures a JSON `null` body. */
  const NullBodyMessage: string := "Cannot destructure property 'message' of '(intermediate value)' as it is null."

  /**
   * The prompt sent upstream: the fixed instruction, then the message verbatim
   * between double quotes after `Question: `.
   */
  function Prompt(message: string): (p: string)
    ensures |p| == |PromptHead| + |message| + |PromptTail|
    ensures p[|PromptHead|..|PromptHead| + |message|] == message
    ensures OccursAt(p, QuestionLabel + message + "\"", |PromptHead| - |QuestionLabel|)
  {
    var p := PromptHead + message + PromptTail;
    assert p[|PromptHead| - |QuestionLabel|..|PromptHead|] == QuestionLabel;
    assert p[|PromptHead| - |QuestionLabel|..|PromptHead| + |message| + 1]
        == p[|PromptHead| - |QuestionLabel|..|PromptHead|] + message + "\"";
    p
  }

  /** Different messages give different prompts: the message can be read back from the prompt. */
  lemma PromptInjective(m1: string, m2: string)
    requires Prompt(m1) == Prompt(m2)
    ensures m1 == m2
  {
    assert |m1| == |m2|;
    assert m1 == Prompt(m1)[|PromptHead|..|PromptHead| + |m1|];
  }

  /** The request body: one content holding exactly one text part, the prompt. */
  function ChatPayload(message: string): (p: Payload)
    ensures |p.contents| == 1 && |p.contents[0].parts| == 1
    ensures p.contents[0].parts[0] == TextPart(Prompt(message))
  {
    Payload([Content([TextPart(Prompt(message))])])
  }

  /** `message` passes the input check: it is a string and not empty. */
  predicate ValidMessage(message: Option<Json>)
    // `!message || typeof message !== "string"` is false: a truthy string
    ensures ValidMessage(message) <==> Truthy(message) && message.value.Str?
  {
    message.Some? && message.value.Str? && message.value.s != ""
  }

  /** The 500 response of the catch block: the error's message, or "Server Error" when it has none. */
  function ServerError(message: string): (r: Response)
    ensures r.status == 500 && IsErrorWithMessage(r)
    ensures message != "" ==> r.body.fields["error"] == Str(message)
    ensures message == "" ==> r.body.fields["error"] == Str("Server Error")
  {
    ErrorResponse(500, if message != "" then message else "Server Error")
  }

  /**
   * The chat handler. Its guards run in this order: the body must parse and
   * not be `null` (else 500 from the catch block), `message` must be a
   * non-empty string (else 400), the key must be configured (else 500, and no
   * upstream call is made), the upstream call must not throw (else 500 with
   * its message), and its reply must hold a truthy answer text (else 500).
   * Only then is the answer returned, unchanged, with status 200.
   */
  function ChatbotPost(req: ChatRequest, apiKey: Option<string>, upstream: Fetched): (x: Exchange)
    // the catch block turns a failure to read the body into a 500 with its message
    ensures req.UnparsableBody? ==> x == Exchange(None, ServerError(req.message))
    ensures req == JsonBody(Null) ==> x == Exchange(None, ServerError(NullBodyMessage))
    // the input check comes before the key check: whatever the configuration
    ensures x.response.status == 400 <==> req.JsonBody? && req.body != Null && !ValidMessage(Member(Some(req.body), "message"))
    ensures x.response.status == 400 ==> x == Exchange(None, ErrorResponse(400, "Invalid input"))
    ensures req.JsonBody? && ValidMessage(Member(Some(req.body), "message")) && !Configured(apiKey) ==>
              x == Exchange(None, ErrorResponse(500, "Missing Gemini API key"))
    // an upstream call is made exactly when both checks pass, and carries the prompt
    ensures x.call.Some? <==> req.JsonBody? && ValidMessage(Member(Some(req.body), "message")) && Configured(apiKey)
    ensures x.call.Some? ==> x.call.value == Outbound(RequestUrl(apiKey), ChatPayload(Member(Some(req.body), "message").value.s))
    ensures x.call.Some? && upstream.Threw? ==> x.response == ServerError(upstream.message)
    ensures x.call.Some? && upstream.Received? && !Truthy(AnswerText(Some(upstream.data))) ==>
              x.response == ErrorResponse(500, "No answer from Gemini")
    // success is exactly a made call whose reply holds a truthy answer, returned as it is
    ensures x.response.status == 200 <==> x.call.Some? && upstream.Received? && Truthy(AnswerText(Some(upstream.data)))
    ensures x.response.status == 200 ==> x.response.body == Single("answer", AnswerText(Some(upstream.data)).value)
    // every failure carries a non-empty error message
    ensures x.response.status != 200 ==> x.response.status in {400, 500} && IsErrorWithMessage(x.response)
  {
    match req
    case UnparsableBody(m) => Exchange(None, ServerError(m))
    case JsonBody(body) =>
      if body == Null then
        Exchange(None, ServerError(NullBodyMessage))
      else
        var message := Member(Some(body), "message");
        if !ValidMessage(message) then
          Exchange(None, ErrorResponse(400, "Invalid input"))
        else if !Configured(apiKey) then
          Exchange(None, ErrorResponse(500, "Missing Gemini API key"))
        else
          var call := Outbound(RequestUrl(apiKey), ChatPayload(message.value.s));
          match upstream
          case Threw(m) => Exchange(Some(call), ServerError(m))
          case Received(data) =>
            var answer := AnswerText(Some(data));
            if !Truthy(answer) then
              Exchange(Some(call), ErrorResponse(500, "No answer from Gemini"))
            else
              Exchange(Some(call), Response(200, Single("answer", answer.value)))
  }

  /** The scenario of the handler's test: a question answered by a well-formed reply is returned with 200. */
  lemma AnsweredQuestion(question: string, answer: string, key: string)
    requires question != "" && answer != "" && key != ""
    ensures ChatbotPost(JsonBody(Single("message", Str(question))), Some(key), Received(CandidateReply(Str(answer))))
            == Exchange(Some(Outbound(RequestUrl(Some(key)), ChatPayload(question))), Response(200, Single("answer", Str(answer))))
  {
    AnswerTextOfReply(Str(answer), map[]);
  }

  /** The second scenario of the handler's test: a body without `message` is invalid input, and nothing is sent. */
  lemma MissingMessageRejected(apiKey: Option<string>, upstream: Fetched)
    ensures ChatbotPost(JsonBody(Obj(map[])), apiKey, upstream) == Exchange(None, ErrorResponse(400, "Invalid input"))
  {
  }
}
