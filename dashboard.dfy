/**
 * The client state of the dashboard page and the three handlers that change
 * it: `sendChatMessage`, `analyzeImage` and `clearImage`, with the file
 * selection that precedes an analysis and the typing that precedes a chat
 * message. The calls to the two endpoints are abstracted as their outcome
 * (`Fetched`): the parsed response body, or an error thrown by `fetch` or
 * `response.json()`. Each handler runs as one sequential step.
 */
module Dashboard {
  import opened Wrappers
  import opened Json
  import opened Text
  import opened Gemini
  import ChatbotRoute
  import AnalyzeImageRoute

  datatype Sender = User | Bot

  /** One entry of the chat log. The text is whatever value the page stores and displays. */
  datatype ChatMessage = ChatMessage(sender: Sender, message: Json)

  const Greeting: string := "Hi! I'm your nutrition assistant. Ask me anything about food, health, or nutrition!"
  const ChatFallback: string := "Sorry, I couldn't process that. Please try again."
  const ChatFailure: string := "Sorry, there was an error. Please try again."
  const AnalysisFallback: string := "Sorry, I couldn't analyze this image. Please try with a clearer food image."
  const AnalysisFailure: string := "Error analyzing image. Please try again."

  /**
   * The bot entry a chat request appends: the endpoint's `answer` when it is
   * truthy, the fixed fallback when it is not, and the fixed error text when
   * `fetch` or `response.json()` threw. `None` means no entry is appended:
   * `data.answer` is read inside the state updater, so for a `null` body the
   * TypeError is raised when React applies the update, outside the handler's
   * `try`, and the page's render fails instead of showing the error text.
   */
  function ChatReply(reply: Fetched): (m: Option<Json>)
    ensures m.None? <==> reply == Received(Null)
    ensures m.Some? ==> Truthy(m)
    ensures reply.Received? && reply.data != Null && Truthy(Member(Some(reply.data), "answer")) ==>
              m == Some(reply.data.fields["answer"])
    ensures reply.Received? && reply.data != Null && !Truthy(Member(Some(reply.data), "answer")) ==>
              m == Some(Str(ChatFallback))
    ensures reply.Threw? ==> m == Some(Str(ChatFailure))
  {
    match reply
    case Threw(_) => Some(Str(ChatFailure))
    case Received(data) =>
      if data == Null then None
      else
        var answer := Member(Some(data), "answer");
        if Truthy(answer) then answer else Some(Str(ChatFallback))
  }

  /**
   * The analysis shown for an image: `result.candidates[0].content.parts[0].text`
   * of the endpoint's body when it is truthy, the fixed "couldn't analyze"
   * text when it is not, and the fixed error text when the request threw
   * (reading `result` of a `null` body throws too).
   */
  function AnalysisReply(reply: Fetched): (r: Json)
    ensures Truthy(Some(r))
    ensures reply.Received? && reply.data != Null && Truthy(AnswerText(Member(Some(reply.data), "result"))) ==>
              r == AnswerText(Member(Some(reply.data), "result")).value
    ensures reply.Received? && reply.data != Null && !Truthy(AnswerText(Member(Some(reply.data), "result"))) ==>
              r == Str(AnalysisFallback)
    ensures reply.Threw? || reply.data == Null ==> r == Str(AnalysisFailure)
  {
    match reply
    case Threw(_) => Str(AnalysisFailure)
    case Received(data) =>
      if data == Null then Str(AnalysisFailure)
      else
        var text := AnswerText(Member(Some(data), "result"));
        if Truthy(text) then text.value else Str(AnalysisFallback)
  }

  /** The request body the page posts to the chat endpoint: `JSON.stringify({ message })`. */
  function ChatRequestFor(message: string): (req: ChatbotRoute.ChatRequest)
    // the body parses to an object whose only field is `message`, the text as typed
    ensures req.JsonBody? && req.body.Obj? && req.body.fields.Keys == {"message"}
    ensures Member(Some(req.body), "message") == Some(Str(message))
  {
    ChatbotRoute.JsonBody(Single("message", Str(message)))
  }

  /**
   * A chat round trip through the endpoint: a message the page sends is never
   * rejected as invalid input, and the bot shows the service's answer exactly
   * when the endpoint answered 200, the fixed fallback otherwise (the page
   * reads the body of an error response too, which has no `answer`). The
   * endpoint's body is always an object, never `null`, so a bot entry is
   * always appended.
   */
  lemma ChatThroughEndpoint(message: string, apiKey: Option<string>, upstream: Fetched)
    requires !Blank(message)
    ensures var x := ChatbotRoute.ChatbotPost(ChatRequestFor(message), apiKey, upstream);
      && x.response.status != 400
      && ChatReply(Received(x.response.body)) ==
           Some(if x.response.status == 200 then AnswerText(Some(upstream.data)).value else Str(ChatFallback))
  {
    assert message != "";
    var x := ChatbotRoute.ChatbotPost(ChatRequestFor(message), apiKey, upstream);
    assert Member(Some(Single("message", Str(message))), "message") == Some(Str(message));
    if x.response.status != 200 {
      assert x.response.body.fields.Keys == {"error"};
      assert Member(Some(x.response.body), "answer") == None;
    }
  }

  /**
   * An analysis round trip through the endpoint: the page shows the service's
   * text exactly when the upstream call succeeded with a truthy answer text,
   * and the "couldn't analyze" text otherwise, including when the endpoint
   * failed with 500 (the "Error analyzing" text appears only when the page's
   * own request throws).
   */
  lemma AnalysisThroughEndpoint(file: AnalyzeImageRoute.UploadedFile, apiKey: Option<string>, upstream: Fetched)
    ensures var x := AnalyzeImageRoute.AnalyzeImagePost(AnalyzeImageRoute.Form(AnalyzeImageRoute.FileValue(file)), apiKey, upstream);
      AnalysisReply(Received(x.response.body)) ==
        if upstream.Received? && Truthy(AnswerText(Some(upstream.data))) then AnswerText(Some(upstream.data)).value
        else Str(AnalysisFallback)
  {
    var x := AnalyzeImageRoute.AnalyzeImagePost(AnalyzeImageRoute.Form(AnalyzeImageRoute.FileValue(file)), apiKey, upstream);
    if upstream.Received? {
      assert Member(Some(x.response.body), "result") == Some(upstream.data);
    } else {
      assert Member(Some(x.response.body), "result") == None;
      NothingAlongAbsentPath(None);
    }
  }

  /**
   * The shape of the chat log: it starts with the greeting and then
   * alternates a user message with one bot reply; every user message is a
   * non-blank string and every entry is displayable (truthy).
   */
  ghost predicate WellFormedLog(log: seq<ChatMessage>) {
    && |log| % 2 == 1
    && log[0] == ChatMessage(Bot, Str(Greeting))
    && (forall k :: 0 <= k < |log| ==> (log[k].sender == User <==> k % 2 == 1))
    && (forall k :: 0 <= k < |log| && log[k].sender == User ==> IsQuestion(log[k].message))
    && (forall k :: 0 <= k < |log| ==> Truthy(Some(log[k].message)))
  }

  /** A user's message as the page stores it: a string that is not whitespace-only. */
  predicate IsQuestion(m: Json) {
    m.Str? && !Blank(m.s)
  }

  /** Appending a non-blank user message and a truthy bot reply keeps the log well formed. */
  lemma ExchangeKeepsLogWellFormed(log: seq<ChatMessage>, question: string, answer: Json)
    requires WellFormedLog(log) && !Blank(question) && Truthy(Some(answer))
    ensures WellFormedLog(log + [ChatMessage(User, Str(question)), ChatMessage(Bot, answer)])
  {
    var log' := log + [ChatMessage(User, Str(question)), ChatMessage(Bot, answer)];
    var n := |log|;
    assert question != "";
    forall k | 0 <= k < |log'| ensures (log'[k].sender == User <==> k % 2 == 1) {
      if k == n { assert n % 2 == 1; }
      else if k == n + 1 { assert (n + 1) % 2 == 0; }
      else { assert log'[k] == log[k]; }
    }
  }

  /** The page's state. */
  class DashboardPage {
    var imageFile: Option<AnalyzeImageRoute.UploadedFile>
    var imagePreview: Option<string>
    var analysisResult: Option<Json>
    var isAnalyzing: bool
    var chatMessages: seq<ChatMessage>
    var currentMessage: string
    var isChatting: bool
    /** A queued state update threw while React applied it, so the page failed to render. */
    var renderFailed: bool

    /** Until the page fails to render, the chat log keeps its shape. */
    ghost predicate Valid()
      reads this
    {
      renderFailed || WellFormedLog(chatMessages)
    }

    /** The initial state: no image, no result, nothing pending, the greeting alone in the log. */
    constructor ()
      ensures Valid()
      ensures imageFile == None && imagePreview == None && analysisResult == None && !isAnalyzing
      ensures chatMessages == [ChatMessage(Bot, Str(Greeting))] && currentMessage == "" && !isChatting
      ensures !renderFailed
    {
      imageFile := None;
      imagePreview := None;
      analysisResult := None;
      isAnalyzing := false;
      chatMessages := [ChatMessage(Bot, Str(Greeting))];
      currentMessage := "";
      isChatting := false;
      renderFailed := false;
    }

    /** The input's `onChange`: the typed text becomes the current message. */
    method TypeMessage(text: string)
      requires Valid()
      modifies this
      ensures Valid()
      ensures currentMessage == text
      ensures imageFile == old(imageFile) && imagePreview == old(imagePreview) && analysisResult == old(analysisResult)
      ensures isAnalyzing == old(isAnalyzing) && chatMessages == old(chatMessages) && isChatting == old(isChatting)
      ensures renderFailed == old(renderFailed)
    {
      currentMessage := text;
    }

    /** `handleImageUpload`: a chosen file becomes the image to analyse; choosing nothing changes nothing. */
    method SelectImage(file: Option<AnalyzeImageRoute.UploadedFile>)
      requires Valid()
      modifies this
      ensures Valid()
      ensures imageFile == if file.Some? then file else old(imageFile)
      ensures imagePreview == old(imagePreview) && analysisResult == old(analysisResult) && isAnalyzing == old(isAnalyzing)
      ensures chatMessages == old(chatMessages) && currentMessage == old(currentMessage) && isChatting == old(isChatting)
      ensures renderFailed == old(renderFailed)
    {
      if file.Some? {
        imageFile := file;
      }
    }

    /**
     * `analyzeImage`: without an image nothing happens, and nothing is sent;
     * otherwise the image is posted, and the analysis result becomes the
     * text read from the reply (or one of the two fixed messages), with the
     * busy flag cleared again at the end.
     */
    method AnalyzeImage(reply: Fetched) returns (sent: Option<AnalyzeImageRoute.ImageRequest>)
      requires Valid()
      modifies this
      ensures Valid()
      ensures sent == if old(imageFile).Some? then Some(AnalyzeImageRoute.Form(AnalyzeImageRoute.FileValue(old(imageFile).value))) else None
      ensures analysisResult == if old(imageFile).Some? then Some(AnalysisReply(reply)) else old(analysisResult)
      ensures isAnalyzing == (old(isAnalyzing) && old(imageFile).None?)
      ensures imageFile == old(imageFile) && imagePreview == old(imagePreview)
      ensures chatMessages == old(chatMessages) && currentMessage == old(currentMessage) && isChatting == old(isChatting)
      ensures renderFailed == old(renderFailed)
    {
      if imageFile.None? {
        return None;
      }
      isAnalyzing := true;
      sent := Some(AnalyzeImageRoute.Form(AnalyzeImageRoute.FileValue(imageFile.value)));
      analysisResult := Some(AnalysisReply(reply));
      isAnalyzing := false;
    }

    /**
     * `sendChatMessage`: a whitespace-only message changes nothing and sends
     * nothing. Otherwise the message is sent as typed, the input is cleared,
     * and the log grows by the user's message then one bot reply, with the
     * busy flag cleared again at the end. For a `null` reply body the bot
     * entry's updater throws when React applies it, so no bot entry is added
     * and the page fails to render.
     */
    method SendChatMessage(reply: Fetched) returns (sent: Option<ChatbotRoute.ChatRequest>)
      requires Valid()
      modifies this
      ensures Valid()
      ensures Blank(old(currentMessage)) ==>
        sent == None && chatMessages == old(chatMessages) && currentMessage == old(currentMessage) && isChatting == old(isChatting)
      ensures !Blank(old(currentMessage)) ==>
        && sent == Some(ChatRequestFor(old(currentMessage)))
        && chatMessages == old(chatMessages) + [ChatMessage(User, Str(old(currentMessage)))] +
             (if ChatReply(reply).Some? then [ChatMessage(Bot, ChatReply(reply).value)] else [])
        && currentMessage == ""
        && !isChatting
      // only a `null` body makes the page fail, and a page that has not failed keeps a well-formed log
      ensures renderFailed == (old(renderFailed) || (!Blank(old(currentMessage)) && reply == Received(Null)))
      ensures !renderFailed ==> WellFormedLog(chatMessages)
      ensures imageFile == old(imageFile) && imagePreview == old(imagePreview)
      ensures analysisResult == old(analysisResult) && isAnalyzing == old(isAnalyzing)
    {
      if Trim(currentMessage) == "" {
        return None;
      }
      var userMessage := currentMessage;
      var log := chatMessages;
      var userEntry := ChatMessage(User, Str(userMessage));
      chatMessages := chatMessages + [userEntry];
      currentMessage := "";
      isChatting := true;
      sent := Some(ChatRequestFor(userMessage));
      match ChatReply(reply) {
        case None =>
          renderFailed := true;
        case Some(answer) =>
          var botEntry := ChatMessage(Bot, answer);
          chatMessages := chatMessages + [botEntry];
          assert chatMessages == log + [userEntry, botEntry];
          if !renderFailed {
            ExchangeKeepsLogWellFormed(log, userMessage, answer);
          }
      }
      isChatting := false;
    }

    /** `clearImage`: the image, its preview and the analysis result are all reset; the chat is untouched. */
    method ClearImage()
      requires Valid()
      modifies this
      ensures Valid()
      ensures imageFile == None && imagePreview == None && analysisResult == None
      ensures isAnalyzing == old(isAnalyzing)
      ensures chatMessages == old(chatMessages) && currentMessage == old(currentMessage) && isChatting == old(isChatting)
      ensures renderFailed == old(renderFailed)
    {
      imageFile := None;
      imagePreview := None;
      analysisResult := None;
    }
  }
}
