/**
 * `POST /api/analyze-image`: one guard on the uploaded `file` field, a fixed
 * two-part request to the generation service, and the reply passed back
 * unchanged. Unlike the chat handler it never checks the key configuration.
 */
module AnalyzeImageRoute {
  import opened Wrappers
  import opened Json
  import opened Gemini

  /** An uploaded file: its declared MIME type and its content, already base64-encoded (opaque here). */
  datatype UploadedFile = UploadedFile(mimeType: string, base64: string)

  /** What `formData.get("file")` returns: nothing, a plain text field, or a file. */
  datatype FormValue = Missing | TextValue(s: string) | FileValue(file: UploadedFile)

  /** The request as `await req.formData()` sees it: a parsed form, or a parse failure. */
  datatype ImageRequest = Form(file: FormValue) | UnparsableForm

  /** The MIME type announced for every image, whatever was uploaded. */
  const ImageMimeType: string := "image/jpeg"

  /** The instruction sent after the image, with the indentation of the template literal it comes from. */
  const ImagePrompt: string := "\n        Give me a detailed nutrition analysis, disease risk, and healthy alternatives for the food item in this image.\n        "

  /** `!file`: the field is absent or is the empty string. */
  predicate NoFile(v: FormValue)
    // `!file`: undefined, or a falsy string; an uploaded File is an object and always truthy
    ensures NoFile(v) <==> v.Missing? || (v.TextValue? && !Truthy(Some(Str(v.s))))
    ensures v.FileValue? ==> !NoFile(v)
  {
    v.Missing? || v == TextValue("")
  }

  /**
   * The request body: one content with exactly two parts, the image first
   * (always announced as JPEG) and the instruction second.
   */
  function ImagePayload(file: UploadedFile): (p: Payload)
    ensures |p.contents| == 1 && |p.contents[0].parts| == 2
    ensures p.contents[0].parts[0] == InlineData(ImageMimeType, file.base64)
    ensures p.contents[0].parts[1] == TextPart(ImagePrompt)
  {
    Payload([Content([InlineData(ImageMimeType, file.base64), TextPart(ImagePrompt)])])
  }

  /**
   * The image handler. A missing or empty `file` field gives 400. Every
   * failure caught by the handler (an unreadable form, a text field that has
   * no `arrayBuffer`, an upstream call that throws) gives 500 with the fixed
   * message "Server Error". Otherwise the reply is returned unchanged under
   * `result` with status 200, whatever its content.
   */
  function AnalyzeImagePost(req: ImageRequest, apiKey: Option<string>, upstream: Fetched): (x: Exchange)
    ensures x.response.status == 400 <==> req.Form? && NoFile(req.file)
    ensures x.response.status == 400 ==> x == Exchange(None, ErrorResponse(400, "No file uploaded"))
    // no key check: a file is always sent upstream, whatever the configuration
    ensures x.call.Some? <==> req.Form? && req.file.FileValue?
    ensures x.call.Some? ==> x.call.value == Outbound(RequestUrl(apiKey), ImagePayload(req.file.file))
    // the reply is passed through without looking into it
    ensures x.response.status == 200 <==> x.call.Some? && upstream.Received?
    ensures x.response.status == 200 ==> x.response.body == Single("result", upstream.data)
    // the error's own message is never exposed
    ensures x.response.status != 200 && x.response.status != 400 ==> x.response == ErrorResponse(500, "Server Error")
  {
    match req
    case UnparsableForm => Exchange(None, ErrorResponse(500, "Server Error"))
    case Form(v) =>
      if NoFile(v) then
        Exchange(None, ErrorResponse(400, "No file uploaded"))
      else
        match v
        case TextValue(_) => Exchange(None, ErrorResponse(500, "Server Error"))
        case FileValue(file) =>
          var call := Outbound(RequestUrl(apiKey), ImagePayload(file));
          match upstream
          case Threw(_) => Exchange(Some(call), ErrorResponse(500, "Server Error"))
          case Received(data) => Exchange(Some(call), Response(200, Single("result", data)))
  }

  /**
   * The response does not depend on the key configuration, and the payload
   * does not depend on the uploaded MIME type: only the URL carries the key.
   */
  lemma ResponseIgnoresKeyAndMime(mime1: string, mime2: string, base64: string, key1: Option<string>, key2: Option<string>, upstream: Fetched)
    ensures var x1 := AnalyzeImagePost(Form(FileValue(UploadedFile(mime1, base64))), key1, upstream);
            var x2 := AnalyzeImagePost(Form(FileValue(UploadedFile(mime2, base64))), key2, upstream);
            x1.response == x2.response && x1.call.value.body == x2.call.value.body
  {
  }

  /**
   * The scenario of the handler's test: an uploaded file and a well-formed
   * reply give 200, and the reply's answer text can be read back from `result`.
   */
  lemma ResultCarriesAnswer(file: UploadedFile, apiKey: Option<string>, text: Json)
    ensures var x := AnalyzeImagePost(Form(FileValue(file)), apiKey, Received(CandidateReply(text)));
      x.response.status == 200 && AnswerText(Member(Some(x.response.body), "result")) == Some(text)
  {
    AnswerTextOfReply(text, map[]);
  }
}
