# FoodTrient core in Dafny

FoodTrient is a Next.js nutrition assistant. Its dashboard page lets a user upload a food photo and chat about food. Two API routes stand between the page and the Gemini generation service:

- `POST /api/analyze-image` forwards the photo with a fixed prompt.
- `POST /api/chatbot` forwards a question wrapped in a nutritionist prompt.

This project models the logic of those three files:

- **`formatAnalysisResult`** (`formatter.dfy`, module `Formatter`). It cuts the analysis text into sections at blank lines. A section's title is its first non-blank line, kept exactly as written. The title picks a category by keyword, with the rules tried in order: nutrition, risk, recommendation, general. Each later non-blank line becomes a bullet, a key/value pair or plain text. Pure functions; the JSX, icons and colours are not modelled, but the structure they display is.
- **JavaScript string operations** (`text.dfy`, module `Text`) that the formatter and the page rely on: `trim` (the ECMAScript whitespace set), `indexOf`/`includes`, `split` with a string separator, and `toLowerCase`.
- **JSON values and optional chaining** (`json.dfy`, modules `Wrappers` and `Json`). `undefined` is `None`. The module gives `?.key`, `?.[0]`, truthiness, and the outcome of a `fetch` (a parsed body, or a thrown error).
- **What the routes and the page share** (`gemini.dfy`, module `Gemini`): the endpoint URL, the request payload and the shape of responses, used by both routes; and the answer path `candidates[0].content.parts[0].text`, read by the chat route and by the page (the image route passes the reply through unread).
- **`POST /api/chatbot`** (`chatbot.dfy`, module `ChatbotRoute`). The guard chain is modelled as a pure function from the request, the key configuration and the upstream outcome to an `Exchange`: the upstream call made, if any, and the HTTP response.
- **`POST /api/analyze-image`** (`analyze_image.dfy`, module `AnalyzeImageRoute`), modelled the same way.
- **The dashboard's client state** (`dashboard.dfy`, module `Dashboard`). It is a class whose fields are the page's `useState` variables. The methods are `sendChatMessage`, `analyzeImage` and `clearImage`, plus the file selection and typing that feed them. Each network round trip is a parameter (`Fetched`). A ghost invariant keeps the chat log well formed: the greeting first, then user message and bot reply alternating, every user message non-blank and every entry truthy.

Behaviour of the code that is easy to miss:

- An empty `file` form field (the empty string) is rejected with 400. A non-empty plain-text field passes the guard and then fails with 500, because a string has no `arrayBuffer`. Any uploaded `File`, even one of zero bytes, is truthy and is sent upstream.
- The image route never checks the key configuration. With the key unset, it calls a URL ending in `key=undefined`. The chat route refuses both an unset key and an empty one before it builds its URL, so only the image route can send `key=undefined`.
- A JSON `null` chat body throws at the destructuring. The catch block then answers 500 with that TypeError's message.
- `formatAnalysisResult` returns nothing (`null`) only for a missing or empty text. A whitespace-only text gives an empty list of sections.
- A key/value line keeps only the text up to a second colon: `Time: 10:30` shows `Time` / `10`.
- A line starting with `-` or `•` is a bullet even when it holds a colon.
- In `sendChatMessage`, `data.answer` is read inside the `setChatMessages` updater. A chat body that parses to `null` therefore throws when React applies the update, outside the `try`: no error message is appended, and the page fails to render. `/api/chatbot` itself always answers with an object.

## Model

| member | source | states |
|---|---|---|
| Json.Member | app/api/chatbot/route.js:35 | for the keys the code reads (`candidates`, `content`, `parts`, `text`, `result`, `answer`, `message`), `v?.key` is defined exactly when `v` is an object holding `key` as its own field, and then it is that field |
| Json.First | app/api/chatbot/route.js:35 | `v?.[0]` is the first array element, the object property "0", or the first character of a non-empty string, and is undefined for every other value |
| Json.Truthy | app/api/chatbot/route.js:37 | JavaScript truthiness: the falsy values are exactly `undefined`, `null`, `false`, `0` and the empty string |
| Json.Single | app/api/chatbot/route.js:41 | a response body `{ key: value }` has exactly that one key, holding that value |
| Text.Trim | app/dashboard/page.jsx:73 | `trim` gives a result no longer than the input; it is empty exactly when the input is whitespace-only; its first and last characters are not whitespace |
| Text.TrimIsInfix | app/dashboard/page.jsx:73 | the trim is a stretch of the input with only whitespace before and after it |
| Text.TrimIdempotent | app/dashboard/page.jsx:73 | a general property of `trim`: trimming a trimmed line changes nothing |
| Text.TrimUnpadded | app/dashboard/page.jsx:78 | a string with no whitespace at either end is its own trim |
| Text.TrimLeadingSpace | app/dashboard/page.jsx:78 | one leading whitespace character (the one after a bullet marker) does not change the trim |
| Text.IndexOf | app/dashboard/page.jsx:81 | the result is an occurrence of `sub` with none before it, and "none" means `sub` occurs nowhere |
| Text.Contains | app/dashboard/page.jsx:37 | `includes` holds exactly when `sub` occurs at some position |
| Text.Split | app/dashboard/page.jsx:24 | `split` gives at least one piece, joining the pieces with the separator gives the input back, and no piece contains the separator |
| Text.SplitHead | app/dashboard/page.jsx:82 | the first piece is the text before the first separator; there is a second piece exactly when the separator occurs, and the rest of the pieces are the split of what follows it |
| Text.SplitKeepsNonBlank | app/dashboard/page.jsx:24-27 | splitting a non-blank text at a whitespace separator leaves at least one non-blank piece |
| Text.LowerChar | app/dashboard/page.jsx:37 | upper-case ASCII letters map to lower case, every other character is unchanged, and no upper-case letter remains |
| Text.Lower | app/dashboard/page.jsx:37 | `toLowerCase` keeps the length and lower-cases position by position |
| Formatter.NonBlankOnly | app/dashboard/page.jsx:24 | `.filter(x => x.trim())` is no longer than its input, keeps only non-blank strings, and is empty exactly when all are blank |
| Formatter.NonBlankOnlyKeeps | app/dashboard/page.jsx:24 | a string is kept by the filter exactly when it is in the input and is not blank |
| Formatter.NonBlankOnlyAppend | app/dashboard/page.jsx:24 | the filter distributes over concatenation, so it keeps the original order |
| Formatter.FirstNonBlank | app/dashboard/page.jsx:27-28 | the position found is the first non-blank string, with only blank strings before it |
| Formatter.NonBlankOnlyFirst | app/dashboard/page.jsx:27-29 | the first kept line is the first non-blank line, and the kept lines after it are the filter of what follows it |
| Formatter.LowerContains | app/dashboard/page.jsx:37 | `title.toLowerCase().includes(word)` is the same as the title spelling `word` at some position, ignoring ASCII case |
| Formatter.Categorize | app/dashboard/page.jsx:31-52 | four if-and-only-if clauses: each category is chosen exactly when its keywords match and no earlier rule's keywords do |
| Formatter.IndexOfChar | app/dashboard/page.jsx:81 | `indexOf` of a one-character string finds the first position of that character, and finds one exactly when the character occurs |
| Formatter.ColonFields | app/dashboard/page.jsx:82 | for a line with a colon, `split(':')` gives at least two fields: the text before the first colon and the text up to the next colon |
| Formatter.SecondFieldOfRest | app/dashboard/page.jsx:82 | the second field is the text after the first colon, up to the next colon or the end of the line |
| Formatter.IsBulletLine | app/dashboard/page.jsx:74 | a trimmed line is a bullet exactly when it starts with `•` or `-` |
| Formatter.ClassifyLine | app/dashboard/page.jsx:72-95 | on the trimmed line: a bullet exactly when it starts with a marker, holding the trimmed rest; key/value exactly when it is not a bullet and holds a colon, with both fields trimmed; otherwise plain text, holding the trimmed line |
| Formatter.LinesOf | app/dashboard/page.jsx:27 | `section.split('\n')` gives at least one line, the lines join back to the section, and no line holds a line break |
| Formatter.SectionOf | app/dashboard/page.jsx:26-29 | the title is the first non-blank line, untrimmed; the body is the later non-blank lines, in order, each classified; title plus body are all the non-blank lines; the category comes from the title |
| Formatter.ClassifyAll | app/dashboard/page.jsx:72 | one display line per body line, in order, each classified |
| Formatter.SectionsOf | app/dashboard/page.jsx:26 | one section per piece, in order |
| Formatter.FormatAnalysisResult | app/dashboard/page.jsx:21-29 | `null` exactly for a missing or empty text; otherwise one section per non-blank `\n\n` piece, in order; no sections exactly when the text is whitespace-only |
| Formatter.BlankPieces | app/dashboard/page.jsx:24 | every piece of a whitespace-only text is whitespace-only |
| Formatter.AbsentLetter | app/dashboard/page.jsx:37-51 | a title with no character that lower-cases to some letter of a keyword does not mention that keyword |
| Formatter.NutritionExample | app/dashboard/page.jsx:37-41 | "Nutrition Breakdown" is a nutrition section |
| Formatter.FirstRuleWins | app/dashboard/page.jsx:37-46 | "Nutrition and Risk" matches two rules and falls under the first, nutrition |
| Formatter.RiskExample | app/dashboard/page.jsx:42-46 | "Disease Risk" is a risk section |
| Formatter.RecommendationExample | app/dashboard/page.jsx:47-51 | "Healthy Alternatives" is a recommendation section |
| Formatter.GeneralExample | app/dashboard/page.jsx:32-52 | "Summary" matches no keyword and is a general section |
| Formatter.BulletBeatsColon | app/dashboard/page.jsx:74-81 | `- text` is a bullet holding `text`, whatever colons `text` holds |
| Formatter.FirstColonUnique | app/dashboard/page.jsx:82 | a line has only one first colon |
| Formatter.SecondFieldUpTo | app/dashboard/page.jsx:82 | when the next colon after the first is at `j`, the second field is exactly the text between them |
| Formatter.SecondColonDropped | app/dashboard/page.jsx:81-86 | `key:first:more` shows key `key` and value `first`; the text after the second colon is dropped |
| Gemini.RequestUrl | app/api/analyze-image/route.js:18 | the URL is the endpoint followed by the key text, `undefined` when the key is unset (the image route builds it with no key check; the chat route builds the same URL at app/api/chatbot/route.js:21 only for a configured key) |
| Gemini.Configured | app/api/chatbot/route.js:12 | the key passes `!process.env.GEMINI_API_KEY` exactly when it is set to a truthy string, and the URL then carries that key |
| Gemini.AnswerText | app/api/chatbot/route.js:35 | the optional chain finds a text only in an object that has a `candidates` array or object |
| Gemini.AnswerTextOfReply | app/api/chatbot/route.js:35 | the answer path reads back the text of a well-formed reply, and finds nothing in a reply without `candidates` or in `null` |
| Gemini.NothingAlongAbsentPath | app/api/chatbot/route.js:35 | without `candidates`, the whole optional chain is undefined |
| ChatbotRoute.Prompt | app/api/chatbot/route.js:16-19 | the prompt is the instruction, then the message verbatim, quoted after `Question: ` |
| ChatbotRoute.PromptInjective | app/api/chatbot/route.js:16-19 | different messages give different prompts |
| ChatbotRoute.ChatPayload | app/api/chatbot/route.js:25-27 | the request body holds one content with exactly one text part, the prompt |
| ChatbotRoute.ValidMessage | app/api/chatbot/route.js:8 | `message` passes the input check exactly when it is a truthy string |
| ChatbotRoute.ServerError | app/api/chatbot/route.js:43-46 | the catch block answers 500 with the error's message, or "Server Error" when the message is empty |
| ChatbotRoute.ChatbotPost | app/api/chatbot/route.js:3-47 | the guards in order: a failed or `null` body gives 500 with the error's message; an invalid message gives 400 with no call, whatever the key; a missing key gives 500 with no call; a call is made exactly when both checks pass, carrying the prompt; a thrown call gives 500 with its message; 200 exactly when the reply's answer text is truthy, and the answer is returned unchanged; every failure carries a non-empty error |
| ChatbotRoute.AnsweredQuestion | app/__tests__/chatbot.test.js:21-34 | a question with a configured key and a well-formed reply gives 200 with the reply's text, after one call carrying the question |
| ChatbotRoute.MissingMessageRejected | app/__tests__/chatbot.test.js:36-48 | an empty body gives 400 "Invalid input" and no call, whatever the key and the upstream |
| AnalyzeImageRoute.NoFile | app/api/analyze-image/route.js:8 | `!file` holds exactly for a missing field or a falsy (empty) string; an uploaded file is never rejected |
| AnalyzeImageRoute.ImagePayload | app/api/analyze-image/route.js:23-32 | the request body holds one content with two parts: the image, always announced as `image/jpeg`, then the prompt |
| AnalyzeImageRoute.AnalyzeImagePost | app/api/analyze-image/route.js:3-42 | 400 exactly for a missing or empty field; a call is made exactly for an uploaded file, with no key check; 200 exactly when that call returns, with the reply unchanged under `result`; every other outcome is 500 "Server Error" |
| AnalyzeImageRoute.ResponseIgnoresKeyAndMime | app/api/analyze-image/route.js:18-37 | the response and the payload do not depend on the key configuration or on the uploaded MIME type |
| AnalyzeImageRoute.ResultCarriesAnswer | app/__tests__/analyze-image.test.js:25-59 | an uploaded file and a well-formed reply give 200, and the reply's text is found under `result` |
| Dashboard.ChatReply | app/dashboard/page.jsx:159-168 | the bot entry is the truthy `answer`, the fallback text when `answer` is falsy, or the error text when `fetch` or `response.json()` throws; it is always truthy; there is no entry exactly when the body is `null`, because `data.answer` is read inside the state updater, outside the `try` |
| Dashboard.AnalysisReply | app/dashboard/page.jsx:129-136 | the result is the truthy text under `result`, the "couldn't analyze" text when that is falsy, or the error text when the request throws; it is always truthy |
| Dashboard.ChatRequestFor | app/dashboard/page.jsx:156 | the posted body `{ message }` is an object whose only field is `message`, holding the text as typed |
| Dashboard.ChatThroughEndpoint | app/dashboard/page.jsx:151-163 | a non-blank message the page sends is never rejected as invalid input, a bot entry is always appended (the endpoint never answers `null`), and it shows the service's answer exactly when the endpoint answered 200 |
| Dashboard.AnalysisThroughEndpoint | app/dashboard/page.jsx:124-134 | the page shows the service's text exactly when the upstream call returned a truthy answer text, and "couldn't analyze" otherwise, including on the endpoint's 500 |
| Dashboard.ExchangeKeepsLogWellFormed | app/dashboard/page.jsx:146-163 | appending a non-blank user message and a truthy reply keeps the chat log well formed |
| Dashboard.DashboardPage.constructor | app/dashboard/page.jsx:8-17 | the initial state: no image, no result, not busy, the greeting alone in the log, an empty input, and a page that renders |
| Dashboard.DashboardPage.TypeMessage | app/dashboard/page.jsx:413 | typing sets the current message and nothing else; the chat log stays well formed |
| Dashboard.DashboardPage.SelectImage | app/dashboard/page.jsx:106-114 | a chosen file becomes the image; choosing nothing changes nothing; the chat log stays well formed |
| Dashboard.DashboardPage.AnalyzeImage | app/dashboard/page.jsx:116-140 | without an image nothing is sent and nothing changes; otherwise the image is posted, the result becomes the reply's reading, and the busy flag ends cleared; the chat log stays well formed |
| Dashboard.DashboardPage.SendChatMessage | app/dashboard/page.jsx:142-172 | a whitespace-only message sends nothing and changes nothing; otherwise the message is sent as typed, the input is cleared, the log grows by the user's entry and then one bot reply, the busy flag ends cleared, and the log stays well formed; for a `null` reply body no bot entry is added and the page is marked as failed to render |
| Dashboard.DashboardPage.ClearImage | app/dashboard/page.jsx:174-181 | the image, preview and result are reset, and the chat is untouched; the chat log stays well formed |

## Left out

- Rendering: the JSX, icons, colours, animations, tabs (`activeTab`), the landing page `app/page.jsx` and the `disabled` states of buttons are presentation only.
- The image preview: `FileReader` fills `imagePreview` asynchronously. The model never sets the preview; it only clears it, in `ClearImage`.
- `fileInputRef`: resetting the DOM input's value is a browser side effect.
- Dashboard.DashboardPage.SendChatMessage: runs as one atomic step. React's batched, asynchronous state updates and a second send interleaved across `await` are not modelled, so `isChatting` is only seen cleared at the end. A render that fails on a `null` chat body is only a flag (`renderFailed`). The error page, error boundaries and the fate of the other queued updates are not modelled, and once the flag is set the shape of the log is no longer promised.
- Dashboard.DashboardPage.AnalyzeImage: runs as one atomic step for the same reason, so `isAnalyzing` is only seen cleared at the end.
- The network, `fetch` and `response.json()` are parameters: the parsed body, or an error with its message. HTTP headers and the `method` are not modelled.
- The JSON serialisation of request payloads is not modelled. The payload is a datatype holding the same fields. `inline_data`/`mime_type` are spelled `InlineData`/`mimeType`.
- Base64 encoding of the uploaded file: the file's content is an opaque base64 string.
- `console.log`/`console.error` output.
- Json.Member: only an object's own fields are modelled. Inherited properties such as a string's `length` or an object's `constructor` are not, and the code reads none of them.
- Text.Lower: lower-cases ASCII letters only. JavaScript's full Unicode `toLowerCase` differs for characters such as the Kelvin sign, which lower-cases to `k` and so would make a title mention "risk".
- Strings are sequences of characters, not UTF-16 code units. `•` is one character either way.
- JSON numbers are integers. Floating point and `NaN` truthiness are not modelled.
- `formatAnalysisResult` is only modelled on text. Rendering a non-string analysis value (which `.split` would reject) is not modelled.
- The environment variable is an `Option<string>`. Its value is read once per request.
