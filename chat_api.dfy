/** The serverless chat-completion handler (Backend/api/chat.js), as a pure
    function from the request method, the parsed multipart form and the
    provider's parsed answer to the HTTP status and JSON body sent back, plus
    the text handed to the provider, if any. Parsing the form, calling the
    provider and reading its body can each throw; `Attempt` records that. */
module ChatApi {
  import opened Json

  /** An uploaded file as the multipart parser reports it. */
  datatype Upload = Upload(originalFilename: string)

  /** The parsed form: `fields.message` and `files.file`, each a list of
      values, or absent. */
  datatype Form = Form(message: Option<seq<string>>, file: Option<seq<Upload>>)

  /** The outcome of an awaited step that may throw. */
  datatype Attempt<T> = Done(value: T) | Threw

  datatype Response = Response(status: int, body: Json)

  /** What one invocation does: the response, and the text sent to the
      completion provider (`None` when the provider is not called). */
  datatype Outcome = Outcome(response: Response, providerText: Option<string>)

  const MethodNotAllowed: string := "Method not allowed"
  const InternalError: string := "Internal server error"
  const NoValidResponse: string := "\U{26A0}\U{FE0F} No valid response from Gemini."
  const UploadNote: string := "\nUser uploaded a file: "
  const FormatInstruction: string :=
    "\n\nPlease format your response using Markdown (headings, bold, bullet points, code blocks only when relevant). Respond concisely and clearly."

  /** `fields.message?.[0] || ""`. */
  function MessageField(form: Form): (m: string)
    ensures form.message.None? || form.message.value == [] ==> m == ""
    ensures form.message.Some? && form.message.value != [] ==> m == form.message.value[0]
  {
    match form.message
    case Some(values) => if |values| > 0 then values[0] else ""
    case None => ""
  }

  /** `files?.file?.[0]`. */
  function UploadedFile(form: Form): (f: Option<Upload>)
    ensures f.Some? <==> form.file.Some? && form.file.value != []
    ensures f.Some? ==> f.value == form.file.value[0]
  {
    match form.file
    case Some(files) => if |files| > 0 then Some(files[0]) else None
    case None => None
  }

  /** The prompt: the message alone without an upload, and the message
      followed by the upload note and the file name with one. */
  function Prompt(message: string, file: Option<Upload>): (p: string)
    ensures file.None? ==> p == message
    ensures file.Some? ==> |p| == |message| + |UploadNote| + |file.value.originalFilename|
    ensures file.Some? ==> p[..|message|] == message
    ensures file.Some? ==> p[|message|..|message| + |UploadNote|] == UploadNote
    ensures file.Some? ==> p[|message| + |UploadNote|..] == file.value.originalFilename
  {
    match file
    case Some(f) => message + UploadNote + f.originalFilename
    case None => message
  }

  /** The text sent to the provider: it starts with the prompt and ends with
      the fixed Markdown instruction. */
  function ProviderText(prompt: string): (t: string)
    ensures |t| == |prompt| + |FormatInstruction|
    ensures t[..|prompt|] == prompt
    ensures t[|prompt|..] == FormatInstruction
  {
    prompt + FormatInstruction
  }

  /** The reply chosen from the provider's answer:
      `candidates[0].content.parts[0].text`, else `candidates[0].content[0].text`,
      else the fixed fallback. The reply is always truthy: in particular a
      string reply is never empty. */
  function ReplyOf(data: Json): (reply: Json)
    ensures Truthy(Some(reply))
    ensures reply.JStr? ==> reply.s != ""
  {
    var content := Prop(First(Prop(Some(data), "candidates")), "content");
    var fromParts := Prop(First(Prop(content, "parts")), "text");
    var fromContent := Prop(First(content), "text");
    Or(fromParts, fromContent, JStr(NoValidResponse))
  }

  /** The handler. `form` is the result of parsing the request body and
      `provider` the provider's answer to `providerText` (both are only
      consulted when the handler reaches that step). The status is 200, 405
      or 500; the provider is called exactly for a POST whose form parses, and
      the answer is 200 exactly when that call succeeds too. */
  function Handle(httpMethod: string, form: Attempt<Form>, provider: Attempt<Json>): (o: Outcome)
    ensures o.response.status in {200, 405, 500}
    ensures o.response.status == 405 <==> httpMethod != "POST"
    ensures o.providerText.Some? <==> httpMethod == "POST" && form.Done?
    ensures o.response.status == 200 <==> httpMethod == "POST" && form.Done? && provider.Done?
  {
    if httpMethod != "POST" then
      Outcome(Response(405, Single("error", JStr(MethodNotAllowed))), None)
    else
      match form
      case Threw => Outcome(Response(500, Single("reply", JStr(InternalError))), None)
      case Done(f) =>
        var text := ProviderText(Prompt(MessageField(f), UploadedFile(f)));
        match provider
        case Threw => Outcome(Response(500, Single("reply", JStr(InternalError))), Some(text))
        case Done(data) => Outcome(Response(200, Single("reply", ReplyOf(data))), Some(text))
  }

  // ----- Properties -----

  /** Any method other than POST is refused with 405 before anything else
      happens, and the provider is not called. */
  lemma NonPostRejected(httpMethod: string, form: Attempt<Form>, provider: Attempt<Json>)
    requires httpMethod != "POST"
    ensures Handle(httpMethod, form, provider).response.status == 405
    ensures Prop(Some(Handle(httpMethod, form, provider).response.body), "error") == Some(JStr("Method not allowed"))
    ensures Handle(httpMethod, form, provider).providerText.None?
  {
  }

  /** The answer shape the provider documents:
      `{candidates: [{content: {parts: [{text: t}]}}]}`. */
  function GeminiAnswer(t: string): Json
  {
    Single("candidates", JArr([Single("content", Single("parts", JArr([Single("text", JStr(t))])))]))
  }

  /** The older shape the handler also accepts: `{candidates: [{content: [{text: t}]}]}`. */
  function LegacyAnswer(t: string): Json
  {
    Single("candidates", JArr([Single("content", JArr([Single("text", JStr(t))]))]))
  }

  /** The text of a well-formed answer is the reply; an empty text falls
      back to the fixed message. */
  lemma ReplyOfGeminiAnswer(t: string)
    ensures t != "" ==> ReplyOf(GeminiAnswer(t)) == JStr(t)
    ensures t == "" ==> ReplyOf(GeminiAnswer(t)) == JStr(NoValidResponse)
  {
    var c := Single("content", Single("parts", JArr([Single("text", JStr(t))])));
    assert Prop(Some(GeminiAnswer(t)), "candidates") == Some(JArr([c]));
    assert First(Some(JArr([c]))) == Some(c);
    var content := Single("parts", JArr([Single("text", JStr(t))]));
    assert Prop(Some(c), "content") == Some(content);
    assert Prop(Some(content), "parts") == Some(JArr([Single("text", JStr(t))]));
    assert First(Some(content)).None? by {
      assert "0" !in content.fields;
    }
  }

  /** The legacy shape is read through the second link of the chain. */
  lemma ReplyOfLegacyAnswer(t: string)
    ensures t != "" ==> ReplyOf(LegacyAnswer(t)) == JStr(t)
    ensures t == "" ==> ReplyOf(LegacyAnswer(t)) == JStr(NoValidResponse)
  {
    var body := JArr([Single("text", JStr(t))]);
    var c := Single("content", body);
    assert Prop(Some(LegacyAnswer(t)), "candidates") == Some(JArr([c]));
    assert First(Some(JArr([c]))) == Some(c);
    assert Prop(Some(c), "content") == Some(body);
    assert Prop(Some(body), "parts").None?;
  }

  /** An answer without candidates gets the fixed fallback reply. */
  lemma ReplyWithoutCandidates(data: Json)
    requires Prop(Some(data), "candidates").None?
    ensures ReplyOf(data) == JStr(NoValidResponse)
  {
  }

  /** A POST whose form parses answers 200 with `{reply}` when the provider
      answers and 500 with the fixed text when calling it throws; either way
      the provider was sent the prompt built from the form. A form that fails
      to parse answers 500 without calling the provider. */
  lemma PostOutcome(form: Attempt<Form>, provider: Attempt<Json>)
    ensures form.Threw? ==> Handle("POST", form, provider) == Outcome(Response(500, Single("reply", JStr(InternalError))), None)
    ensures form.Done? ==>
      Handle("POST", form, provider).providerText ==
        Some(ProviderText(Prompt(MessageField(form.value), UploadedFile(form.value))))
    ensures form.Done? && provider.Done? ==>
      Handle("POST", form, provider).response.status == 200 &&
      Prop(Some(Handle("POST", form, provider).response.body), "reply") == Some(ReplyOf(provider.value))
    ensures form.Done? && provider.Threw? ==>
      Handle("POST", form, provider).response == Response(500, Single("reply", JStr(InternalError)))
  {
  }

  /** Every POST answers with a truthy `reply` field, whatever happens. */
  lemma PostAlwaysReplies(form: Attempt<Form>, provider: Attempt<Json>)
    ensures Truthy(Prop(Some(Handle("POST", form, provider).response.body), "reply"))
    ensures Handle("POST", form, provider).response.status in {200, 500}
  {
  }
}
