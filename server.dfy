/** The HTTP handlers (`server/index.js`). Each handler is a function from the request
    body and the outcome of its one external call (the chat-completion API, the mail
    transport) to the call it makes, if any, and the response it sends. */
module Server {
  import opened Options
  import opened Text

  const ModelName := "gpt-3.5-turbo"
  const SystemDirective :=
    "You are a professional meeting summarizer. Provide clear, structured summaries that are easy to read and actionable."
  const MaxTokens := 1000

  const DefaultFraming := "Please provide a comprehensive summary " + "of the following transcript:\n\n"
  const InstructionOpening := "Please summarize the following transcript " + "based on this instruction: \""
  const InstructionClosing := "\"\n\nTranscript:\n"
  const DefaultOriginalPrompt := "Default summary"

  const TranscriptRequired := "Transcript is required"
  const SummarizeFailedError := "Failed to generate summary"
  const FieldsRequired := "Recipients and summary are required"
  const ShareSucceeded := "Summary shared successfully"
  const ShareFailedError := "Failed to share summary"
  const DefaultSubject := "Meeting Summary"
  const DefaultSenderName := "Meeting Summarizer"
  const RecipientSeparator := ", "

  const HtmlHead := "\n      <h2>Meeting Summary</h2>\n      <p><strong>From:</strong> "
  const HtmlMiddle := "</p>\n      <hr>\n      <div style=\"white-space: pre-wrap;\">"
  const HtmlTail := "</div>\n      <hr>\n      <p><em>This summary was generated using AI Meeting Summarizer</em></p>\n    "

  /** JavaScript truthiness of a string field: present and not empty. */
  predicate Truthy(v: Option<string>)
  {
    v.Some? && v.value != ""
  }

  /** `v || fallback` for a string field. */
  function OrDefault(v: Option<string>, fallback: string): (r: string)
    ensures Truthy(v) ==> r == v.value
    ensures !Truthy(v) ==> r == fallback
  {
    if Truthy(v) then v.value else fallback
  }

  /** The JSON body of `POST /api/summarize`; a missing field is `None`. */
  datatype SummarizeBody = SummarizeBody(transcript: Option<string>, customPrompt: Option<string>)

  /** The JSON body of `POST /api/share`; a missing field is `None`. */
  datatype ShareBody = ShareBody(
    recipients: Option<seq<string>>, subject: Option<string>, summary: Option<string>, senderName: Option<string>)

  datatype ChatMessage = ChatMessage(role: string, content: string)

  /** The chat-completion request. The sampling temperature is not modelled. */
  datatype ModelRequest = ModelRequest(model: string, messages: seq<ChatMessage>, maxTokens: nat)

  /** What the chat-completion call did: return a first choice whose content is given,
      or throw (including a reply without choices) with the given message. */
  datatype ModelOutcome = Completed(content: string) | ModelThrew(message: string)

  /** The nodemailer options; `from` is the configured account, possibly unset. */
  datatype MailOptions = MailOptions(from: Option<string>, to: string, subject: string, html: string)

  /** What the mail transport did: accept the message, or throw with the given message. */
  datatype TransportOutcome = Sent | TransportThrew(message: string)

  /** The JSON a handler answers with. The success bodies carry `success: true`. */
  datatype ResponseBody =
    | Summarized(summary: string, originalPrompt: string)
    | Shared(message: string, recipients: nat)
    | Rejected(error: string)
    | Errored(error: string, details: string)

  datatype Response = Response(status: nat, body: ResponseBody)

  /** The model call `/api/summarize` made, if any, and its response. */
  datatype SummarizeExchange = SummarizeExchange(call: Option<ModelRequest>, response: Response)

  /** The mail `/api/share` handed to the transport, if any, and its response. */
  datatype ShareExchange = ShareExchange(mail: Option<MailOptions>, response: Response)

  /** The user prompt: the instruction framing when `customPrompt` is truthy, the default
      framing otherwise; the transcript always comes last, unchanged. */
  function Prompt(transcript: string, customPrompt: Option<string>): (r: string)
    ensures |r| > |transcript| && r[|r| - |transcript|..] == transcript
    ensures !Truthy(customPrompt) ==> |r| == |DefaultFraming| + |transcript| && r[..|DefaultFraming|] == DefaultFraming
    ensures Truthy(customPrompt) ==>
      && |r| == |InstructionOpening| + |customPrompt.value| + |InstructionClosing| + |transcript|
      && r[..|InstructionOpening|] == InstructionOpening
  {
    if Truthy(customPrompt) then
      var c := customPrompt.value;
      var r := InstructionOpening + c + InstructionClosing + transcript;
      assert r == InstructionOpening + (c + InstructionClosing) + transcript;
      ConcatSlices(InstructionOpening, c + InstructionClosing, transcript);
      assert r[|r| - |transcript|..] == transcript;
      r
    else
      var r := DefaultFraming + transcript;
      assert r[..|DefaultFraming|] == DefaultFraming;
      assert r[|r| - |transcript|..] == transcript;
      r
  }

  /** The instruction sits verbatim between the quotes of the instruction framing. */
  lemma PromptQuotesInstruction(transcript: string, c: string)
    requires c != ""
    ensures var r := Prompt(transcript, Some(c));
      && |r| == |InstructionOpening| + |c| + |InstructionClosing| + |transcript|
      && r[|InstructionOpening|..|InstructionOpening| + |c|] == c
      && r[|InstructionOpening| + |c|..|r| - |transcript|] == InstructionClosing
  {
    var r := Prompt(transcript, Some(c));
    assert r == InstructionOpening + c + InstructionClosing + transcript;
    var n := |InstructionOpening|;
    assert r[n..n + |c|] == c;
    assert r[n + |c|..|r| - |transcript|] == InstructionClosing;
  }

  /** The two framings never produce the same prompt, whatever the transcripts. */
  lemma FramingsDiffer(t: string, u: string, c: string)
    requires c != ""
    ensures Prompt(t, Some(c)) != Prompt(u, None)
  {
    var r, q := Prompt(t, Some(c)), Prompt(u, None);
    assert r[7] == r[..|InstructionOpening|][7];
    assert q[7] == q[..|DefaultFraming|][7];
  }

  /** The fixed two-message request for a prompt. */
  function ModelRequestFor(prompt: string): (m: ModelRequest)
    ensures |m.messages| == 2 && m.messages[0].role == "system" && m.messages[1].role == "user"
    ensures m.messages[1].content == prompt && m.maxTokens == 1000
  {
    ModelRequest(ModelName, [ChatMessage("system", SystemDirective), ChatMessage("user", prompt)], MaxTokens)
  }

  /** The chat-completion request `/api/summarize` makes: none without a truthy transcript,
      otherwise the system directive followed by the prompt. */
  function ModelCall(body: SummarizeBody): (call: Option<ModelRequest>)
    ensures call.None? <==> !Truthy(body.transcript)
    ensures call.Some? ==>
      && call.value.model == ModelName && call.value.maxTokens == MaxTokens
      && call.value.messages == [
           ChatMessage("system", SystemDirective),
           ChatMessage("user", Prompt(body.transcript.value, body.customPrompt))]
  {
    if Truthy(body.transcript) then Some(ModelRequestFor(Prompt(body.transcript.value, body.customPrompt)))
    else None
  }

  /** The response of `/api/summarize`: 400 without a truthy transcript; otherwise the model's
      text unchanged with the instruction echoed, or 500 with the upstream message. */
  function SummarizeResponse(body: SummarizeBody, outcome: ModelOutcome): (r: Response)
    ensures !Truthy(body.transcript) ==> r == Response(400, Rejected(TranscriptRequired))
    ensures Truthy(body.transcript) && outcome.Completed? ==>
      r == Response(200, Summarized(outcome.content, OrDefault(body.customPrompt, DefaultOriginalPrompt)))
    ensures Truthy(body.transcript) && outcome.ModelThrew? ==>
      r == Response(500, Errored(SummarizeFailedError, outcome.message))
  {
    if !Truthy(body.transcript) then Response(400, Rejected(TranscriptRequired))
    else
      match outcome
      case Completed(content) => Response(200, Summarized(content, OrDefault(body.customPrompt, DefaultOriginalPrompt)))
      case ModelThrew(message) => Response(500, Errored(SummarizeFailedError, message))
  }

  /** `POST /api/summarize`: a summary is answered only after a model call that completed,
      and a rejected body makes no call. */
  function HandleSummarize(body: SummarizeBody, outcome: ModelOutcome): (x: SummarizeExchange)
    ensures x.call == ModelCall(body) && x.response == SummarizeResponse(body, outcome)
    ensures x.response.body.Summarized? <==> x.call.Some? && outcome.Completed?
    ensures x.response.status == 400 <==> x.call.None?
    ensures x.response.status == 200 <==> x.response.body.Summarized?
  {
    SummarizeExchange(ModelCall(body), SummarizeResponse(body, outcome))
  }

  /** The message body: the sender name and the summary in their slots of the fixed template. */
  function EmailHtml(senderName: string, summary: string): (r: string)
    ensures |r| == |HtmlHead| + |senderName| + |HtmlMiddle| + |summary| + |HtmlTail|
    ensures r[..|HtmlHead|] == HtmlHead
    ensures r[|HtmlHead|..|HtmlHead| + |senderName|] == senderName
    ensures r[|HtmlHead| + |senderName|..|r| - |HtmlTail| - |summary|] == HtmlMiddle
    ensures r[|r| - |HtmlTail| - |summary|..|r| - |HtmlTail|] == summary
    ensures r[|r| - |HtmlTail|..] == HtmlTail
  {
    var r := HtmlHead + senderName + HtmlMiddle + summary + HtmlTail;
    TemplateSlots(HtmlHead, senderName, HtmlMiddle, summary, HtmlTail);
    r
  }

  /** Each piece of a five-part concatenation is the slice at its offset. */
  lemma TemplateSlots(a: string, b: string, c: string, d: string, e: string)
    ensures var r := a + b + c + d + e;
      && r[..|a|] == a
      && r[|a|..|a| + |b|] == b
      && r[|a| + |b|..|r| - |e| - |d|] == c
      && r[|r| - |e| - |d|..|r| - |e|] == d
      && r[|r| - |e|..] == e
  {
  }

  /** Two message bodies with equally long sender names are equal only for equal names and summaries. */
  lemma EmailHtmlInjective(s1: string, m1: string, s2: string, m2: string)
    requires |s1| == |s2| && EmailHtml(s1, m1) == EmailHtml(s2, m2)
    ensures s1 == s2 && m1 == m2
  {
    var r := EmailHtml(s1, m1);
    assert |m1| == |m2|;
  }

  /** The mail `/api/share` hands to the transport: none when recipients are missing or the
      summary is missing or empty; an empty recipient list still gets one. */
  function ShareMail(body: ShareBody, emailUser: Option<string>): (mail: Option<MailOptions>)
    ensures mail.None? <==> body.recipients.None? || !Truthy(body.summary)
    ensures mail.Some? ==>
      && mail.value.from == emailUser
      && mail.value.to == Join(body.recipients.value, RecipientSeparator)
      && mail.value.subject == OrDefault(body.subject, DefaultSubject)
      && mail.value.html == EmailHtml(OrDefault(body.senderName, DefaultSenderName), body.summary.value)
  {
    if body.recipients.None? || !Truthy(body.summary) then None
    else
      Some(MailOptions(
        emailUser,
        Join(body.recipients.value, RecipientSeparator),
        OrDefault(body.subject, DefaultSubject),
        EmailHtml(OrDefault(body.senderName, DefaultSenderName), body.summary.value)))
  }

  /** The response of `/api/share`: 400 for a missing field; otherwise the length of the recipient
      list as given, duplicates included, or 500 with the upstream message. */
  function ShareResponse(body: ShareBody, outcome: TransportOutcome): (r: Response)
    ensures body.recipients.None? || !Truthy(body.summary) ==> r == Response(400, Rejected(FieldsRequired))
    ensures body.recipients.Some? && Truthy(body.summary) && outcome.Sent? ==>
      r == Response(200, Shared(ShareSucceeded, |body.recipients.value|))
    ensures body.recipients.Some? && Truthy(body.summary) && outcome.TransportThrew? ==>
      r == Response(500, Errored(ShareFailedError, outcome.message))
  {
    if body.recipients.None? || !Truthy(body.summary) then Response(400, Rejected(FieldsRequired))
    else
      match outcome
      case Sent => Response(200, Shared(ShareSucceeded, |body.recipients.value|))
      case TransportThrew(message) => Response(500, Errored(ShareFailedError, message))
  }

  /** `POST /api/share`; `emailUser` is the configured sending account. Success is reported only
      for a mail the transport accepted, and a rejected body sends nothing. */
  function HandleShare(body: ShareBody, emailUser: Option<string>, outcome: TransportOutcome): (x: ShareExchange)
    ensures x.mail == ShareMail(body, emailUser) && x.response == ShareResponse(body, outcome)
    ensures x.response.body.Shared? <==> x.mail.Some? && outcome.Sent?
    ensures x.response.status == 400 <==> x.mail.None?
    ensures x.response.status == 200 <==> x.response.body.Shared?
  {
    ShareExchange(ShareMail(body, emailUser), ShareResponse(body, outcome))
  }

  /** The `to` header lists the recipients in order: splitting it at the separator gives them
      back, for a non-empty list of entries without spaces (every address the pattern accepts). */
  lemma ToHeaderListsRecipients(body: ShareBody, emailUser: Option<string>, outcome: TransportOutcome)
    requires body.recipients.Some? && |body.recipients.value| > 0 && Truthy(body.summary)
    requires forall k :: 0 <= k < |body.recipients.value| ==> ' ' !in body.recipients.value[k]
    ensures var x := HandleShare(body, emailUser, outcome);
      x.mail.Some? && Split(x.mail.value.to, RecipientSeparator) == body.recipients.value
  {
    assert EndsUniquely(RecipientSeparator);
    assert AllAvoid(body.recipients.value, RecipientSeparator);
    SplitJoin(body.recipients.value, RecipientSeparator);
  }
}
