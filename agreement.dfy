/** The client and the server together: the bodies the client posts, the replies it reads
    back from the server's responses, and where the two sides' checks differ. */
module Agreement {
  import opened Options
  import opened Text
  import opened Email
  import opened Client
  import Server

  /** The JSON the client posts to `/api/summarize`: both fields are always present. */
  function SummarizeBodyOf(request: SummarizeRequest): (b: Server.SummarizeBody)
    ensures b.transcript == Some(request.transcript) && b.customPrompt == Some(request.customPrompt)
  {
    Server.SummarizeBody(Some(request.transcript), Some(request.customPrompt))
  }

  /** The JSON the client posts to `/api/share`: all four fields are always present. */
  function ShareBodyOf(request: ShareRequest): (b: Server.ShareBody)
    ensures b.recipients == Some(request.recipients) && b.subject == Some(request.subject)
    ensures b.summary == Some(request.summary) && b.senderName == Some(request.senderName)
  {
    Server.ShareBody(Some(request.recipients), Some(request.subject), Some(request.summary), Some(request.senderName))
  }

  /** How the client reads a response: a 2xx body is delivered, any other status makes the
      request throw, and the client then shows the body's `error`. */
  function SummarizeReplyOf(response: Server.Response): (r: Reply<string>)
    ensures response.body.Summarized? ==> r == Delivered(true, response.body.summary)
    ensures response.body.Rejected? || response.body.Errored? ==> r == Failed(Some(response.body.error))
  {
    match response.body
    case Summarized(summary, _) => Delivered(true, summary)
    case Shared(_, _) => Delivered(true, "")
    case Rejected(error) => Failed(Some(error))
    case Errored(error, _) => Failed(Some(error))
  }

  /** The share counterpart of `SummarizeReplyOf`; a delivered reply carries `recipients`. */
  function ShareReplyOf(response: Server.Response): (r: Reply<nat>)
    ensures response.body.Shared? ==> r == Delivered(true, response.body.recipients)
    ensures response.body.Rejected? || response.body.Errored? ==> r == Failed(Some(response.body.error))
  {
    match response.body
    case Summarized(_, _) => Delivered(true, 0)
    case Shared(_, count) => Delivered(true, count)
    case Rejected(error) => Failed(Some(error))
    case Errored(error, _) => Failed(Some(error))
  }

  /** Every body the client's guard lets through passes the server's check, so the model is called. */
  lemma ClientSummarizeRequestAccepted(transcript: string, customPrompt: string, outcome: Server.ModelOutcome)
    requires !AllSpace(transcript)
    ensures var request := SummarizeGuard(transcript, customPrompt).value;
      var x := Server.HandleSummarize(SummarizeBodyOf(request), outcome);
      && x.call.Some?
      && x.call.value.messages[1].content == Server.Prompt(Trim(transcript), Some(Trim(customPrompt)))
  {
  }

  /** A transcript of only whitespace: the client refuses it, the server sends it to the model. */
  lemma BlankTranscriptDivergence(transcript: string, outcome: Server.ModelOutcome)
    requires transcript != "" && AllSpace(transcript)
    ensures SummarizeGuard(transcript, "").Err?
    ensures Server.HandleSummarize(Server.SummarizeBody(Some(transcript), None), outcome).call.Some?
  {
  }

  /** An empty recipient list: the client refuses it, the server sends a message with an empty `to`
      and reports zero recipients. */
  lemma EmptyRecipientsDivergence(summary: string, emailUser: Option<string>)
    requires summary != "" && !AllSpace(summary)
    ensures ShareGuard([], "", summary, "") == Err(NoRecipients)
    ensures var x := Server.HandleShare(Server.ShareBody(Some([]), None, Some(summary), None), emailUser, Server.Sent);
      && x.mail.Some? && x.mail.value.to == ""
      && x.response == Server.Response(200, Server.Shared(Server.ShareSucceeded, 0))
  {
  }

  /** `generateSummary` against the server, for one model outcome. */
  function SummarizeRoundTrip(transcript: string, customPrompt: string, summary: string,
                              outcome: Server.ModelOutcome): SummarizeEffect
  {
    match SummarizeGuard(transcript, customPrompt)
    case Err(_) => SummarizeStep(transcript, customPrompt, summary, Failed(None))
    case Ok(request) =>
      SummarizeStep(transcript, customPrompt, summary, SummarizeReplyOf(Server.SummarizeResponse(SummarizeBodyOf(request), outcome)))
  }

  /** The model's text reaches the client's summary unchanged; a model failure leaves the summary
      as it was and shows the server's error, never the client's fallback text. */
  lemma SummarizeRoundTripOutcome(transcript: string, customPrompt: string, summary: string,
                                  outcome: Server.ModelOutcome)
    requires !AllSpace(transcript)
    ensures var e := SummarizeRoundTrip(transcript, customPrompt, summary, outcome);
      && e.sent.Some?
      && (outcome.Completed? ==> e.summary == outcome.content && e.message == Message(Success, SummaryGenerated))
      && (outcome.ModelThrew? ==> e.summary == summary && e.message == Message(Error, Server.SummarizeFailedError))
  {
    var request := SummarizeGuard(transcript, customPrompt).value;
    var reply := SummarizeReplyOf(Server.SummarizeResponse(SummarizeBodyOf(request), outcome));
    SummarizeReply(SummarizeBodyOf(request), outcome);
    assert ErrorText(Some(Server.SummarizeFailedError), SummaryFailed) == Server.SummarizeFailedError;
    assert SummarizeRoundTrip(transcript, customPrompt, summary, outcome)
        == SummarizeStep(transcript, customPrompt, summary, reply);
  }

  /** What the client reads back from `/api/summarize` for a body with a transcript. */
  lemma SummarizeReply(body: Server.SummarizeBody, outcome: Server.ModelOutcome)
    requires Server.Truthy(body.transcript)
    ensures var reply := SummarizeReplyOf(Server.SummarizeResponse(body, outcome));
      && (outcome.Completed? ==> reply == Delivered(true, outcome.content))
      && (outcome.ModelThrew? ==> reply == Failed(Some(Server.SummarizeFailedError)))
  {
  }

  /** `shareSummary` against the server, for one transport outcome. */
  function ShareRoundTrip(recipients: seq<string>, subject: string, summary: string, senderName: string,
                          showShareForm: bool, outcome: Server.TransportOutcome): ShareEffect
  {
    match ShareGuard(recipients, subject, summary, senderName)
    case Err(_) => ShareStep(recipients, subject, summary, senderName, showShareForm, Failed(None))
    case Ok(request) =>
      ShareStep(recipients, subject, summary, senderName, showShareForm, ShareReplyOf(Server.ShareResponse(ShareBodyOf(request), outcome)))
  }

  /** The mail the server builds from a request the client posts: the client's defaults make the
      server's own defaults unreachable, and the `to` header lists the client's recipients in order. */
  lemma ClientShareMail(recipients: seq<string>, subject: string, summary: string, senderName: string,
                        emailUser: Option<string>)
    requires |recipients| > 0 && !AllSpace(summary)
    ensures var request := ShareGuard(recipients, subject, summary, senderName).value;
      var mail := Server.ShareMail(ShareBodyOf(request), emailUser);
      && mail.Some?
      && mail.value.to == Join(recipients, Server.RecipientSeparator)
      && mail.value.subject == (if subject == "" then DefaultSubject else subject)
      && mail.value.html == Server.EmailHtml(if senderName == "" then DefaultSenderName else senderName, Trim(summary))
  {
  }

  /** Every recipient list the client can hold comes back intact from the `to` header:
      accepted addresses contain no space, so splitting at ", " finds only the joins. */
  lemma ClientToHeaderReadsBack(recipients: seq<string>, subject: string, summary: string, senderName: string,
                                emailUser: Option<string>)
    requires RecipientsOk(recipients) && |recipients| > 0 && !AllSpace(summary)
    ensures var request := ShareGuard(recipients, subject, summary, senderName).value;
      var mail := Server.ShareMail(ShareBodyOf(request), emailUser);
      mail.Some? && Split(mail.value.to, Server.RecipientSeparator) == recipients
  {
    forall k | 0 <= k < |recipients| ensures ' ' !in recipients[k] {
      ValidEmailIsTrimmed(recipients[k]);
      assert IsSpace(' ');
    }
    var request := ShareGuard(recipients, subject, summary, senderName).value;
    Server.ToHeaderListsRecipients(ShareBodyOf(request), emailUser, Server.Sent);
  }

  /** With the client's recipient invariant, a delivered share reports the number of distinct
      addresses, and the banner names exactly that number; a transport failure keeps the form. */
  lemma ShareRoundTripOutcome(recipients: seq<string>, subject: string, summary: string, senderName: string,
                              showShareForm: bool, outcome: Server.TransportOutcome)
    requires RecipientsOk(recipients) && |recipients| > 0 && !AllSpace(summary)
    ensures var e := ShareRoundTrip(recipients, subject, summary, senderName, showShareForm, outcome);
      && e.sent.Some?
      && (outcome.Sent? ==>
            && e.message == Message(Success, SharedText(|set x | x in recipients|))
            && e.recipients == [] && e.subject == "" && e.senderName == "" && !e.showShareForm)
      && (outcome.TransportThrew? ==>
            && e.message == Message(Error, Server.ShareFailedError)
            && e.recipients == recipients && e.subject == subject && e.senderName == senderName
            && e.showShareForm == showShareForm)
  {
    var request := ShareGuard(recipients, subject, summary, senderName).value;
    var reply := ShareReplyOf(Server.ShareResponse(ShareBodyOf(request), outcome));
    assert ShareRoundTrip(recipients, subject, summary, senderName, showShareForm, outcome)
        == ShareStep(recipients, subject, summary, senderName, showShareForm, reply);
    if outcome.Sent? {
      assert reply == Delivered(true, |recipients|);
      DistinctSize(recipients);
    } else {
      assert reply == Failed(Some(Server.ShareFailedError));
    }
  }

  /** A body the client could never post: the same address twice. The server does not
      deduplicate; it sends one message and reports two recipients. */
  lemma ServerCountsDuplicates(emailUser: Option<string>)
    ensures var x := Server.HandleShare(
      Server.ShareBody(Some(["a@example.com", "a@example.com"]), None, Some("Notes"), None), emailUser, Server.Sent);
      && x.mail.Some? && x.mail.value.to == "a@example.com, a@example.com"
      && x.response.body == Server.Shared(Server.ShareSucceeded, 2)
  {
    var xs := ["a@example.com", "a@example.com"];
    assert xs[1..] == ["a@example.com"];
    assert Join(xs, ", ") == "a@example.com" + ", " + "a@example.com";
  }

  /** The pattern accepts `a@example.com`, split after `a` and before `com`. */
  lemma ExampleAddressValid()
    ensures IsValidEmail("a@example.com")
  {
    var s := "a@example.com";
    assert s[1] == '@' && s[9] == '.';
    assert s[..1] == "a" && s[2..9] == "example" && s[10..] == "com";
    assert PlainRun(s[..1]) && PlainRun(s[2..9]) && PlainRun(s[10..]);
    assert EmailSplit(s, 1, 9);
  }

  /** On a fresh client, a valid address typed and entered twice is listed once. */
  method EnterAddressTwice(address: string) returns (recipients: seq<string>)
    requires IsValidEmail(address)
    ensures recipients == [address]
  {
    var app := new App();
    ValidEmailIsTrimmed(address);
    app.recipientInput := address;
    app.HandleRecipientInput("Enter");
    assert app.recipients == [address];
    app.recipientInput := address;
    app.HandleRecipientInput("Enter");
    recipients := app.recipients;
  }

  /** A default-framed summary request whose model call succeeds answers with the model's text. */
  lemma SummarizeExample()
    ensures var transcript := "Alice: Let's ship v2 Friday.";
      var x := Server.HandleSummarize(
        Server.SummarizeBody(Some(transcript), None), Server.Completed("Team agreed to ship v2 Friday."));
      && x.call.Some?
      && x.call.value.messages[1].content == Server.DefaultFraming + transcript
      && x.response == Server.Response(200, Server.Summarized("Team agreed to ship v2 Friday.", "Default summary"))
  {
  }

  /** A share request with empty subject and sender name: the server substitutes its defaults,
      and a subject of one space would be kept as it is. */
  lemma ShareExample(emailUser: Option<string>)
    ensures var x := Server.HandleShare(
      Server.ShareBody(Some(["bob@x.com", "carol@y.com"]), Some(""), Some("Ship v2 Friday"), Some("")),
      emailUser, Server.Sent);
      && x.response == Server.Response(200, Server.Shared(Server.ShareSucceeded, 2))
      && x.mail.Some? && x.mail.value.subject == "Meeting Summary"
      && x.mail.value.html == Server.EmailHtml("Meeting Summarizer", "Ship v2 Friday")
    ensures var x := Server.HandleShare(
      Server.ShareBody(Some(["bob@x.com"]), Some(" "), Some("Ship v2 Friday"), Some("")),
      emailUser, Server.Sent);
      x.mail.Some? && x.mail.value.subject == " "
  {
  }
}
