/** The browser side (`client/src/App.js`): the recipient list the share form keeps,
    and the guards that decide whether a summarize or share request is sent and with
    which body. The component's React state is the `App` class; each handler is a method. */
module Client {
  import opened Options
  import opened Text
  import opened Email

  const DefaultSubject := "Meeting Summary"
  const DefaultSenderName := "Meeting Summarizer"

  const TranscriptMissing := "Please enter or upload a transcript first."
  const SummaryGenerated := "Summary generated successfully!"
  const SummaryFailed := "Failed to generate summary. Please try again."
  const NoRecipients := "Please add at least one recipient."
  const NoSummary := "No summary to share."
  const ShareFailed := "Failed to share summary. Please try again."

  /** The `type` of the status banner: `''`, `'success'` or `'error'`. */
  datatype Kind = Blank | Success | Error

  /** The status banner, `{ type, text }`. */
  datatype Message = Message(kind: Kind, text: string)

  const NoMessage := Message(Blank, "")

  /** The JSON body posted to `/api/summarize`. */
  datatype SummarizeRequest = SummarizeRequest(transcript: string, customPrompt: string)

  /** The JSON body posted to `/api/share`. */
  datatype ShareRequest = ShareRequest(recipients: seq<string>, subject: string, summary: string, senderName: string)

  /** How an HTTP call came back: a response with its `success` flag and payload, or a
      thrown error carrying the server's `error` field when there was one. */
  datatype Reply<T> = Delivered(success: bool, data: T) | Failed(error: Option<string>)

  /** `error.response?.data?.error || fallback`: the server's error text unless it is absent or empty. */
  function ErrorText(error: Option<string>, fallback: string): (r: string)
    ensures error.Some? && error.value != "" ==> r == error.value
    ensures error.None? || error.value == "" ==> r == fallback
  {
    if error.Some? && error.value != "" then error.value else fallback
  }

  /** The banner text after a share that the server reports as sent to `count` recipients. */
  function SharedText(count: nat): string
  {
    "Summary shared successfully with " + Decimal(count) + " recipient(s)!"
  }

  /** No address occurs twice. */
  predicate Distinct(xs: seq<string>)
  {
    forall i, j :: 0 <= i < j < |xs| ==> xs[i] != xs[j]
  }

  /** The recipient-list invariant: every entry passes `isValidEmail` and none is repeated. */
  predicate RecipientsOk(xs: seq<string>)
  {
    Distinct(xs) && forall x :: x in xs ==> IsValidEmail(x)
  }

  lemma DistinctCons(h: string, t: seq<string>)
    ensures Distinct([h] + t) <==> h !in t && Distinct(t)
  {
    var s := [h] + t;
    assert forall k :: 0 <= k < |t| ==> s[k + 1] == t[k];
    if h !in t && Distinct(t) {
      forall i, j | 0 <= i < j < |s| ensures s[i] != s[j] {
        if i == 0 { assert s[j] == t[j - 1]; assert s[j] in t; }
      }
    }
    if Distinct(s) {
      forall k | 0 <= k < |t| ensures t[k] != h { assert s[k + 1] != s[0]; }
    }
  }

  /** Appending an address the list lacks keeps it free of repeats. */
  lemma DistinctAppend(xs: seq<string>, e: string)
    requires Distinct(xs) && e !in xs
    ensures Distinct(xs + [e])
  {
    var s := xs + [e];
    forall i, j | 0 <= i < j < |s| ensures s[i] != s[j] {
      if j == |xs| { assert s[i] == xs[i]; assert s[i] in xs; }
      else { assert s[i] == xs[i] && s[j] == xs[j]; }
    }
  }

  /** Admitting a valid address that is not yet listed keeps the invariant and adds exactly it, at the end. */
  lemma AdmitKeepsRecipientsOk(xs: seq<string>, e: string)
    requires RecipientsOk(xs) && IsValidEmail(e) && e !in xs
    ensures RecipientsOk(xs + [e]) && |xs + [e]| == |xs| + 1 && (xs + [e])[|xs|] == e
  {
    DistinctAppend(xs, e);
  }

  /** The recipient field and the list it feeds. */
  datatype RecipientForm = RecipientForm(recipients: seq<string>, input: string)

  /** `handleRecipientInput` on values: on Enter, the trimmed input is appended and the field
      cleared when it is a valid address not yet listed; otherwise nothing changes. */
  function EnterRecipient(recipients: seq<string>, input: string, key: string): (r: RecipientForm)
    ensures var email := Trim(input);
      key == "Enter" && email != "" && IsValidEmail(email) && email !in recipients ==>
        r == RecipientForm(recipients + [email], "")
    ensures var email := Trim(input);
      !(key == "Enter" && email != "" && IsValidEmail(email) && email !in recipients) ==>
        r == RecipientForm(recipients, input)
    ensures RecipientsOk(recipients) ==> RecipientsOk(r.recipients)
    ensures |recipients| <= |r.recipients| <= |recipients| + 1
  {
    if key == "Enter" && Trim(input) != "" then
      var email := Trim(input);
      if IsValidEmail(email) && email !in recipients then
        assert RecipientsOk(recipients) ==> RecipientsOk(recipients + [email]) by {
          if RecipientsOk(recipients) { AdmitKeepsRecipientsOk(recipients, email); }
        }
        RecipientForm(recipients + [email], "")
      else RecipientForm(recipients, input)
    else RecipientForm(recipients, input)
  }

  /** `xs.filter(r => r !== e)`. */
  function Without(xs: seq<string>, e: string): (r: seq<string>)
    ensures forall x :: x in r <==> x in xs && x != e
    ensures |r| <= |xs|
    decreases |xs|
  {
    if xs == [] then []
    else (if xs[0] == e then [] else [xs[0]]) + Without(xs[1..], e)
  }

  /** Removal works piecewise, so the entries that stay keep their order. */
  lemma {:induction false} WithoutAppend(a: seq<string>, b: seq<string>, e: string)
    ensures Without(a + b, e) == Without(a, e) + Without(b, e)
    decreases |a|
  {
    if a != [] {
      assert (a + b)[1..] == a[1..] + b;
      WithoutAppend(a[1..], b, e);
    } else {
      assert a + b == b;
    }
  }

  /** Removing an address that is not listed changes nothing. */
  lemma {:induction false} WithoutAbsent(xs: seq<string>, e: string)
    requires e !in xs
    ensures Without(xs, e) == xs
    decreases |xs|
  {
    if xs != [] {
      assert xs[0] in xs;
      WithoutAbsent(xs[1..], e);
    }
  }

  /** Removing twice is removing once. */
  lemma WithoutIdempotent(xs: seq<string>, e: string)
    ensures Without(Without(xs, e), e) == Without(xs, e)
  {
    WithoutAbsent(Without(xs, e), e);
  }

  /** Removal keeps the recipient-list invariant. */
  lemma {:induction false} WithoutKeepsRecipientsOk(xs: seq<string>, e: string)
    requires RecipientsOk(xs)
    ensures RecipientsOk(Without(xs, e))
    decreases |xs|
  {
    if xs != [] {
      assert xs == [xs[0]] + xs[1..];
      DistinctCons(xs[0], xs[1..]);
      WithoutKeepsRecipientsOk(xs[1..], e);
      var r := Without(xs[1..], e);
      DistinctCons(xs[0], r);
    }
  }

  /** On a list without repeats, removing a listed address shortens it by exactly one. */
  lemma {:induction false} WithoutRemovesOne(xs: seq<string>, e: string)
    requires Distinct(xs) && e in xs
    ensures |Without(xs, e)| == |xs| - 1
    decreases |xs|
  {
    assert xs == [xs[0]] + xs[1..];
    DistinctCons(xs[0], xs[1..]);
    if xs[0] == e {
      WithoutAbsent(xs[1..], e);
    } else {
      WithoutRemovesOne(xs[1..], e);
    }
  }

  /** Removing the address just admitted restores the list. */
  lemma AdmitThenRemove(xs: seq<string>, e: string)
    requires e !in xs
    ensures Without(xs + [e], e) == xs
  {
    WithoutAppend(xs, [e], e);
    WithoutAbsent(xs, e);
    assert Without([e], e) == [];
  }

  /** A list without repeats has as many entries as distinct addresses. */
  lemma {:induction false} DistinctSize(xs: seq<string>)
    requires Distinct(xs)
    ensures |set x | x in xs| == |xs|
    decreases |xs|
  {
    if xs != [] {
      assert xs == [xs[0]] + xs[1..];
      DistinctCons(xs[0], xs[1..]);
      DistinctSize(xs[1..]);
      assert (set x | x in xs) == {xs[0]} + (set x | x in xs[1..]);
    }
  }

  /** The checks `generateSummary` makes before posting: a transcript that is blank once
      trimmed is refused; otherwise both fields are sent trimmed. */
  function SummarizeGuard(transcript: string, customPrompt: string): (r: Result<SummarizeRequest, string>)
    ensures r.Err? <==> AllSpace(transcript)
    ensures r.Err? ==> r.error == TranscriptMissing
    ensures r.Ok? ==> r.value.transcript == Trim(transcript) && r.value.customPrompt == Trim(customPrompt)
    ensures r.Ok? ==> r.value.transcript != "" && IsTrimmed(r.value.transcript) && IsTrimmed(r.value.customPrompt)
  {
    if Trim(transcript) == "" then Err(TranscriptMissing)
    else Ok(SummarizeRequest(Trim(transcript), Trim(customPrompt)))
  }

  /** The checks `shareSummary` makes before posting, recipients first and then the summary,
      and the body it posts: defaults replace only empty subject and sender name, and only
      the summary is trimmed. */
  function ShareGuard(recipients: seq<string>, subject: string, summary: string, senderName: string): (r: Result<ShareRequest, string>)
    ensures |recipients| == 0 ==> r == Err(NoRecipients)
    ensures |recipients| > 0 && AllSpace(summary) ==> r == Err(NoSummary)
    ensures r.Ok? <==> |recipients| > 0 && !AllSpace(summary)
    ensures r.Ok? ==> r.value.recipients == recipients
    ensures r.Ok? ==> r.value.summary == Trim(summary) && r.value.summary != ""
    ensures r.Ok? ==> r.value.subject == (if subject == "" then DefaultSubject else subject)
    ensures r.Ok? ==> r.value.senderName == (if senderName == "" then DefaultSenderName else senderName)
    ensures r.Ok? ==> r.value.subject != "" && r.value.senderName != ""
  {
    if |recipients| == 0 then Err(NoRecipients)
    else if Trim(summary) == "" then Err(NoSummary)
    else Ok(ShareRequest(
      recipients,
      if subject == "" then DefaultSubject else subject,
      Trim(summary),
      if senderName == "" then DefaultSenderName else senderName))
  }

  /** What one run of `generateSummary` does: the request it posts, if any, and the
      summary and banner it leaves behind. */
  datatype SummarizeEffect = SummarizeEffect(sent: Option<SummarizeRequest>, summary: string, message: Message)

  /** `generateSummary` on values: a blank transcript posts nothing and reports the
      error; otherwise the trimmed fields are posted, and only a successful reply replaces the summary. */
  function SummarizeStep(transcript: string, customPrompt: string, summary: string, reply: Reply<string>): (r: SummarizeEffect)
    ensures AllSpace(transcript) ==> r == SummarizeEffect(None, summary, Message(Error, TranscriptMissing))
    ensures !AllSpace(transcript) ==> r.sent == Some(SummarizeRequest(Trim(transcript), Trim(customPrompt)))
    ensures r.summary == (if r.sent.Some? && reply.Delivered? && reply.success then reply.data else summary)
    ensures r.sent.Some? && reply.Failed? ==> r.message == Message(Error, ErrorText(reply.error, SummaryFailed))
    ensures r.sent.Some? && reply.Delivered? && reply.success ==> r.message == Message(Success, SummaryGenerated)
    ensures r.sent.Some? && reply.Delivered? && !reply.success ==> r.message == NoMessage
  {
    match SummarizeGuard(transcript, customPrompt)
    case Err(e) => SummarizeEffect(None, summary, Message(Error, e))
    case Ok(request) =>
      match reply
      case Failed(error) => SummarizeEffect(Some(request), summary, Message(Error, ErrorText(error, SummaryFailed)))
      case Delivered(ok, data) =>
        if ok then SummarizeEffect(Some(request), data, Message(Success, SummaryGenerated))
        else SummarizeEffect(Some(request), summary, NoMessage)
  }

  /** What one run of `shareSummary` does: the request it posts, if any, and the share-form
      state and banner it leaves behind. */
  datatype ShareEffect = ShareEffect(
    sent: Option<ShareRequest>, recipients: seq<string>, subject: string, senderName: string,
    showShareForm: bool, message: Message)

  /** `shareSummary` on values: the guard's error posts nothing and changes only the banner;
      a successful reply clears the recipients, subject and sender name and hides the form;
      any other reply leaves them as they were. */
  function ShareStep(recipients: seq<string>, subject: string, summary: string, senderName: string,
                     showShareForm: bool, reply: Reply<nat>): (r: ShareEffect)
    ensures |recipients| == 0 ==> r.sent == None && r.message == Message(Error, NoRecipients)
    ensures |recipients| > 0 && AllSpace(summary) ==> r.sent == None && r.message == Message(Error, NoSummary)
    ensures r.sent.Some? <==> |recipients| > 0 && !AllSpace(summary)
    ensures r.sent.Some? ==> r.sent == Some(ShareGuard(recipients, subject, summary, senderName).value)
    ensures r.sent.Some? && reply.Delivered? && reply.success ==>
      && r.message == Message(Success, SharedText(reply.data))
      && r.recipients == [] && r.subject == "" && r.senderName == "" && !r.showShareForm
    ensures r.sent.None? || !(reply.Delivered? && reply.success) ==>
      r.recipients == recipients && r.subject == subject && r.senderName == senderName && r.showShareForm == showShareForm
    ensures r.sent.Some? && reply.Delivered? && !reply.success ==> r.message == NoMessage
    ensures r.sent.Some? && reply.Failed? ==> r.message == Message(Error, ErrorText(reply.error, ShareFailed))
  {
    match ShareGuard(recipients, subject, summary, senderName)
    case Err(e) => ShareEffect(None, recipients, subject, senderName, showShareForm, Message(Error, e))
    case Ok(request) =>
      match reply
      case Failed(error) =>
        ShareEffect(Some(request), recipients, subject, senderName, showShareForm, Message(Error, ErrorText(error, ShareFailed)))
      case Delivered(ok, count) =>
        if ok then ShareEffect(Some(request), [], "", "", false, Message(Success, SharedText(count)))
        else ShareEffect(Some(request), recipients, subject, senderName, showShareForm, NoMessage)
  }

  /** The `App` component's state. Loading flags are not modelled. */
  class App {
    var transcript: string
    var customPrompt: string
    var summary: string
    var showShareForm: bool
    var recipients: seq<string>
    var recipientInput: string
    var subject: string
    var senderName: string
    var message: Message

    /** The invariant the recipient handlers keep. */
    ghost predicate Valid()
      reads this
    {
      RecipientsOk(recipients)
    }

    /** The `useState` initial values. */
    constructor ()
      ensures Valid()
      ensures transcript == "" && customPrompt == "" && summary == ""
      ensures !showShareForm && recipients == [] && recipientInput == ""
      ensures subject == "" && senderName == "" && message == NoMessage
    {
      transcript, customPrompt, summary := "", "", "";
      showShareForm := false;
      recipients, recipientInput := [], "";
      subject, senderName := "", "";
      message := NoMessage;
    }

    /** `handleRecipientInput`: on Enter, admit the trimmed input if it is a valid address not yet listed. */
    method HandleRecipientInput(key: string)
      modifies this`recipients, this`recipientInput
      ensures var step := EnterRecipient(old(recipients), old(recipientInput), key);
        recipients == step.recipients && recipientInput == step.input
      ensures old(Valid()) ==> Valid()
    {
      ghost var step := EnterRecipient(recipients, recipientInput, key);
      if key == "Enter" && Trim(recipientInput) != "" {
        var email := Trim(recipientInput);
        if IsValidEmail(email) && email !in recipients {
          assert step == RecipientForm(recipients + [email], "");
          recipients := recipients + [email];
          recipientInput := "";
        } else {
          assert step == RecipientForm(recipients, recipientInput);
        }
      } else {
        assert step == RecipientForm(recipients, recipientInput);
      }
    }

    /** `removeRecipient`: drop every entry equal to `email`. */
    method RemoveRecipient(email: string)
      modifies this`recipients
      ensures recipients == Without(old(recipients), email)
      ensures email !in recipients
      ensures old(Valid()) ==> Valid()
    {
      if Valid() {
        WithoutKeepsRecipientsOk(recipients, email);
      }
      recipients := Without(recipients, email);
    }

    /** The share button's click handler: show or hide the share form. */
    method ToggleShareForm()
      modifies this`showShareForm
      ensures showShareForm == !old(showShareForm)
    {
      showShareForm := !showShareForm;
    }

    /** `generateSummary`: guard, post the trimmed fields, and react to the reply. */
    method GenerateSummary(reply: Reply<string>) returns (sent: Option<SummarizeRequest>)
      modifies this`summary, this`message
      ensures var step := SummarizeStep(old(transcript), old(customPrompt), old(summary), reply);
        sent == step.sent && summary == step.summary && message == step.message
    {
      ghost var step := SummarizeStep(transcript, customPrompt, summary, reply);
      var guard := SummarizeGuard(transcript, customPrompt);
      if guard.Err? {
        assert step == SummarizeEffect(None, summary, Message(Error, guard.error));
        message := Message(Error, guard.error);
        return None;
      }
      message := NoMessage;
      sent := Some(guard.value);
      match reply
      case Failed(error) =>
        assert step == SummarizeEffect(sent, summary, Message(Error, ErrorText(error, SummaryFailed)));
        message := Message(Error, ErrorText(error, SummaryFailed));
      case Delivered(ok, data) =>
        if ok {
          assert step == SummarizeEffect(sent, data, Message(Success, SummaryGenerated));
          summary := data;
          message := Message(Success, SummaryGenerated);
        } else {
          assert step == SummarizeEffect(sent, summary, NoMessage);
        }
    }

    /** `shareSummary`: guard, post the share body, and on success reset the share form. */
    method ShareSummary(reply: Reply<nat>) returns (sent: Option<ShareRequest>)
      modifies this`message, this`recipients, this`subject, this`senderName, this`showShareForm
      ensures var step := ShareStep(old(recipients), old(subject), old(summary), old(senderName), old(showShareForm), reply);
        && sent == step.sent && message == step.message && recipients == step.recipients
        && subject == step.subject && senderName == step.senderName && showShareForm == step.showShareForm
      ensures old(Valid()) ==> Valid()
    {
      ghost var step := ShareStep(recipients, subject, summary, senderName, showShareForm, reply);
      var guard := ShareGuard(recipients, subject, summary, senderName);
      if guard.Err? {
        assert step == ShareEffect(None, recipients, subject, senderName, showShareForm, Message(Error, guard.error));
        message := Message(Error, guard.error);
        return None;
      }
      message := NoMessage;
      sent := Some(guard.value);
      match reply
      case Failed(error) =>
        assert step == ShareEffect(sent, recipients, subject, senderName, showShareForm,
                                   Message(Error, ErrorText(error, ShareFailed)));
        message := Message(Error, ErrorText(error, ShareFailed));
      case Delivered(ok, count) =>
        if !ok {
          assert step == ShareEffect(sent, recipients, subject, senderName, showShareForm, NoMessage);
        } else {
          assert step == ShareEffect(sent, [], "", "", false, Message(Success, SharedText(count)));
          assert RecipientsOk([]);
          message := Message(Success, SharedText(count));
          showShareForm := false;
          recipients := [];
          subject := "";
          senderName := "";
        }
    }
  }
}
