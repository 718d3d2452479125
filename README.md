# AI meeting-notes summarizer: a Dafny model of its client and server core

The application has two halves. A React page (`client/src/App.js`) holds a meeting
transcript, an optional custom instruction, the generated summary and a share form. The
form collects e-mail recipients. An Express server (`server/index.js`) does two things:
- it turns a summarize request into one chat-completion call;
- it turns a share request into one e-mail.

This project models:

- **Text**: the JavaScript string operations the code relies on.
  - `trim` is specified with the ECMAScript whitespace set.
  - `join(', ')` is specified with a `split` that undoes it.
  - The decimal rendering of a count inside a template string.
- **Email**: the `isValidEmail` pattern `^[^\s@]+@[^\s@]+\.[^\s@]+$`. It is written as
  the pattern reads: three runs of non-space, non-`@` characters, split by an `@` and a
  later `.`. A lemma proves it equal to an independent description of an address:
  - no whitespace;
  - exactly one `@`;
  - a non-empty local part;
  - a `.` strictly inside the domain.
- **Client**: the `App` component's state as a class, with one method per handler:
  - `handleRecipientInput`
  - `removeRecipient`
  - the share-form toggle
  - `generateSummary`
  - `shareSummary`

  Each handler's method is proved equal to a pure step function. The step function states
  the guard, the request body and what a reply does to the state. The class keeps one
  invariant: every listed recipient is a valid address, and none is listed twice.
- **Server**: the two POST handlers as pure functions of the parsed body and an outcome
  parameter. The outcome stands for what the chat model or the mail transport did. Each
  handler returns two things: the call it makes (model request or mail options) and the
  HTTP response.
- **Agreement**: the two halves together. It covers:
  - the bodies the client posts;
  - how the client reads the server's responses;
  - the round trips;
  - the places where the two sides' checks differ: a whitespace-only transcript, an empty
    recipient list, duplicate recipients.

The chat model, the mail transport, `process.env.EMAIL_USER` and the HTTP transport are
all outside the model. Each becomes a parameter:
- `ModelOutcome`: the model returned text, or it threw;
- `TransportOutcome`: the mail was sent, or sending threw;
- `emailUser`: the `from` address;
- `Reply`: what the client's request resolved to.

## Model

| member | source | states |
|---|---|---|
| Text.Trim | client/src/App.js:89-90 | the result has no whitespace at either end, and is empty exactly when the input is all whitespace |
| Text.TrimSpaceAround | client/src/App.js:89-90 | the trimmed string is a slice of the input with only whitespace before and after it |
| Text.TrimStart | client/src/App.js:58 | the result is a suffix of the input; only whitespace was cut off; it does not start with whitespace |
| Text.TrimEnd | client/src/App.js:58 | the result is a prefix of the input; only whitespace was cut off; it does not end with whitespace |
| Text.TrimEndOfTrimStart | client/src/App.js:58 | trimming the end after the start gives a trimmed string, empty exactly for an all-whitespace input |
| Text.TrimStartAt | client/src/App.js:58 | TrimStart removes exactly the maximal whitespace prefix |
| Text.TrimEndAt | client/src/App.js:58 | TrimEnd removes exactly the maximal whitespace suffix |
| Text.TrimUnique | client/src/App.js:58 | a slice with whitespace only outside it and none at its own ends is the trim: trim has one answer |
| Text.TrimIdempotent | client/src/App.js:68 | trimming an already trimmed string changes nothing |
| Text.TrimOfTrimmed | client/src/App.js:126 | a string with no whitespace at either end is its own trim |
| Text.Join | server/index.js:112 | joining one element gives that element, joining none gives the empty string |
| Text.Find | server/index.js:112 | the first occurrence of the separator, or none: no earlier position (or no position at all) holds it |
| Text.Split | server/index.js:112 | splitting always yields at least one part |
| Text.FindAbsent | server/index.js:112 | a separator whose last character is absent from the string is not found |
| Text.FindAfter | server/index.js:112 | in `x + sep + rest`, where `x` lacks the separator's last character and that character occurs only at the separator's end, the first separator is right after `x` |
| Text.SplitJoin | server/index.js:112 | splitting a non-empty join gives the elements back, when the separator's last character occurs only at its end and in no element (for ", ": no element contains a space) |
| Text.SplitJoinStep | server/index.js:112 | splitting a join of two or more elements peels off the first one |
| Text.Decimal | client/src/App.js:131 | the rendering of a count is non-empty, made of decimal digits, and canonical: "0" for zero, otherwise no leading zero |
| Text.DecimalRoundTrip | client/src/App.js:131 | reading the rendered digits back gives the count |
| Email.ValidEmailShape | client/src/App.js:102-105 | the pattern matches exactly the strings with no whitespace, exactly one `@`, a non-empty local part and a `.` strictly inside the domain |
| Email.PatternHasShape | client/src/App.js:103 | a match of the pattern has the address shape |
| Email.ShapeMatchesPattern | client/src/App.js:103 | a string of the address shape is matched by the pattern |
| Email.ValidEmailIsTrimmed | client/src/App.js:89-91 | an accepted address has no whitespace, is non-empty and is unchanged by trim |
| Client.ErrorText | client/src/App.js:80 | the banner shows the server's non-empty `error`, otherwise the fallback text |
| Client.DistinctCons | client/src/App.js:91 | a list with a head is duplicate-free exactly when the head is not in the tail and the tail is duplicate-free |
| Client.DistinctAppend | client/src/App.js:91-92 | appending an address not in a duplicate-free list keeps it duplicate-free |
| Client.AdmitKeepsRecipientsOk | client/src/App.js:91-92 | appending a valid, unlisted address keeps every entry valid and distinct, and puts the address last |
| Client.EnterRecipient | client/src/App.js:88-96 | on Enter, a non-empty trimmed input that is a valid unlisted address is appended and the input cleared; anything else changes nothing; the recipient invariant is kept and the list grows by at most one |
| Client.Without | client/src/App.js:98-100 | an address is in the result exactly when it is in the list and differs from the removed one; the list does not grow |
| Client.WithoutAppend | client/src/App.js:99 | the filter distributes over concatenation |
| Client.WithoutAbsent | client/src/App.js:99 | removing an unlisted address changes nothing |
| Client.WithoutIdempotent | client/src/App.js:99 | removing the same address twice is removing it once |
| Client.WithoutKeepsRecipientsOk | client/src/App.js:99 | removing keeps every entry valid and distinct |
| Client.WithoutRemovesOne | client/src/App.js:99 | in a duplicate-free list, removing a listed address shortens it by exactly one |
| Client.AdmitThenRemove | client/src/App.js:92 | removing an address right after admitting it restores the list |
| Client.DistinctSize | client/src/App.js:131 | a duplicate-free list has as many distinct addresses as entries |
| Client.SummarizeGuard | client/src/App.js:58-70 | the request is refused with the transcript message exactly when the transcript is all whitespace; otherwise both fields are sent trimmed and the transcript is non-empty |
| Client.ShareGuard | client/src/App.js:109-128 | no recipients, then a blank summary, are refused with their messages; otherwise the list is sent as is, the summary trimmed, and an empty subject or sender name replaced by its default |
| Client.SummarizeStep | client/src/App.js:57-85 | a refused request sends nothing and shows the error; a successful reply replaces the summary and shows success; an error reply keeps the summary and shows the server's error or the fallback |
| Client.ShareStep | client/src/App.js:108-146 | a refused request sends nothing; a successful reply clears recipients, subject and sender name, hides the form and reports the count; any other reply keeps the form as it was |
| Client.App.constructor | client/src/App.js:7-17 | every field starts at its `useState` initial value, and the recipient invariant holds |
| Client.App.HandleRecipientInput | client/src/App.js:88-96 | the new recipients and input are those of EnterRecipient, and the recipient invariant is kept |
| Client.App.RemoveRecipient | client/src/App.js:98-100 | the new recipients are the old ones without the address; the address is gone; the invariant is kept |
| Client.App.ToggleShareForm | client/src/App.js:266 | the share form's visibility flips |
| Client.App.GenerateSummary | client/src/App.js:57-85 | the request sent, the summary and the banner are those of SummarizeStep |
| Client.App.ShareSummary | client/src/App.js:108-146 | the request sent, the banner and the share-form fields are those of ShareStep, and the recipient invariant is kept |
| Server.OrDefault | server/index.js:113 | a truthy value is used as is, a missing or empty one is replaced by the fallback |
| Server.Prompt | server/index.js:55-57 | the prompt ends with the transcript; without an instruction it starts with the default framing, with one it starts with the instruction framing |
| Server.PromptQuotesInstruction | server/index.js:56 | a custom prompt is framing, instruction in quotes, closing text, then the transcript |
| Server.FramingsDiffer | server/index.js:55-57 | a prompt with an instruction never equals a prompt without one |
| Server.ModelRequestFor | server/index.js:59-73 | the request names the model, has a system then a user message, the user message is the prompt, and allows 1000 tokens |
| Server.ModelCall | server/index.js:51-73 | the model is called exactly when the transcript is truthy, with that request |
| Server.SummarizeResponse | server/index.js:51-89 | a falsy transcript gives 400 with its error; a model answer gives 200 with the text and the instruction or "Default summary"; a model failure gives 500 with the error and the failure's message |
| Server.HandleSummarize | server/index.js:47-90 | a summary is returned exactly when the model was called and answered; status 400 exactly when the model was not called; status 200 exactly for a summary |
| Server.EmailHtml | server/index.js:101-108 | the message body is the template with the sender name and the summary in their two slots |
| Server.TemplateSlots | server/index.js:101-108 | each of five concatenated pieces can be sliced back out |
| Server.EmailHtmlInjective | server/index.js:101-108 | two message bodies with sender names of equal length are equal only for the same sender name and summary |
| Server.ShareMail | server/index.js:97-115 | a mail is built exactly when recipients are present and the summary is truthy; it is addressed from the configured user to the joined recipients, with the subject or its default and the template body |
| Server.ShareResponse | server/index.js:97-131 | missing fields give 400; a sent mail gives 200 and the number of list entries; a transport failure gives 500 with the failure's message |
| Server.HandleShare | server/index.js:93-132 | success exactly when a mail was built and sent; status 400 exactly when no mail was built; status 200 exactly on success |
| Server.ToHeaderListsRecipients | server/index.js:112 | for a non-empty list of entries without spaces, the `to` header splits back at ", " into exactly the recipients posted |
| Agreement.SummarizeBodyOf | client/src/App.js:67-70 | the client always posts both summarize fields |
| Agreement.ShareBodyOf | client/src/App.js:123-128 | the client always posts all four share fields |
| Agreement.SummarizeReplyOf | client/src/App.js:72-80 | a summary response is read as a success with its text; any error response as a failure carrying its `error` |
| Agreement.ShareReplyOf | client/src/App.js:130-141 | a share response is read as a success with its count; any error response as a failure carrying its `error` |
| Agreement.ClientSummarizeRequestAccepted | server/index.js:51-57 | every request the client's guard lets through reaches the model, with the prompt built from the trimmed fields |
| Agreement.BlankTranscriptDivergence | server/index.js:51 | a whitespace-only transcript is refused by the client but sent to the model by the server |
| Agreement.EmptyRecipientsDivergence | server/index.js:97 | an empty recipient list is refused by the client but accepted by the server, which sends a mail with an empty `to` and reports zero recipients |
| Agreement.SummarizeRoundTripOutcome | client/src/App.js:66-81 | the model's text reaches the client's summary unchanged; a model failure keeps the summary and shows the server's error, never the client's fallback |
| Agreement.SummarizeReply | server/index.js:75-89 | for a body with a transcript, the client reads the model's text on success and the server's error on failure |
| Agreement.ClientShareMail | server/index.js:110-115 | for a request the client posts, the mail's `to` is the recipients joined with ", ", and the subject and body carry the client's defaults, so the server's defaults are never used |
| Agreement.ClientToHeaderReadsBack | server/index.js:112 | every recipient list the client can hold (valid, distinct, non-empty) splits back out of the `to` header the server builds, because accepted addresses contain no space |
| Agreement.ShareRoundTripOutcome | client/src/App.js:122-142 | with the recipient invariant, a delivered share reports the number of distinct addresses and clears the form; a transport failure shows the server's error and keeps the form |
| Agreement.ServerCountsDuplicates | server/index.js:119-123 | the server does not deduplicate: the same address twice gives one mail to both and a count of two |
| Agreement.ExampleAddressValid | client/src/App.js:103 | `a@example.com` matches the pattern |
| Agreement.EnterAddressTwice | client/src/App.js:88-96 | on a fresh page, a valid address entered twice is listed once |
| Agreement.SummarizeExample | server/index.js:55-81 | a default-framed request whose model call succeeds answers 200 with the model's text and "Default summary" |
| Agreement.ShareExample | server/index.js:110-115 | an empty subject and sender name are replaced by the defaults; a subject of one space is kept, because it is truthy |

## Left out

- Rendering, file upload, drag and drop and download: they are presentation only.
- The `isGenerating`/`isSharing` flags and the buttons' `disabled` expressions (`isGenerating || !transcript.trim()` at client/src/App.js:229, `isSharing || recipients.length === 0` at client/src/App.js:335): the handlers are modelled as callable at any time.
  - On the page, a second request cannot start while one is in flight; the model does not capture this.
  - The page never reaches the guards' first error paths: the `TranscriptMissing` banner of `SummarizeGuard` and the `NoRecipients` banner of `ShareGuard`. The model still states them, as the handlers' code does.
  - The `NoSummary` path of `ShareGuard` stays reachable from the page.
- Console logging on both sides: it is output only.
- The OpenAI and nodemailer client construction, the `temperature` setting, the environment variables other than the sender address, the health route, CORS/JSON middleware and `listen`: they are configuration outside the two handlers. The model outcome, the transport outcome and the `from` address are parameters instead.
- Request fields of a type other than string (numbers, objects) and a `recipients` value that is not an array: the body is modelled as optional strings and an optional list of strings.
- An empty `choices` array: the property access throws into the same `catch` as a failed call, so it is folded into `ModelThrew`.
- A request that fails without any HTTP response is modelled as `Failed(None)`, which shows the fallback text; the network itself is not modelled.
- React's batched, asynchronous state updates: each handler is modelled as one atomic step over the state it read when it started, so interleavings of two handlers in flight are not captured.
- Strings are sequences of code points, while JavaScript strings are UTF-16 code units; the whitespace set and the pattern only involve characters of the Basic Multilingual Plane, so trim and the pattern agree, but lengths of strings outside it differ.
- Text.Split: modelled only for a non-empty separator, the only way the code's `join` output is ever read back.
