/**
  What the listener reads out of a WhatsApp notification (`extractWhatsAppMessage`).

  The notification's extras are a plain value here: its title, text and big text (an absent
  entry reads as the empty string, as `orEmpty()` makes it) and the array of MessagingStyle
  sub-messages (an absent array is the empty sequence). An element of that array that is not
  a `Bundle` is `OtherParcel`, which the source's `as? Bundle` turns into `null`.
 */
module Extractor {
  import opened Text
  import opened SummaryClassifier

  /** One element of the `android.messages` array. */
  datatype SubMessage = MessageBundle(sender: string, text: string) | OtherParcel

  /** The extras of a posted notification. */
  datatype Payload = Payload(title: string, text: string, bigText: string, messages: seq<SubMessage>)

  /** The source's `ExtractedMessage`. */
  datatype ExtractedMessage = ExtractedMessage(title: string, text: string, isSummaryOnly: bool)

  /** The text built from the last sub-message: "sender: text" when both are non-blank, the
      message text alone when only it is, and "" otherwise. */
  function LastMessageText(messages: seq<SubMessage>): string
    requires messages != []
  {
    match messages[|messages| - 1]
    case OtherParcel => ""
    case MessageBundle(sender, msg) =>
      if !IsBlank(sender) && !IsBlank(msg) then sender + ": " + msg
      else if !IsBlank(msg) then msg
      else ""
  }

  /** The fall-back content: the big text when it is non-blank, else the text when it is,
      else "". */
  function FallbackText(p: Payload): string {
    if !IsBlank(p.bigText) then p.bigText
    else if !IsBlank(p.text) then p.text
    else ""
  }

  /** Whether the last sub-message yields a text, so that the MessagingStyle path is taken. */
  predicate HasMessageText(p: Payload) {
    p.messages != [] && !IsBlank(LastMessageText(p.messages))
  }

  /** `extractWhatsAppMessage`: the last sub-message when it yields a text, else the
      fall-back content, tagged as summary-only when the classifier says so. */
  function Extract(p: Payload): (r: ExtractedMessage)
    ensures r.title == p.title
    ensures r.isSummaryOnly ==> !IsBlank(r.text) && IsLikelySummary(r.text) && !HasMessageText(p)
  {
    if p.messages != [] && !IsBlank(LastMessageText(p.messages)) then
      ExtractedMessage(p.title, LastMessageText(p.messages), false)
    else
      var content := FallbackText(p);
      ExtractedMessage(p.title, content, IsLikelySummary(content) && !IsBlank(content))
  }

  // ---------------------------------------------------------------------------
  // Lemmas
  // ---------------------------------------------------------------------------

  /** The text built from a message bundle is blank exactly when the message text is. */
  lemma LastMessageTextBlank(messages: seq<SubMessage>)
    requires messages != []
    ensures IsBlank(LastMessageText(messages)) <==>
      (messages[|messages| - 1].OtherParcel? || IsBlank(messages[|messages| - 1].text))
  {
    match messages[|messages| - 1]
    case OtherParcel =>
    case MessageBundle(sender, msg) =>
      if !IsBlank(sender) && !IsBlank(msg) {
        BlankConcat(sender + ": ", msg);
      }
  }

  /** When the last sub-message is a bundle with a non-blank text, the extracted text is
      "sender: text" if the sender is non-blank and the message text otherwise, and it is never
      a summary. */
  lemma ExtractUsesLastMessage(p: Payload, sender: string, msg: string)
    requires p.messages != [] && p.messages[|p.messages| - 1] == MessageBundle(sender, msg)
    requires !IsBlank(msg)
    ensures Extract(p).text == (if IsBlank(sender) then msg else sender + ": " + msg)
    ensures !Extract(p).isSummaryOnly
  {
    LastMessageTextBlank(p.messages);
  }

  /** With no usable sub-message (none at all, a last element that is not a bundle, or one
      whose text is blank), the extracted text is the big text if non-blank, else the text,
      else "", and it is summary-only exactly when the classifier says so. */
  lemma ExtractFallback(p: Payload)
    requires p.messages == [] || p.messages[|p.messages| - 1].OtherParcel? || IsBlank(p.messages[|p.messages| - 1].text)
    ensures Extract(p).text == (if !IsBlank(p.bigText) then p.bigText else if !IsBlank(p.text) then p.text else "")
    ensures Extract(p).isSummaryOnly == IsLikelySummary(Extract(p).text)
  {
    if p.messages != [] {
      LastMessageTextBlank(p.messages);
    }
    SummaryIsNotBlank(FallbackText(p));
  }

  /** The extracted text is blank exactly when every source of text is: no sub-message text,
      a blank big text and a blank text. */
  lemma ExtractBlankIff(p: Payload)
    ensures IsBlank(Extract(p).text) <==> !HasMessageText(p) && IsBlank(p.bigText) && IsBlank(p.text)
  {
  }
}
