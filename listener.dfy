/**
  The orchestration of `onNotificationPosted`: the chain of guards that decides whether a
  posted notification becomes an SMS, and with which text, followed by the dedupe gate.

  The two settings the listener reads (`enabled`, the target number) and the clock are
  parameters; the SMS itself is the `Sent` outcome.
 */
module Listener {
  import opened Wrappers
  import opened Text
  import opened SummaryClassifier
  import opened Extractor
  import opened Normalizer
  import opened Dedupe

  /** `waPackages`: WhatsApp and WhatsApp Business. */
  const WaPackages: set<string> := {"com.whatsapp", "com.whatsapp.w4b"}

  /** A posted notification: its package name (absent when the platform gives none) and its
      extras. */
  datatype Notification = Notification(packageName: Option<string>, payload: Payload)

  /** Why the listener returns without sending. */
  datatype DropReason =
    | NoPackage      // `sbn.packageName` is null
    | NotWhatsApp    // the package is not in `waPackages`
    | NoContent      // title and content are both blank
    | SummaryOnly    // an "N new messages" summary
    | Disabled       // forwarding is switched off
    | NoTarget       // the target number is blank
    | BlankText      // the normalised text is blank
    | Duplicate      // the gate refuses the key

  /** What the guards decide before the gate is asked: drop, or forward `text` to `target`
      under dedupe key `key`. */
  datatype Decision = Drop(reason: DropReason) | Forward(target: string, text: string, key: string)

  /** What one `onNotificationPosted` call does in the end. */
  datatype Outcome = Ignored(reason: DropReason) | Sent(target: string, text: string)

  /** The outcome of one call and the gate's map after it. */
  datatype Response = Response(outcome: Outcome, after: map<string, Long>)

  /** The guards of `onNotificationPosted` up to the gate, in the source's order (the blank
      check on title and content is made twice, as there). */
  function Prepare(n: Notification, enabled: bool, target: string): (d: Decision)
    ensures d.Forward? ==> d.target == target && StartsWith(d.text, GenericMarker)
  {
    match n.packageName
    case None => Drop(NoPackage)
    case Some(pkg) =>
      if pkg !in WaPackages then Drop(NotWhatsApp)
      else
        var title := n.payload.title;
        var extracted := Extract(n.payload);
        var content := extracted.text;
        if IsBlank(title) && IsBlank(content) then Drop(NoContent)
        else if extracted.isSummaryOnly then Drop(SummaryOnly)
        else if IsBlank(title) && IsBlank(content) then Drop(NoContent)
        else if !enabled then Drop(Disabled)
        else if IsBlank(target) then Drop(NoTarget)
        else
          var normalized := NormalizeMessage(title, content);
          if IsBlank(normalized) then Drop(BlankText)
          else Forward(target, normalized, MessageKey(normalized))
  }

  /** One whole `onNotificationPosted` call on the gate's map `recent` at time `now`. */
  function Respond(recent: map<string, Long>, n: Notification, enabled: bool, target: string, now: Long): Response {
    match Prepare(n, enabled, target)
    case Drop(reason) => Response(Ignored(reason), recent)
    case Forward(to, text, key) =>
      var a := Admit(recent, key, now);
      Response(if a.admitted then Sent(to, text) else Ignored(Duplicate), a.after)
  }

  /** The guards pass all the conditions the listener checks. */
  predicate GuardsPass(n: Notification, enabled: bool, target: string) {
    n.packageName.Some? && n.packageName.value in WaPackages
    && !(IsBlank(n.payload.title) && IsBlank(Extract(n.payload).text))
    && !Extract(n.payload).isSummaryOnly
    && enabled && !IsBlank(target)
  }

  // ---------------------------------------------------------------------------
  // Lemmas
  // ---------------------------------------------------------------------------

  /** The guards forward exactly when the package is WhatsApp's, title and content are not
      both blank, the payload is no summary, forwarding is on and the target is non-blank;
      the text is then `normalizeMessage(title, content)` and the key its `messageKey`. */
  lemma ForwardIff(n: Notification, enabled: bool, target: string)
    ensures Prepare(n, enabled, target).Forward? <==> GuardsPass(n, enabled, target)
    ensures GuardsPass(n, enabled, target) ==>
      var text := NormalizeMessage(n.payload.title, Extract(n.payload).text);
      Prepare(n, enabled, target) == Forward(target, text, MessageKey(text))
  {
    if GuardsPass(n, enabled, target) {
      NormalizeNeverBlank(n.payload.title, Extract(n.payload).text);
    }
  }

  /** The drop reason is the first guard, in the source's order, that fails. */
  lemma DropReasons(n: Notification, enabled: bool, target: string)
    ensures Prepare(n, enabled, target) == Drop(NoPackage) <==> n.packageName.None?
    ensures Prepare(n, enabled, target) == Drop(NotWhatsApp) <==>
      n.packageName.Some? && n.packageName.value !in WaPackages
    ensures Prepare(n, enabled, target) == Drop(NoContent) <==>
      n.packageName.Some? && n.packageName.value in WaPackages
      && IsBlank(n.payload.title) && IsBlank(Extract(n.payload).text)
    ensures Prepare(n, enabled, target) == Drop(SummaryOnly) <==>
      n.packageName.Some? && n.packageName.value in WaPackages
      && !(IsBlank(n.payload.title) && IsBlank(Extract(n.payload).text))
      && Extract(n.payload).isSummaryOnly
    ensures Prepare(n, enabled, target) == Drop(Disabled) <==>
      n.packageName.Some? && n.packageName.value in WaPackages
      && !(IsBlank(n.payload.title) && IsBlank(Extract(n.payload).text))
      && !Extract(n.payload).isSummaryOnly && !enabled
    ensures Prepare(n, enabled, target) == Drop(NoTarget) <==>
      n.packageName.Some? && n.packageName.value in WaPackages
      && !(IsBlank(n.payload.title) && IsBlank(Extract(n.payload).text))
      && !Extract(n.payload).isSummaryOnly && enabled && IsBlank(target)
  {
    ForwardIff(n, enabled, target);
  }

  /** The blank check on the normalised text never fires, and the guards never report a
      duplicate: that is the gate's decision. */
  lemma NeverBlankText(n: Notification, enabled: bool, target: string)
    ensures Prepare(n, enabled, target) != Drop(BlankText)
    ensures Prepare(n, enabled, target) != Drop(Duplicate)
  {
    ForwardIff(n, enabled, target);
  }

  /** A notification whose last sub-message carries text is never dropped as a summary. */
  lemma MessagingStyleIsNeverSummary(n: Notification, enabled: bool, target: string, sender: string, msg: string)
    requires n.payload.messages != [] && n.payload.messages[|n.payload.messages| - 1] == MessageBundle(sender, msg)
    requires !IsBlank(msg)
    ensures Prepare(n, enabled, target) != Drop(SummaryOnly)
  {
    ExtractUsesLastMessage(n.payload, sender, msg);
    DropReasons(n, enabled, target);
  }

  /** A send happens exactly when the guards pass and the gate admits the key; the SMS goes
      to the target with the normalised text, and the map changes as the gate says. */
  lemma SentIff(recent: map<string, Long>, n: Notification, enabled: bool, target: string, now: Long)
    ensures Respond(recent, n, enabled, target, now).outcome.Sent? <==>
      GuardsPass(n, enabled, target)
      && !Blocks(recent, MessageKey(NormalizeMessage(n.payload.title, Extract(n.payload).text)), now)
    ensures Respond(recent, n, enabled, target, now).outcome.Sent? ==>
      Respond(recent, n, enabled, target, now).outcome
        == Sent(target, NormalizeMessage(n.payload.title, Extract(n.payload).text))
    ensures !GuardsPass(n, enabled, target) ==> Respond(recent, n, enabled, target, now).after == recent
    ensures GuardsPass(n, enabled, target) ==>
      Respond(recent, n, enabled, target, now).after
        == Admit(recent, MessageKey(NormalizeMessage(n.payload.title, Extract(n.payload).text)), now).after
  {
    ForwardIff(n, enabled, target);
  }

  /** The same notification posted again less than a window later is not sent again. */
  lemma RepostWithinWindowIgnored(recent: map<string, Long>, n: Notification, enabled: bool, target: string, t1: Long, t2: Long)
    requires Respond(recent, n, enabled, target, t1).outcome.Sent?
    requires 0 <= t2 - t1 < Window
    ensures Respond(Respond(recent, n, enabled, target, t1).after, n, enabled, target, t2).outcome == Ignored(Duplicate)
  {
    ForwardIff(n, enabled, target);
  }

  /** The same notification posted again a window or more later is sent again (as long as
      the difference of the two times fits in a `Long`). */
  lemma RepostAfterWindowSent(recent: map<string, Long>, n: Notification, enabled: bool, target: string, t1: Long, t2: Long)
    requires Respond(recent, n, enabled, target, t1).outcome.Sent?
    requires Window <= t2 - t1 <= LongMax
    ensures Respond(Respond(recent, n, enabled, target, t1).after, n, enabled, target, t2).outcome
      == Respond(recent, n, enabled, target, t1).outcome
  {
    ForwardIff(n, enabled, target);
  }

  // The example lemmas below take their literal texts as parameters fixed by `requires`
  // (`requires c == "..."`) rather than writing the literals into their `ensures`: the
  // verifier evaluates a function applied to a literal string in full, which for the
  // classifier and `lowercase()` is far more work than unfolding it on a parameter.

  /** An "N new messages" summary posted by WhatsApp is dropped as summary-only. */
  lemma SummaryNotificationDropped(n: Notification, enabled: bool, target: string, title: string, count: string)
    requires count == "2"
    requires n == Notification(Some("com.whatsapp"), Payload(title, count + " new messages", "", []))
    ensures Prepare(n, enabled, target) == Drop(SummaryOnly)
  {
    EnglishCountsAreSummaries(count);
    ExtractFallback(n.payload);
  }

  /** "Bob: see you at 5" is no summary. */
  lemma ChatTextIsNoSummary(c: string)
    requires c == "Bob: see you at 5"
    ensures !IsLikelySummary(c) && !IsBlank(c) && Trim(c) == c
  {
    NotSummary(c);
    TrimmedIsFixed(c);
  }

  /** "Bob: see you at 5" in lower case. */
  lemma ChatTextLowered(c: string, lower: string)
    requires c == "Bob: see you at 5" && lower == "bob: see you at 5"
    ensures Lower(c) == lower
  {
    forall i | 0 <= i < |c| ensures Lower(c)[i] == lower[i] {
    }
  }

  /** None of the call words occurs in "bob: see you at 5". */
  lemma ChatTextNamesNoCall(lower: string)
    requires lower == "bob: see you at 5"
    ensures !Contains(lower, "calling") && !Contains(lower, "звон")
    ensures !Contains(lower, "voice call") && !Contains(lower, "video call")
  {
    MissingFirstChar(lower, "calling");
    MissingFirstChar(lower, "звон");
    MissingFirstChar(lower, "voice call");
    MissingFirstChar(lower, "video call");
  }

  /** "Bob: see you at 5" mentions no call. */
  lemma ChatTextIsNoCall(c: string)
    requires c == "Bob: see you at 5"
    ensures !IsCallText(c)
  {
    ChatTextLowered(c, "bob: see you at 5");
    ChatTextNamesNoCall(Lower(c));
  }

  /** "Bob" is trimmed and starts "Bob: see you at 5". */
  lemma ChatTitleIsPrefix(title: string, c: string)
    requires title == "Bob" && c == "Bob: see you at 5"
    ensures title != [] && Trim(title) == title && StartsWith(c, title)
  {
    TrimmedIsFixed(title);
    assert c[..3] == title;
  }

  /** The generic marker in front of "Bob: see you at 5". */
  lemma ChatTextMarked(c: string)
    requires c == "Bob: see you at 5"
    ensures GenericMarker + c == "WA: Bob: see you at 5"
  {
  }

  /** Content that starts with its title is forwarded as is, behind the generic marker. */
  lemma TitledContentForwarded(n: Notification, target: string, title: string, c: string)
    requires n == Notification(Some("com.whatsapp"), Payload(title, c, "", []))
    requires title != [] && Trim(title) == title && Trim(c) == c && StartsWith(c, title)
    requires !IsBlank(target) && !IsBlank(c) && !IsLikelySummary(c) && !IsCallText(c)
    ensures Prepare(n, true, target) == Forward(target, GenericMarker + c, MessageKey(GenericMarker + c))
  {
    ExtractFallback(n.payload);
    TrimBlank(title);
    ForwardIff(n, true, target);
  }

  /** A "Bob: see you at 5" notification titled "Bob" is forwarded behind the generic marker,
      without repeating the sender. */
  lemma ChatNotificationForwarded(n: Notification, target: string, title: string, c: string)
    requires title == "Bob" && c == "Bob: see you at 5"
    requires n == Notification(Some("com.whatsapp"), Payload(title, c, "", []))
    requires !IsBlank(target)
    ensures Prepare(n, true, target).Forward?
    ensures Prepare(n, true, target).text == "WA: Bob: see you at 5"
  {
    ChatTextIsNoSummary(c);
    ChatTextIsNoCall(c);
    ChatTitleIsPrefix(title, c);
    ChatTextMarked(c);
    TitledContentForwarded(n, target, title, c);
  }

  // ---------------------------------------------------------------------------
  // The listener as an object
  // ---------------------------------------------------------------------------

  /** `onNotificationPosted` on the listener's gate, with the settings it reads and the time
      the gate reads the clock. */
  method OnNotificationPosted(gate: DedupeGate, n: Notification, enabled: bool, target: string, now: Long)
    returns (outcome: Outcome)
    modifies gate
    ensures outcome == Respond(old(gate.recent), n, enabled, target, now).outcome
    ensures gate.recent == Respond(old(gate.recent), n, enabled, target, now).after
  {
    var decision := Prepare(n, enabled, target);
    if decision.Drop? {
      return Ignored(decision.reason);
    }
    var send := gate.ShouldSendNow(decision.key, now);
    if send {
      outcome := Sent(decision.target, decision.text);
    } else {
      outcome := Ignored(Duplicate);
    }
  }
}
