# WhatsApp notification forwarding: the decision pipeline

The app listens for notifications posted by WhatsApp and WhatsApp Business, and forwards
each real chat message as an SMS to one configured number. This project models in Dafny
the part of `WhatsAppNotificationListener` that decides *whether* to forward and *with which
text*:

- `onNotificationPosted`: the package filter and the chain of guards;
- `extractWhatsAppMessage`: the last MessagingStyle sub-message, else big text, else text;
- `isLikelySummary`: the "N new messages" noise filter in English, Russian and German, plus a
  loose Russian heuristic;
- `normalizeMessage`: merges title and content without repeating the sender, then adds the
  call or generic `WA:` marker;
- `messageKey`: trims and collapses whitespace;
- `shouldSendNow`: the dedupe gate, a map from key to last admission time with a 60 000 ms
  window and eviction of stale entries above 500 entries.

Modules, one file each:

- `Wrappers`: `Option`.
- `Text`: Kotlin's `isWhitespace`, `trim`, `isBlank`, `lowercase`, `startsWith` and `contains`,
  plus the regex classes `\s`, `\d` and the word characters of `\b`.
- `SummaryClassifier`: the three anchored regular expressions as token lists. A greedy matcher
  is proved to decide their backtracking regex language. Also the loose heuristic.
- `Extractor`: the payload datatype and `Extract`.
- `Normalizer`: `Combine`, `NormalizeMessage` and `MessageKey`.
- `Dedupe`:
  - `Admit`, the gate as a function of the map;
  - lemmas about single calls and call sequences;
  - the class `DedupeGate`, which holds the `recent` map and performs the map operations the
    source performs (`removeIf`, `get`, `putIfAbsent`, `replace`).
- `Listener`:
  - `Prepare`, the guards;
  - `Respond`, guards plus gate;
  - the method `OnNotificationPosted`, which drives a `DedupeGate`.

The settings `enabled` and the target number, read from `SettingsStore` inside the coroutine,
are parameters. So is the clock value `now`. The SMS itself is the `Sent` outcome.

Three places where the code does something a reader may not expect (the model follows the code):

- **Sender without message text.** When the last sub-message has a non-blank sender but a
  blank text, the code yields `""` and falls back to big text and text. It does not use
  "whichever is present".
- **Loose Russian heuristic.** The code needs a number standing alone (`\b\d+\b`), not just
  any digit.
- **Repeated guard.** The guard at line 42 repeats line 38. The guard at line 53 cannot fire.
  Both are modelled as written, and lemmas show what they decide.

## Model

| member | source | states |
|---|---|---|
| Text.LowerChar | app/src/main/java/com/smsgateway24/nosignalclub/service/WhatsAppNotificationListener.kt:130 | the lower-cased character is never upper case, and a character is left alone exactly when it is not upper case |
| Text.BlankSlice | app/src/main/java/com/smsgateway24/nosignalclub/service/WhatsAppNotificationListener.kt:118-119 | a slice made of whitespace characters is blank |
| Text.TrimAllBlank | app/src/main/java/com/smsgateway24/nosignalclub/service/WhatsAppNotificationListener.kt:118-119 | when the leading and trailing whitespace runs meet, the string is blank and `trim()` gives "" |
| Text.TrimMiddle | app/src/main/java/com/smsgateway24/nosignalclub/service/WhatsAppNotificationListener.kt:118-119 | otherwise `trim()` gives the middle between the runs, which has no whitespace at its ends, with blank text on each side |
| Text.TrimSplits | app/src/main/java/com/smsgateway24/nosignalclub/service/WhatsAppNotificationListener.kt:118-119 | `trim()` cuts the string into a blank prefix, the result and a blank suffix; the result has no whitespace at either end; it is empty exactly when the string is blank |
| Text.TrimIdempotent | app/src/main/java/com/smsgateway24/nosignalclub/service/WhatsAppNotificationListener.kt:118-119 | trimming twice is trimming once |
| Text.Trim | app/src/main/java/com/smsgateway24/nosignalclub/service/WhatsAppNotificationListener.kt:118-119 | `String.trim()`; what it computes is stated by TrimSplits, TrimAllBlank and TrimMiddle |
| Text.Lower | app/src/main/java/com/smsgateway24/nosignalclub/service/WhatsAppNotificationListener.kt:130 | `String.lowercase()`, one character at a time through LowerChar; see LowerConcat, LowerKeepsLowerCase, LowerIdempotent and TrimLower |
| Text.IsBlank | app/src/main/java/com/smsgateway24/nosignalclub/service/WhatsAppNotificationListener.kt:38 | `isBlank()`: empty or whitespace only; see BlankConcat and BlankSlice |
| Text.StartsWith | app/src/main/java/com/smsgateway24/nosignalclub/service/WhatsAppNotificationListener.kt:124-126 | `startsWith`: the prefix stands at the start; see Normalizer.PrefixOfExtension |
| Text.Contains | app/src/main/java/com/smsgateway24/nosignalclub/service/WhatsAppNotificationListener.kt:131-134 | `contains`: the word occurs at some position; see MissingFirstChar |
| Text.TrimmedIsFixed | app/src/main/java/com/smsgateway24/nosignalclub/service/WhatsAppNotificationListener.kt:198 | a string with no whitespace at either end is its own `trim()` |
| Text.BlankConcat | app/src/main/java/com/smsgateway24/nosignalclub/service/WhatsAppNotificationListener.kt:160-164 | a concatenation is blank exactly when both parts are |
| Text.MissingFirstChar | app/src/main/java/com/smsgateway24/nosignalclub/service/WhatsAppNotificationListener.kt:131-134 | a text lacking the first character of a word does not `contains` the word |
| Text.LowerKeepsLowerCase | app/src/main/java/com/smsgateway24/nosignalclub/service/WhatsAppNotificationListener.kt:198 | `lowercase()` leaves text with no upper-case letter unchanged |
| Text.LowerCharKeepsWhitespace | app/src/main/java/com/smsgateway24/nosignalclub/service/WhatsAppNotificationListener.kt:198 | lower-casing a character never changes whether it is whitespace |
| Text.SkipLeadingLower | app/src/main/java/com/smsgateway24/nosignalclub/service/WhatsAppNotificationListener.kt:198 | the leading whitespace of the lower-cased text ends where that of the text ends |
| Text.SkipTrailingLower | app/src/main/java/com/smsgateway24/nosignalclub/service/WhatsAppNotificationListener.kt:198 | the trailing whitespace of the lower-cased text starts where that of the text starts |
| Text.LowerSlice | app/src/main/java/com/smsgateway24/nosignalclub/service/WhatsAppNotificationListener.kt:198 | lower-casing a slice is slicing the lower-cased text |
| Text.TrimLower | app/src/main/java/com/smsgateway24/nosignalclub/service/WhatsAppNotificationListener.kt:198 | `trim()` and `lowercase()` commute |
| Text.LowerIdempotent | app/src/main/java/com/smsgateway24/nosignalclub/service/WhatsAppNotificationListener.kt:198 | `lowercase()` applied twice is `lowercase()` once |
| Text.LowerConcat | app/src/main/java/com/smsgateway24/nosignalclub/service/WhatsAppNotificationListener.kt:130 | `lowercase()` distributes over concatenation |
| SummaryClassifier.IsLikelySummary | app/src/main/java/com/smsgateway24/nosignalclub/service/WhatsAppNotificationListener.kt:197-211 | `isLikelySummary`: see IsLikelySummaryIsRegexMatch for its meaning and ClassifierIgnoresCaseAndTrim for its independence of case and surrounding whitespace |
| SummaryClassifier.ClassifierIgnoresCaseAndTrim | app/src/main/java/com/smsgateway24/nosignalclub/service/WhatsAppNotificationListener.kt:197-198 | the verdict does not change when the input is trimmed or lower-cased first: matching ignores case and surrounding whitespace |
| SummaryClassifier.IsLikelySummaryIsRegexMatch | app/src/main/java/com/smsgateway24/nosignalclub/service/WhatsAppNotificationListener.kt:197-211 | the classifier is true exactly when the trimmed, lower-cased text is in the regex language (backtracking semantics) of the English, Russian or German pattern, or passes the loose Russian heuristic; the patterns are written equivalently with their groups factored: `(new\s+messages|unread\s+messages)` as `(new|unread)\s+messages`, and `нов(ых|ые|ое)` and `сообщени(й|я|е)` as lists of whole words |
| SummaryClassifier.GreedyMatchIsRegexMatch | app/src/main/java/com/smsgateway24/nosignalclub/service/WhatsAppNotificationListener.kt:201-203 | for a pattern whose neighbouring tokens cannot share a character, greedy matching accepts exactly the regex language |
| SummaryClassifier.SplitIsGreedy | app/src/main/java/com/smsgateway24/nosignalclub/service/WhatsAppNotificationListener.kt:201-203 | in such a pattern, the only way a `\d+` or `\s+` run can be followed by a match of the rest is for it to take its longest run |
| SummaryClassifier.AcceptsNeedsFirst | app/src/main/java/com/smsgateway24/nosignalclub/service/WhatsAppNotificationListener.kt:201-203 | a match of a pattern needs a first character that can start its first token |
| SummaryClassifier.SomeAltIsChoice | app/src/main/java/com/smsgateway24/nosignalclub/service/WhatsAppNotificationListener.kt:201-202 | trying the alternatives of a group one by one is choosing some alternative |
| SummaryClassifier.RunEndSpec | app/src/main/java/com/smsgateway24/nosignalclub/service/WhatsAppNotificationListener.kt:201-203 | the run end is preceded only by characters of the class and is not followed by one |
| SummaryClassifier.PatternsWellFormed | app/src/main/java/com/smsgateway24/nosignalclub/service/WhatsAppNotificationListener.kt:201-203 | the three summary patterns have no neighbouring tokens that share a character |
| SummaryClassifier.CountPatternWellFormed | app/src/main/java/com/smsgateway24/nosignalclub/service/WhatsAppNotificationListener.kt:201-203 | `^\d+\s+(A)\s+(B)$` is well formed when no alternative starts with a space |
| SummaryClassifier.SummaryIsNotBlank | app/src/main/java/com/smsgateway24/nosignalclub/service/WhatsAppNotificationListener.kt:197-211 | a blank text is never classified as a summary |
| SummaryClassifier.CountPhraseMatches | app/src/main/java/com/smsgateway24/nosignalclub/service/WhatsAppNotificationListener.kt:201-203 | digits, a space, a word of the first group, a space and a word of the second group match the count pattern |
| SummaryClassifier.CountPhraseAt | app/src/main/java/com/smsgateway24/nosignalclub/service/WhatsAppNotificationListener.kt:201-203 | the same, for a text given by the positions of its parts |
| SummaryClassifier.WordStep | app/src/main/java/com/smsgateway24/nosignalclub/service/WhatsAppNotificationListener.kt:201-203 | a group matches where one of its words stands, followed by a match of the rest |
| SummaryClassifier.SpaceStep | app/src/main/java/com/smsgateway24/nosignalclub/service/WhatsAppNotificationListener.kt:201-203 | `\s+` matches one space that is followed by a match of the rest |
| SummaryClassifier.SpaceWordTail | app/src/main/java/com/smsgateway24/nosignalclub/service/WhatsAppNotificationListener.kt:201-203 | a final `\s+` and word group match one space and a word of the group that end the text |
| SummaryClassifier.SpaceWordStep | app/src/main/java/com/smsgateway24/nosignalclub/service/WhatsAppNotificationListener.kt:201-203 | a `\s+` and a word group match one space and a word of the group followed by a match of the rest |
| SummaryClassifier.DigitStep | app/src/main/java/com/smsgateway24/nosignalclub/service/WhatsAppNotificationListener.kt:201-203 | the leading `\d+` matches a non-empty digit run followed by a match of the rest |
| SummaryClassifier.DigitRun | app/src/main/java/com/smsgateway24/nosignalclub/service/WhatsAppNotificationListener.kt:201-203 | `\d+` over a leading digit string ends where the digits end |
| SummaryClassifier.CanonicalCountText | app/src/main/java/com/smsgateway24/nosignalclub/service/WhatsAppNotificationListener.kt:198 | digits followed by lower-case text with no trailing whitespace are their own `trim().lowercase()` |
| SummaryClassifier.EnglishPhrases | app/src/main/java/com/smsgateway24/nosignalclub/service/WhatsAppNotificationListener.kt:201 | "new" and "unread", each with "messages", are `PhraseWords` of the English word groups: members of the groups, in lower case, with no whitespace at either end |
| SummaryClassifier.RussianPhrases | app/src/main/java/com/smsgateway24/nosignalclub/service/WhatsAppNotificationListener.kt:202 | "новых" with "сообщений" are `PhraseWords` of the Russian word groups: members of the groups, in lower case, with no whitespace at either end |
| SummaryClassifier.GermanPhrases | app/src/main/java/com/smsgateway24/nosignalclub/service/WhatsAppNotificationListener.kt:203 | "neue" with "nachrichten" are `PhraseWords` of the German word groups: members of the groups, in lower case, with no whitespace at either end |
| SummaryClassifier.CanonicalPhrase | app/src/main/java/com/smsgateway24/nosignalclub/service/WhatsAppNotificationListener.kt:198 | "N a b" over pattern words is its own `trim().lowercase()` |
| SummaryClassifier.CountPhraseIsSummary | app/src/main/java/com/smsgateway24/nosignalclub/service/WhatsAppNotificationListener.kt:197-203 | any text whose trimmed, lower-cased form is "N a b", with a and b words of one of the three patterns, is a summary |
| SummaryClassifier.EnglishCountsAreSummaries | app/src/main/java/com/smsgateway24/nosignalclub/service/WhatsAppNotificationListener.kt:201 | "N new messages" and "N unread messages" are summaries, for every digit string N |
| SummaryClassifier.RussianCountIsSummary | app/src/main/java/com/smsgateway24/nosignalclub/service/WhatsAppNotificationListener.kt:202 | "N новых сообщений" is a summary, for every digit string N |
| SummaryClassifier.GermanCountIsSummary | app/src/main/java/com/smsgateway24/nosignalclub/service/WhatsAppNotificationListener.kt:203 | "N neue nachrichten" is a summary, for every digit string N |
| SummaryClassifier.GermanCapitalCountIsSummary | app/src/main/java/com/smsgateway24/nosignalclub/service/WhatsAppNotificationListener.kt:198-203 | "N neue Nachrichten" is a summary too, because matching is on the lower-cased text |
| SummaryClassifier.GermanPhraseLowered | app/src/main/java/com/smsgateway24/nosignalclub/service/WhatsAppNotificationListener.kt:198 | `lowercase()` turns " neue Nachrichten" into " neue nachrichten" |
| SummaryClassifier.SummaryExamplesFor | app/src/main/java/com/smsgateway24/nosignalclub/service/WhatsAppNotificationListener.kt:197-203 | "4 new messages", "4 unread messages", "4 новых сообщений", "4 neue nachrichten" and "4 neue Nachrichten" are summaries (the texts passed as parameters) |
| SummaryClassifier.NotSummary | app/src/main/java/com/smsgateway24/nosignalclub/service/WhatsAppNotificationListener.kt:197-211 | a text whose trimmed, lower-cased form does not start with a digit and has no "н" is not a summary |
| SummaryClassifier.NonSummaryExamples | app/src/main/java/com/smsgateway24/nosignalclub/service/WhatsAppNotificationListener.kt:197-211 | "" and "John: hello" are not summaries |
| Extractor.LastMessageText | app/src/main/java/com/smsgateway24/nosignalclub/service/WhatsAppNotificationListener.kt:156-165 | the text of the last sub-message: "sender: text", the text alone, or ""; see LastMessageTextBlank and ExtractUsesLastMessage |
| Extractor.FallbackText | app/src/main/java/com/smsgateway24/nosignalclub/service/WhatsAppNotificationListener.kt:180-184 | the big text when non-blank, else the text when non-blank, else ""; see ExtractFallback |
| Extractor.Extract | app/src/main/java/com/smsgateway24/nosignalclub/service/WhatsAppNotificationListener.kt:150-194 | the title is carried over; summary-only implies a non-blank text the classifier accepts, and that no sub-message text was used |
| Extractor.LastMessageTextBlank | app/src/main/java/com/smsgateway24/nosignalclub/service/WhatsAppNotificationListener.kt:156-164 | the text built from the last sub-message is blank exactly when it is no bundle or its message text is blank |
| Extractor.ExtractUsesLastMessage | app/src/main/java/com/smsgateway24/nosignalclub/service/WhatsAppNotificationListener.kt:153-173 | with a last bundle of non-blank text, the result is "sender: text" if the sender is non-blank and the text otherwise, and it is not summary-only |
| Extractor.ExtractFallback | app/src/main/java/com/smsgateway24/nosignalclub/service/WhatsAppNotificationListener.kt:176-193 | otherwise the result is the big text if non-blank, else the text if non-blank, else ""; it is summary-only exactly when the classifier accepts it |
| Extractor.ExtractBlankIff | app/src/main/java/com/smsgateway24/nosignalclub/service/WhatsAppNotificationListener.kt:150-194 | the extracted text is blank exactly when no sub-message, big text or text supplies one |
| Normalizer.Combine | app/src/main/java/com/smsgateway24/nosignalclub/service/WhatsAppNotificationListener.kt:118-128 | the merge of trimmed title and content; see CombineFollowsMergeRule, CombineShape and CombineExamples |
| Normalizer.IsCallText | app/src/main/java/com/smsgateway24/nosignalclub/service/WhatsAppNotificationListener.kt:130-134 | the lower-cased merge names a call; see NormalizeRoundTrip and CallMarkerMentionsCall |
| Normalizer.NormalizeMessage | app/src/main/java/com/smsgateway24/nosignalclub/service/WhatsAppNotificationListener.kt:115-141 | the result always starts with "WA: " |
| Normalizer.CombineFollowsMergeRule | app/src/main/java/com/smsgateway24/nosignalclub/service/WhatsAppNotificationListener.kt:118-128 | the `when` of the source equals the four-case merge rule on trimmed title t and content c: t empty gives c, c empty gives t, c starting with t gives c, otherwise "t — c" (the `"t:"` and `"t —"` cases are subsumed) |
| Normalizer.CombineShape | app/src/main/java/com/smsgateway24/nosignalclub/service/WhatsAppNotificationListener.kt:118-128 | the merge is blank exactly when title and content both are; with both non-blank it starts with the trimmed title and ends with the trimmed content; it is already trimmed |
| Normalizer.PrefixOfExtension | app/src/main/java/com/smsgateway24/nosignalclub/service/WhatsAppNotificationListener.kt:124-126 | starting with "t:" or "t —" implies starting with t |
| Normalizer.TrimBlank | app/src/main/java/com/smsgateway24/nosignalclub/service/WhatsAppNotificationListener.kt:118-123 | a string is blank exactly when its trimmed form is empty |
| Normalizer.NormalizeRoundTrip | app/src/main/java/com/smsgateway24/nosignalclub/service/WhatsAppNotificationListener.kt:130-140 | stripping the marker gives back the merged text, and the call marker is used exactly when the lower-cased merge contains "calling", "звон", "voice call" or "video call" |
| Normalizer.CallMarkerMentionsCall | app/src/main/java/com/smsgateway24/nosignalclub/service/WhatsAppNotificationListener.kt:136-140 | a generic-marked text cannot start with the call marker unless the merge mentions a call |
| Normalizer.NormalizeNeverBlank | app/src/main/java/com/smsgateway24/nosignalclub/service/WhatsAppNotificationListener.kt:52-53 | the normalised text is never blank |
| Normalizer.CombineExamples | app/src/main/java/com/smsgateway24/nosignalclub/service/WhatsAppNotificationListener.kt:121-128 | "Alice" with "Alice: hi" gives "Alice: hi"; "Alice" with "hi" gives "Alice — hi" |
| Normalizer.CollapseFrom | app/src/main/java/com/smsgateway24/nosignalclub/service/WhatsAppNotificationListener.kt:87 | `replace(Regex("\\s+"), " ")` on a suffix; see CollapseFromSpec, CollapseKeepsNonSpace, CollapseConcat, CollapseRun and CollapseWord |
| Normalizer.CollapseSpaces | app/src/main/java/com/smsgateway24/nosignalclub/service/WhatsAppNotificationListener.kt:87 | `replace(Regex("\\s+"), " ")` on the whole text; see CollapseConcat, CollapseRun, CollapseWord and CollapseFixesSingleSpaced |
| Normalizer.SkipSpacesSpec | app/src/main/java/com/smsgateway24/nosignalclub/service/WhatsAppNotificationListener.kt:87 | a `\s+` run is skipped to its end |
| Normalizer.CollapseFromSpec | app/src/main/java/com/smsgateway24/nosignalclub/service/WhatsAppNotificationListener.kt:87 | replacing `\s+` by " " yields single-spaced text, empty only for empty input, whose first character is the first character or a space |
| Normalizer.NonSpaceSkipsRun | app/src/main/java/com/smsgateway24/nosignalclub/service/WhatsAppNotificationListener.kt:87 | dropping a `\s` run does not change the non-space characters |
| Normalizer.CollapseKeepsNonSpace | app/src/main/java/com/smsgateway24/nosignalclub/service/WhatsAppNotificationListener.kt:87 | collapsing keeps every non-`\s` character, in order |
| Normalizer.CollapseFixesSingleSpaced | app/src/main/java/com/smsgateway24/nosignalclub/service/WhatsAppNotificationListener.kt:87 | already single-spaced text is left unchanged |
| Normalizer.SkipSpacesSuffix | app/src/main/java/com/smsgateway24/nosignalclub/service/WhatsAppNotificationListener.kt:87 | a `\s` run inside the second part of a concatenation ends where it ends in that part, shifted by the first part's length |
| Normalizer.CollapseSuffix | app/src/main/java/com/smsgateway24/nosignalclub/service/WhatsAppNotificationListener.kt:87 | collapsing a concatenation from inside its second part is collapsing that part |
| Normalizer.SuffixSpaceStep | app/src/main/java/com/smsgateway24/nosignalclub/service/WhatsAppNotificationListener.kt:87 | two `\s` positions whose runs are followed by equal collapsed tails collapse to equal texts |
| Normalizer.SuffixCharStep | app/src/main/java/com/smsgateway24/nosignalclub/service/WhatsAppNotificationListener.kt:87 | two equal non-space characters followed by equal collapsed tails collapse to equal texts |
| Normalizer.SkipSpacesConcat | app/src/main/java/com/smsgateway24/nosignalclub/service/WhatsAppNotificationListener.kt:87 | a `\s` run that does not reach into the appended text ends where it ends without it |
| Normalizer.RunStaysInFirst | app/src/main/java/com/smsgateway24/nosignalclub/service/WhatsAppNotificationListener.kt:87 | a `\s` run starting in the first part ends there too, when no run straddles the boundary |
| Normalizer.CollapseSpaceStep | app/src/main/java/com/smsgateway24/nosignalclub/service/WhatsAppNotificationListener.kt:87 | a `\s` run becomes one space in both texts, so a collapse that differs by an appended tail after the run differs by it from the run on |
| Normalizer.CollapseCharStep | app/src/main/java/com/smsgateway24/nosignalclub/service/WhatsAppNotificationListener.kt:87 | an equal non-space character is kept in both texts, so a collapse that differs by an appended tail after it differs by it from that character on |
| Normalizer.CollapseFromConcat | app/src/main/java/com/smsgateway24/nosignalclub/service/WhatsAppNotificationListener.kt:87 | collapsing a concatenation from inside its first part collapses the two parts separately, when no `\s` run straddles the boundary |
| Normalizer.CollapseConcat | app/src/main/java/com/smsgateway24/nosignalclub/service/WhatsAppNotificationListener.kt:87 | `replace(Regex("\\s+"), " ")` distributes over a concatenation whose boundary does not split a `\s` run |
| Normalizer.CollapseRun | app/src/main/java/com/smsgateway24/nosignalclub/service/WhatsAppNotificationListener.kt:87 | every non-empty run of `\s` characters becomes exactly one space |
| Normalizer.CollapseWord | app/src/main/java/com/smsgateway24/nosignalclub/service/WhatsAppNotificationListener.kt:87 | text without `\s` characters is left unchanged |
| Normalizer.MessageKey | app/src/main/java/com/smsgateway24/nosignalclub/service/WhatsAppNotificationListener.kt:85-88 | `messageKey`: trim, then collapse `\s` runs; see MessageKeyShape and MessageKeyIdempotent |
| Normalizer.MessageKeyShape | app/src/main/java/com/smsgateway24/nosignalclub/service/WhatsAppNotificationListener.kt:85-88 | the key has no whitespace at either end; every `\s` character in it is a single plain space with no `\s` neighbour; it keeps the non-`\s` characters of the trimmed message in order; it is empty exactly when the message is blank |
| Normalizer.MessageKeyIdempotent | app/src/main/java/com/smsgateway24/nosignalclub/service/WhatsAppNotificationListener.kt:85-88 | the key of a key is the key |
| Dedupe.Minus | app/src/main/java/com/smsgateway24/nosignalclub/service/WhatsAppNotificationListener.kt:96 | `now - last` on `Long` is the exact difference, wrapped by 2^64 when it leaves the range |
| Dedupe.Blocks | app/src/main/java/com/smsgateway24/nosignalclub/service/WhatsAppNotificationListener.kt:100-103 | a stored time less than a window before `now` blocks the key; see Admit and EvictionKeepsOutcome |
| Dedupe.Stale | app/src/main/java/com/smsgateway24/nosignalclub/service/WhatsAppNotificationListener.kt:96 | an entry more than a window old; see AdmitFrame |
| Dedupe.RemoveStale | app/src/main/java/com/smsgateway24/nosignalclub/service/WhatsAppNotificationListener.kt:96 | `removeIf { now - it.value > dedupeWindowMs }`; see EvictionKeepsOutcome |
| Dedupe.Evict | app/src/main/java/com/smsgateway24/nosignalclub/service/WhatsAppNotificationListener.kt:95-97 | the clean-up, only above 500 entries; see EvictionKeepsOutcome and AdmitWithoutEviction |
| Dedupe.Admit | app/src/main/java/com/smsgateway24/nosignalclub/service/WhatsAppNotificationListener.kt:91-113 | a call is refused exactly when the key holds a time less than 60 000 ms before `now`; on admission the key maps to `now` |
| Dedupe.AdmitFrame | app/src/main/java/com/smsgateway24/nosignalclub/service/WhatsAppNotificationListener.kt:95-110 | other keys keep their times; the only entries removed are stale entries of a map of more than 500; a refusal keeps the key |
| Dedupe.EvictionKeepsOutcome | app/src/main/java/com/smsgateway24/nosignalclub/service/WhatsAppNotificationListener.kt:95-103 | eviction never changes whether a key is blocked, keeps the times it does not remove, and removes only stale entries of a map of more than 500 |
| Dedupe.AdmitWithoutEviction | app/src/main/java/com/smsgateway24/nosignalclub/service/WhatsAppNotificationListener.kt:95-110 | with at most 500 entries, a refusal leaves the map unchanged and an admission only records the key at `now` |
| Dedupe.RefusalKeepsEntry | app/src/main/java/com/smsgateway24/nosignalclub/service/WhatsAppNotificationListener.kt:103 | a refused key keeps its stored time |
| Dedupe.StepNonNegative | app/src/main/java/com/smsgateway24/nosignalclub/service/WhatsAppNotificationListener.kt:91-113 | a call at a non-negative time keeps all stored times non-negative |
| Dedupe.StepRemembers | app/src/main/java/com/smsgateway24/nosignalclub/service/WhatsAppNotificationListener.kt:95-110 | after a later call, an admitted key is still held with a time no earlier than its admission, or was evicted more than a window after it |
| Dedupe.ValuesBounded | app/src/main/java/com/smsgateway24/nosignalclub/service/WhatsAppNotificationListener.kt:91-113 | under a non-negative clock all stored times stay non-negative |
| Dedupe.AdmissionRemembered | app/src/main/java/com/smsgateway24/nosignalclub/service/WhatsAppNotificationListener.kt:106-110 | right after an admission the key is held with that admission's time |
| Dedupe.RememberedAcrossCall | app/src/main/java/com/smsgateway24/nosignalclub/service/WhatsAppNotificationListener.kt:91-113 | one more call keeps the memory of an earlier admission and non-negative times |
| Dedupe.OrderlyPrefix | app/src/main/java/com/smsgateway24/nosignalclub/service/WhatsAppNotificationListener.kt:92 | a monotone, non-negative clock is orderly on every prefix of the calls |
| Dedupe.RemembersFrom | app/src/main/java/com/smsgateway24/nosignalclub/service/WhatsAppNotificationListener.kt:91-113 | once remembered, an admission stays remembered through all later calls |
| Dedupe.RemembersAfterAdmission | app/src/main/java/com/smsgateway24/nosignalclub/service/WhatsAppNotificationListener.kt:91-113 | from its admission on, the map remembers an admitted call |
| Dedupe.SpacedAdmissions | app/src/main/java/com/smsgateway24/nosignalclub/service/WhatsAppNotificationListener.kt:91-113 | two admissions of the same key are at least 60 000 ms apart |
| Dedupe.RepeatWithinWindowDropped | app/src/main/java/com/smsgateway24/nosignalclub/service/WhatsAppNotificationListener.kt:103 | a key seen again less than a window after its admission is refused |
| Dedupe.DedupeGate.constructor | app/src/main/java/com/smsgateway24/nosignalclub/service/WhatsAppNotificationListener.kt:25 | the gate starts with an empty map |
| Dedupe.DedupeGate.Get | app/src/main/java/com/smsgateway24/nosignalclub/service/WhatsAppNotificationListener.kt:100 | `recent[key]` is present exactly when the key is, with its time |
| Dedupe.DedupeGate.PutIfAbsent | app/src/main/java/com/smsgateway24/nosignalclub/service/WhatsAppNotificationListener.kt:107 | inserts only an absent key and returns what was there |
| Dedupe.DedupeGate.Replace | app/src/main/java/com/smsgateway24/nosignalclub/service/WhatsAppNotificationListener.kt:109 | swaps in the new time exactly when the key holds the expected one |
| Dedupe.DedupeGate.RemoveStaleEntries | app/src/main/java/com/smsgateway24/nosignalclub/service/WhatsAppNotificationListener.kt:96 | removes exactly the entries older than the window |
| Dedupe.DedupeGate.ShouldSendNow | app/src/main/java/com/smsgateway24/nosignalclub/service/WhatsAppNotificationListener.kt:91-113 | returns and leaves exactly what `Admit` describes |
| Listener.Prepare | app/src/main/java/com/smsgateway24/nosignalclub/service/WhatsAppNotificationListener.kt:28-56 | a forward always goes to the configured target with a "WA: "-marked text |
| Listener.Respond | app/src/main/java/com/smsgateway24/nosignalclub/service/WhatsAppNotificationListener.kt:28-58 | one posted notification against the dedupe map: the decision of Prepare, then the gate; see SentIff, RepostWithinWindowIgnored and RepostAfterWindowSent |
| Listener.ForwardIff | app/src/main/java/com/smsgateway24/nosignalclub/service/WhatsAppNotificationListener.kt:22-56 | the guards forward exactly when the package is a WhatsApp package, title and content are not both blank, the payload is not summary-only, forwarding is on and the target is non-blank; the text is then `normalizeMessage(title, content)` and the key its `messageKey` |
| Listener.DropReasons | app/src/main/java/com/smsgateway24/nosignalclub/service/WhatsAppNotificationListener.kt:29-50 | each drop reason is reported exactly when all earlier guards pass and its own guard fails |
| Listener.NeverBlankText | app/src/main/java/com/smsgateway24/nosignalclub/service/WhatsAppNotificationListener.kt:52-53 | the blank check on the normalised text never drops anything |
| Listener.MessagingStyleIsNeverSummary | app/src/main/java/com/smsgateway24/nosignalclub/service/WhatsAppNotificationListener.kt:153-173 | a notification whose last sub-message carries text is never dropped as a summary |
| Listener.SentIff | app/src/main/java/com/smsgateway24/nosignalclub/service/WhatsAppNotificationListener.kt:28-58 | an SMS is sent exactly when the guards pass and the gate does not block the key; it goes to the target with the normalised text; a notification the guards drop leaves the map alone; one that passes the guards leaves the map `Admit` gives for its key (eviction, then `now` recorded on admission) |
| Listener.RepostWithinWindowIgnored | app/src/main/java/com/smsgateway24/nosignalclub/service/WhatsAppNotificationListener.kt:99-103 | a sent notification posted again less than 60 000 ms later is dropped as a duplicate |
| Listener.RepostAfterWindowSent | app/src/main/java/com/smsgateway24/nosignalclub/service/WhatsAppNotificationListener.kt:99-110 | posted again 60 000 ms or more later, it is sent again, with the same text to the same target |
| Listener.SummaryNotificationDropped | app/src/main/java/com/smsgateway24/nosignalclub/service/WhatsAppNotificationListener.kt:176-193 | a WhatsApp notification with text "2 new messages" and no sub-messages is dropped as summary-only |
| Listener.ChatTextIsNoSummary | app/src/main/java/com/smsgateway24/nosignalclub/service/WhatsAppNotificationListener.kt:197-211 | "Bob: see you at 5" is not a summary and is already trimmed |
| Listener.ChatTextLowered | app/src/main/java/com/smsgateway24/nosignalclub/service/WhatsAppNotificationListener.kt:130 | "Bob: see you at 5" lower-cases to "bob: see you at 5" |
| Listener.ChatTextNamesNoCall | app/src/main/java/com/smsgateway24/nosignalclub/service/WhatsAppNotificationListener.kt:131-134 | "bob: see you at 5" contains none of the call words |
| Listener.ChatTextIsNoCall | app/src/main/java/com/smsgateway24/nosignalclub/service/WhatsAppNotificationListener.kt:130-134 | "Bob: see you at 5" is not call text |
| Listener.ChatTitleIsPrefix | app/src/main/java/com/smsgateway24/nosignalclub/service/WhatsAppNotificationListener.kt:124 | "Bob: see you at 5" starts with the trimmed title "Bob" |
| Listener.ChatTextMarked | app/src/main/java/com/smsgateway24/nosignalclub/service/WhatsAppNotificationListener.kt:139 | the generic marker in front gives "WA: Bob: see you at 5" |
| Listener.TitledContentForwarded | app/src/main/java/com/smsgateway24/nosignalclub/service/WhatsAppNotificationListener.kt:28-56 | trimmed content that starts with its title, is no summary and is not call text goes out as "WA: " + content |
| Listener.ChatNotificationForwarded | app/src/main/java/com/smsgateway24/nosignalclub/service/WhatsAppNotificationListener.kt:28-56 | a notification titled "Bob" with text "Bob: see you at 5" goes out as "WA: Bob: see you at 5" |
| Listener.OnNotificationPosted | app/src/main/java/com/smsgateway24/nosignalclub/service/WhatsAppNotificationListener.kt:28-60 | the outcome and the new map are exactly those of `Respond` on the old map |

## Left out

- Coroutines: `SupervisorJob`, `CoroutineScope`, `scope.launch` and the `onDestroy` cancellation
  are left out. The guards inside the launched block run right after the guards outside it,
  and each call of `OnNotificationPosted` finishes before the next one begins.
- Concurrency of the `ConcurrentHashMap` is left out, including the compare-and-swap race of
  several callers on one key. In a sequential run, `putIfAbsent` or `replace` succeeds on the
  first pass, so the `while (true)` retry loop is one atomic update.
- `System.currentTimeMillis()` is the parameter `now`.
- `SettingsStore`: the two values read from it, `enabled` and the target number, are
  parameters. DataStore persistence and Flows are not part of this model.
- `SmsSender.sendSms` is the `Sent` outcome. Splitting and transmission are not part of this
  model.
- Android `Bundle` and `Parcelable` access is replaced by the `Payload` datatype. A missing
  entry is the empty string, and an array element that is not a `Bundle` is `OtherParcel`.
  The title read at line 33 and the one read at line 151 are the same extra, so both are
  `Payload.title`.
- `buildDedupeKey` and `isDuplicate` (lines 64-83) are never called, so they are not modelled.
- Text.LowerChar: `lowercase()` is modelled for ASCII, Latin-1 and the basic Cyrillic capitals
  U+0400–U+042F only; other Cyrillic capitals, such as Ґ U+0490 or Қ U+049A, are not lowered.
  No pattern word and no call word contains such a letter.
- Unicode approximations:
  - The word characters deciding `\b` are ASCII letters, digits and `_`, plus the Cyrillic
    block.
  - `\s` and `\d` are the ASCII classes of `java.util.regex` without flags. Android's ICU
    regex engine may take them wider.
- Normalizer.MessageKeyShape: the "no two consecutive whitespace characters" property holds
  for `\s` characters only. Other whitespace that `trim()` strips, such as a no-break space,
  is not collapsed by `replace(Regex("\\s+"), " ")`, and the key can keep it.
- Dedupe.SpacedAdmissions: it assumes a clock that never goes backwards and never reads before
  the epoch, and stored times that are not before the epoch. Without those assumptions a later
  eviction, or a wrapped subtraction, can readmit a key early.
- Dedupe.RepeatWithinWindowDropped: it rests on the same clock assumptions as SpacedAdmissions.
- Listener.RepostAfterWindowSent: it assumes the two times differ by at most the `Long`
  maximum. A larger difference wraps around and reads as blocked.
- SummaryClassifier.SummaryExamplesFor: the literal examples are derived from the lemmas about
  every digit string N, so they say nothing beyond those lemmas.
- Determinism of `normalizeMessage` needs no lemma. Every function of the model is
  deterministic.
