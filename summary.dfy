/**
  Recognition of WhatsApp's aggregate "N new messages" notifications (`isLikelySummary`).

  The three anchored regular expressions of the source are written as token patterns: a
  run of digits (`\d+`), a run of spaces (`\s+`) and a literal word chosen from a list of
  alternatives. `Accepts` is the meaning of a pattern as a regular expression (every way
  of splitting the input is tried); `Matches` is the greedy matcher the classifier runs,
  and `GreedyMatchIsRegexMatch` proves the two agree on every pattern whose neighbouring
  tokens cannot overlap.
 */
module SummaryClassifier {
  import opened Text

  datatype Token = Digits | Spaces | Word(alts: seq<string>)

  /** The characters a run token consumes. */
  predicate InClass(t: Token, c: char) {
    match t
    case Digits => IsDigit(c)
    case Spaces => IsRegexSpace(c)
    case Word(_) => false
  }

  /** Regular-expression semantics of an anchored pattern (`Regex.matches`): the tokens
      `p[j..]` match exactly `s[i..]`, by any split of the input. */
  ghost predicate Accepts(p: seq<Token>, j: nat, s: string, i: nat)
    requires j <= |p| && i <= |s|
    decreases |p| - j
  {
    if j == |p| then i == |s|
    else match p[j]
      case Word(alts) =>
        exists w :: w in alts && w <= s[i..] && Accepts(p, j + 1, s, i + |w|)
      case _ =>
        exists k :: i < k <= |s| && InRun(p[j], s, i, k) && Accepts(p, j + 1, s, k)
  }

  /** Every character of `s[i..k]` belongs to the class of `t`. */
  predicate InRun(t: Token, s: string, i: nat, k: nat)
    requires i <= k <= |s|
  {
    forall m :: i <= m < k ==> InClass(t, s[m])
  }

  /** The end of the longest run of characters of `t`'s class starting at `i`. */
  function RunEnd(t: Token, s: string, i: nat): (k: nat)
    requires i <= |s|
    ensures i <= k <= |s|
    decreases |s| - i
  {
    if i < |s| && InClass(t, s[i]) then RunEnd(t, s, i + 1) else i
  }

  /** Greedy matching of `p[j..]` against `s[i..]`: a run token takes its longest run; a
      word tries each alternative in turn. */
  predicate Matches(p: seq<Token>, j: nat, s: string, i: nat)
    requires j <= |p| && i <= |s|
    decreases |p| - j, 1, 0
  {
    if j == |p| then i == |s|
    else match p[j]
      case Word(alts) => MatchesSomeAlt(p, j, alts, s, i)
      case _ =>
        var k := RunEnd(p[j], s, i);
        k > i && Matches(p, j + 1, s, k)
  }

  /** Some word of `alts` occurs at `i` and the tokens after `p[j]` match what follows it. */
  predicate MatchesSomeAlt(p: seq<Token>, j: nat, alts: seq<string>, s: string, i: nat)
    requires j < |p| && i <= |s|
    decreases |p| - j, 0, |alts|
  {
    alts != [] &&
    ((alts[0] <= s[i..] && Matches(p, j + 1, s, i + |alts[0]|)) || MatchesSomeAlt(p, j, alts[1..], s, i))
  }

  /** A word's alternatives are non-empty and none starts with a character of class `t`. */
  predicate AltsAvoid(alts: seq<string>, t: Token) {
    forall w :: w in alts ==> w != [] && !InClass(t, w[0])
  }

  /** No character can belong both to the run `t` and to the start of the token `u` that
      follows it, so the greedy run is the only split that can succeed. */
  predicate Separated(t: Token, u: Token) {
    if t.Word? then true
    else if u.Word? then AltsAvoid(u.alts, t)
    else t != u
  }

  /** Every pair of neighbouring tokens is separated. */
  predicate WellFormed(p: seq<Token>) {
    forall j :: 0 <= j < |p| - 1 ==> Separated(p[j], p[j + 1])
  }

  /** The shape all three summary expressions share: `^\d+\s+(A)\s+(B)$`. */
  function CountPattern(first: seq<string>, second: seq<string>): seq<Token> {
    [Digits, Spaces, Word(first), Spaces, Word(second)]
  }

  /** `^\d+\s+(new\s+messages|unread\s+messages)$`, with the alternation factored. */
  const EnglishPattern: seq<Token> := CountPattern(["new", "unread"], ["messages"])

  /** `^\d+\s+нов(ых|ые|ое)\s+сообщени(й|я|е)$`, with each group expanded into words. */
  const RussianPattern: seq<Token> :=
    CountPattern(["новых", "новые", "новое"], ["сообщений", "сообщения", "сообщение"])

  /** `^\d+\s+neue\s+nachrichten$`. */
  const GermanPattern: seq<Token> := CountPattern(["neue"], ["nachrichten"])

  /** `\b\d+\b` matches `s[i..j]`: a digit run with a non-word character or an end on each side. */
  predicate BoundedNumberAt(s: string, i: int, j: int) {
    0 <= i < j <= |s|
    && (forall k :: i <= k < j ==> IsDigit(s[k]))
    && (i == 0 || !IsWordChar(s[i - 1]))
    && (j == |s| || !IsWordChar(s[j]))
  }

  /** `Regex(".*\\b\\d+\\b.*").containsMatchIn(s)`. */
  predicate HasBoundedNumber(s: string) {
    exists i, j | 0 <= i < j <= |s| :: BoundedNumberAt(s, i, j)
  }

  /** The looser Russian heuristic: roots of "new" and "message" and a standalone number. */
  predicate LooseRussianSummary(s: string) {
    Contains(s, "нов") && Contains(s, "сообщ") && HasBoundedNumber(s)
  }

  /** `isLikelySummary(content)`: the trimmed, lower-cased text is one of the three
      patterns, or passes the loose Russian heuristic. */
  predicate IsLikelySummary(content: string) {
    var s := Lower(Trim(content));
    Matches(EnglishPattern, 0, s, 0) || Matches(RussianPattern, 0, s, 0) || Matches(GermanPattern, 0, s, 0)
    || LooseRussianSummary(s)
  }

  // ---------------------------------------------------------------------------
  // Lemmas
  // ---------------------------------------------------------------------------

  lemma CountPatternWellFormed(first: seq<string>, second: seq<string>)
    requires AltsAvoid(first, Spaces) && AltsAvoid(second, Spaces)
    ensures WellFormed(CountPattern(first, second))
  {
  }

  lemma PatternsWellFormed()
    ensures WellFormed(EnglishPattern) && WellFormed(RussianPattern) && WellFormed(GermanPattern)
  {
    CountPatternWellFormed(["new", "unread"], ["messages"]);
    CountPatternWellFormed(["новых", "новые", "новое"], ["сообщений", "сообщения", "сообщение"]);
    CountPatternWellFormed(["neue"], ["nachrichten"]);
  }

  /** The classifier accepts exactly the texts whose trimmed, lower-cased form is in the
      language of one of the three expressions, or passes the loose heuristic. */
  lemma IsLikelySummaryIsRegexMatch(content: string)
    ensures
      var s := Lower(Trim(content));
      IsLikelySummary(content) <==>
        Accepts(EnglishPattern, 0, s, 0) || Accepts(RussianPattern, 0, s, 0) || Accepts(GermanPattern, 0, s, 0)
        || LooseRussianSummary(s)
  {
    var s := Lower(Trim(content));
    PatternsWellFormed();
    GreedyMatchIsRegexMatch(EnglishPattern, 0, s, 0);
    GreedyMatchIsRegexMatch(RussianPattern, 0, s, 0);
    GreedyMatchIsRegexMatch(GermanPattern, 0, s, 0);
  }

  /** A blank text is never a summary. */
  lemma SummaryIsNotBlank(content: string)
    ensures IsLikelySummary(content) ==> !IsBlank(content)
  {
    TrimSplits(content);
  }

  /** A match of tokens `p[j..]` that begin with a run needs a first character of that class;
      one that begins with a word needs the first character of one of its alternatives. */
  lemma AcceptsNeedsFirst(p: seq<Token>, j: nat, s: string, i: nat, c: char)
    requires j < |p| && i <= |s| && Accepts(p, j, s, i)
    requires p[j].Word? ==> forall w :: w in p[j].alts ==> w != [] && w[0] != c
    requires !p[j].Word? ==> !InClass(p[j], c)
    ensures i < |s| && s[i] != c
  {
    match p[j]
    case Word(alts) =>
      var w :| w in alts && w <= s[i..] && Accepts(p, j + 1, s, i + |w|);
      assert s[i..][0] == s[i];
    case _ =>
  }

  /** Trying the alternatives one by one is the existential choice of a word. */
  lemma {:induction false} SomeAltIsChoice(p: seq<Token>, j: nat, alts: seq<string>, s: string, i: nat)
    requires j < |p| && i <= |s|
    ensures MatchesSomeAlt(p, j, alts, s, i) <==>
      exists w :: w in alts && w <= s[i..] && Matches(p, j + 1, s, i + |w|)
    decreases |alts|
  {
    if alts != [] {
      SomeAltIsChoice(p, j, alts[1..], s, i);
      assert forall w :: w in alts <==> w == alts[0] || w in alts[1..];
    }
  }

  lemma {:induction false} RunEndSpec(t: Token, s: string, i: nat)
    requires i <= |s|
    ensures forall m :: i <= m < RunEnd(t, s, i) ==> InClass(t, s[m])
    ensures RunEnd(t, s, i) < |s| ==> !InClass(t, s[RunEnd(t, s, i)])
    decreases |s| - i
  {
    if i < |s| && InClass(t, s[i]) {
      RunEndSpec(t, s, i + 1);
    }
  }

  /** In a well-formed pattern, the only run of `p[j]` after which the rest can match is the
      longest one. */
  lemma SplitIsGreedy(p: seq<Token>, j: nat, s: string, i: nat, k: nat)
    requires WellFormed(p) && j < |p| && !p[j].Word?
    requires i < k <= |s| && InRun(p[j], s, i, k) && Accepts(p, j + 1, s, k)
    ensures k == RunEnd(p[j], s, i)
  {
    var n := RunEnd(p[j], s, i);
    RunEndSpec(p[j], s, i);
    if k < n {
      // the rest would have to start with another character of the run
      AcceptsNeedsFirst(p, j + 1, s, k, s[k]);
    }
  }

  /** The greedy matcher decides the regular-expression language of a well-formed pattern. */
  lemma {:induction false} GreedyMatchIsRegexMatch(p: seq<Token>, j: nat, s: string, i: nat)
    requires WellFormed(p) && j <= |p| && i <= |s|
    ensures Matches(p, j, s, i) <==> Accepts(p, j, s, i)
    decreases |p| - j
  {
    if j < |p| {
      match p[j]
      case Word(alts) =>
        SomeAltIsChoice(p, j, alts, s, i);
        forall w | w in alts && w <= s[i..]
          ensures Matches(p, j + 1, s, i + |w|) <==> Accepts(p, j + 1, s, i + |w|)
        {
          GreedyMatchIsRegexMatch(p, j + 1, s, i + |w|);
        }
      case _ =>
        var n := RunEnd(p[j], s, i);
        RunEndSpec(p[j], s, i);
        GreedyMatchIsRegexMatch(p, j + 1, s, n);
        if Accepts(p, j, s, i) {
          var k :| i < k <= |s| && InRun(p[j], s, i, k) && Accepts(p, j + 1, s, k);
          SplitIsGreedy(p, j, s, i, k);
        }
        if Matches(p, j, s, i) {
          assert i < n <= |s| && InRun(p[j], s, i, n) && Accepts(p, j + 1, s, n);
        }
    }
  }

  // ---------------------------------------------------------------------------
  // The summaries the classifier promises to recognise, and texts it must not
  // ---------------------------------------------------------------------------

  /** A word token matches at `i` when one of its alternatives occurs there and the rest matches after it. */
  lemma WordStep(p: seq<Token>, j: nat, s: string, i: nat, w: string)
    requires j < |p| && p[j].Word? && w in p[j].alts
    requires i + |w| <= |s| && s[i..i + |w|] == w
    requires Matches(p, j + 1, s, i + |w|)
    ensures Matches(p, j, s, i)
  {
    assert w <= s[i..];
    SomeAltIsChoice(p, j, p[j].alts, s, i);
  }

  /** A space token matches at `i` when exactly one space stands there and the rest matches after it. */
  lemma SpaceStep(p: seq<Token>, j: nat, s: string, i: nat)
    requires j < |p| && p[j] == Spaces
    requires i + 1 < |s| && s[i] == ' ' && !IsRegexSpace(s[i + 1])
    requires Matches(p, j + 1, s, i + 1)
    ensures Matches(p, j, s, i)
  {
    assert RunEnd(Spaces, s, i + 1) == i + 1;
  }

  /** `N A B` with single spaces matches `CountPattern(As, Bs)` when `A` is in `As`, `B`
      in `Bs` and N is a digit string. */
  lemma CountPhraseMatches(n: string, rest: string, first: seq<string>, second: seq<string>, a: string, b: string)
    requires n != [] && forall i :: 0 <= i < |n| ==> IsDigit(n[i])
    requires rest == " " + a + " " + b
    requires a in first && b in second
    requires a != [] && !IsRegexSpace(a[0]) && b != [] && !IsRegexSpace(b[0])
    ensures Matches(CountPattern(first, second), 0, n + rest, 0)
  {
    var s := n + rest;
    var i1, i2, i3, i4 := |n|, |n| + 1, |n| + 1 + |a|, |n| + 2 + |a|;
    assert s[i4..i4 + |b|] == b && i4 + |b| == |s|;
    assert s[i3] == ' ' && s[i3 + 1] == b[0];
    assert s[i2..i2 + |a|] == a;
    assert s[i1] == ' ' && s[i1 + 1] == a[0];
    assert n <= s && !IsDigit(s[|n|]);
    CountPhraseAt(CountPattern(first, second), s, n, a, b);
  }

  /** The same, on a text given by the positions of its parts. */
  lemma CountPhraseAt(p: seq<Token>, s: string, n: string, a: string, b: string)
    requires |p| == 5 && p[0] == Digits && p[1] == Spaces && p[3] == Spaces
    requires p[2].Word? && a in p[2].alts && p[4].Word? && b in p[4].alts
    requires n != [] && forall i :: 0 <= i < |n| ==> IsDigit(n[i])
    requires a != [] && !IsRegexSpace(a[0]) && b != [] && !IsRegexSpace(b[0])
    requires n <= s && |s| == |n| + 2 + |a| + |b| && !IsDigit(s[|n|])
    requires s[|n|] == ' ' && s[|n| + 1] == a[0] && s[|n| + 1..|n| + 1 + |a|] == a
    requires s[|n| + 1 + |a|] == ' ' && s[|n| + 2 + |a|] == b[0] && s[|n| + 2 + |a|..] == b
    ensures Matches(p, 0, s, 0)
  {
    var i1, i2, i3, i4 := |n|, |n| + 1, |n| + 1 + |a|, |n| + 2 + |a|;
    assert s[i4..i4 + |b|] == b;
    SpaceWordTail(p, 3, s, i3, b);
    SpaceWordStep(p, 1, s, i1, a);
    DigitRun(s, n, 0);
    DigitStep(p, s, i1);
  }

  /** A space token and a word token end the pattern and match one space and `w`, which
      end the text. */
  lemma SpaceWordTail(p: seq<Token>, j: nat, s: string, i: nat, w: string)
    requires j + 2 == |p| && p[j] == Spaces && p[j + 1].Word? && w in p[j + 1].alts
    requires w != [] && !IsRegexSpace(w[0]) && i + 1 + |w| == |s|
    requires s[i] == ' ' && s[i + 1] == w[0] && s[i + 1..i + 1 + |w|] == w
    ensures Matches(p, j, s, i)
  {
    WordStep(p, j + 1, s, i + 1, w);
    SpaceStep(p, j, s, i);
  }

  /** A space token then a word token match one space and `w` when the tokens after them
      match what follows. */
  lemma SpaceWordStep(p: seq<Token>, j: nat, s: string, i: nat, w: string)
    requires j + 2 < |p| && p[j] == Spaces && p[j + 1].Word? && w in p[j + 1].alts
    requires w != [] && !IsRegexSpace(w[0]) && i + 1 + |w| <= |s|
    requires s[i] == ' ' && s[i + 1] == w[0] && s[i + 1..i + 1 + |w|] == w
    requires Matches(p, j + 2, s, i + 1 + |w|)
    ensures Matches(p, j, s, i)
  {
    WordStep(p, j + 1, s, i + 1, w);
    SpaceStep(p, j, s, i);
  }

  /** A digit token matches at the start when the digit run there is non-empty and the rest
      matches after it. */
  lemma DigitStep(p: seq<Token>, s: string, k: nat)
    requires 0 < |p| && p[0] == Digits && 0 < k <= |s| && RunEnd(Digits, s, 0) == k
    requires Matches(p, 1, s, k)
    ensures Matches(p, 0, s, 0)
  {
  }

  /** Over a digit string `n` that starts `s` and is followed by a non-digit, the digit run
      from `i` ends at `|n|`. */
  lemma {:induction false} DigitRun(s: string, n: string, i: nat)
    requires n <= s && i <= |n| && (|n| < |s| ==> !IsDigit(s[|n|]))
    requires forall m :: 0 <= m < |n| ==> IsDigit(n[m])
    ensures RunEnd(Digits, s, i) == |n|
    decreases |n| - i
  {
    if i < |n| {
      assert s[i] == n[i];
      DigitRun(s, n, i + 1);
    }
  }

  /** A digit string followed by a phrase that is already trimmed and lower case is left
      unchanged by the classifier's `trim().lowercase()`. */
  lemma CanonicalCountText(n: string, rest: string)
    requires n != [] && forall i :: 0 <= i < |n| ==> IsDigit(n[i])
    requires rest != [] && !IsWhitespace(rest[|rest| - 1])
    requires forall i :: 0 <= i < |rest| ==> !IsUpper(rest[i])
    ensures Lower(Trim(n + rest)) == n + rest
  {
    TrimmedIsFixed(n + rest);
    LowerKeepsLowerCase(n + rest);
  }

  /** `a` and `b` are words of the first and the second alternation of a count pattern,
      written in lower case, that neither start nor end with whitespace. */
  predicate PhraseWords(first: seq<string>, second: seq<string>, a: string, b: string) {
    a in first && b in second && a != [] && b != []
    && !IsWhitespace(a[0]) && !IsWhitespace(a[|a| - 1]) && !IsWhitespace(b[0]) && !IsWhitespace(b[|b| - 1])
    && (forall i :: 0 <= i < |a| ==> !IsUpper(a[i])) && (forall i :: 0 <= i < |b| ==> !IsUpper(b[i]))
  }

  /** "new messages" and "unread messages" are `PhraseWords` of the English pattern. */
  lemma EnglishPhrases()
    ensures PhraseWords(["new", "unread"], ["messages"], "new", "messages")
    ensures PhraseWords(["new", "unread"], ["messages"], "unread", "messages")
  {
  }

  /** "новых сообщений" is one of the `PhraseWords` of the Russian pattern. */
  lemma RussianPhrases()
    ensures PhraseWords(["новых", "новые", "новое"], ["сообщений", "сообщения", "сообщение"], "новых", "сообщений")
  {
  }

  /** "neue nachrichten" is the `PhraseWords` of the German pattern. */
  lemma GermanPhrases()
    ensures PhraseWords(["neue"], ["nachrichten"], "neue", "nachrichten")
  {
  }

  /** With `a` and `b` such words, `N a b` is its own `trim().lowercase()`. */
  lemma CanonicalPhrase(n: string, rest: string, first: seq<string>, second: seq<string>, a: string, b: string)
    requires n != [] && forall i :: 0 <= i < |n| ==> IsDigit(n[i])
    requires rest == " " + a + " " + b
    requires PhraseWords(first, second, a, b)
    ensures Lower(Trim(n + rest)) == n + rest
  {
    assert !IsWhitespace(rest[|rest| - 1]) by { assert rest[|rest| - 1] == b[|b| - 1]; }
    forall i | 0 <= i < |rest| ensures !IsUpper(rest[i]) {
      if 1 <= i < |a| + 1 { assert rest[i] == a[i - 1]; }
      else if i >= |a| + 2 { assert rest[i] == b[i - |a| - 2]; }
    }
    CanonicalCountText(n, rest);
  }

  /** A text whose `trim().lowercase()` is `N a b`, for a digit string N and words `a`, `b` of
      one of the three patterns, is a summary. */
  lemma CountPhraseIsSummary(content: string, n: string, rest: string, first: seq<string>, second: seq<string>, a: string, b: string)
    requires n != [] && forall i :: 0 <= i < |n| ==> IsDigit(n[i])
    requires rest == " " + a + " " + b
    requires PhraseWords(first, second, a, b)
    requires CountPattern(first, second) == EnglishPattern || CountPattern(first, second) == RussianPattern
      || CountPattern(first, second) == GermanPattern
    requires Lower(Trim(content)) == n + rest
    ensures IsLikelySummary(content)
  {
    CountPhraseMatches(n, rest, first, second, a, b);
  }

  /** "N new messages" and "N unread messages", for every digit string N. */
  lemma EnglishCountsAreSummaries(n: string)
    requires n != [] && forall i :: 0 <= i < |n| ==> IsDigit(n[i])
    ensures IsLikelySummary(n + " new messages")
    ensures IsLikelySummary(n + " unread messages")
  {
    EnglishPhrases();
    var first, second := ["new", "unread"], ["messages"];
    CanonicalPhrase(n, " new messages", first, second, "new", "messages");
    CanonicalPhrase(n, " unread messages", first, second, "unread", "messages");
    CountPhraseIsSummary(n + " new messages", n, " new messages", first, second, "new", "messages");
    CountPhraseIsSummary(n + " unread messages", n, " unread messages", first, second, "unread", "messages");
  }

  /** "N новых сообщений", for every digit string N. */
  lemma RussianCountIsSummary(n: string)
    requires n != [] && forall i :: 0 <= i < |n| ==> IsDigit(n[i])
    ensures IsLikelySummary(n + " новых сообщений")
  {
    RussianPhrases();
    var first, second := ["новых", "новые", "новое"], ["сообщений", "сообщения", "сообщение"];
    CanonicalPhrase(n, " новых сообщений", first, second, "новых", "сообщений");
    CountPhraseIsSummary(n + " новых сообщений", n, " новых сообщений", first, second, "новых", "сообщений");
  }

  /** "N neue nachrichten", for every digit string N. */
  lemma GermanCountIsSummary(n: string)
    requires n != [] && forall i :: 0 <= i < |n| ==> IsDigit(n[i])
    ensures IsLikelySummary(n + " neue nachrichten")
  {
    GermanPhrases();
    CanonicalPhrase(n, " neue nachrichten", ["neue"], ["nachrichten"], "neue", "nachrichten");
    CountPhraseIsSummary(n + " neue nachrichten", n, " neue nachrichten", ["neue"], ["nachrichten"], "neue", "nachrichten");
  }

  // The example lemmas below take their literal texts as parameters fixed by `requires`
  // (`requires c == "..."`) rather than writing the literals into their `ensures`: the
  // verifier evaluates a function applied to a literal string in full, which for the
  // classifier and `lowercase()` is far more work than unfolding it on a parameter.

  /** "N neue Nachrichten", with the capital letter `lowercase()` folds, for every digit string N. */
  lemma GermanCapitalCountIsSummary(n: string)
    requires n != [] && forall i :: 0 <= i < |n| ==> IsDigit(n[i])
    ensures IsLikelySummary(n + " neue Nachrichten")
  {
    GermanPhrases();
    var c, capital, lower := n + " neue Nachrichten", " neue Nachrichten", " neue nachrichten";
    TrimmedIsFixed(c);
    LowerConcat(n, capital);
    LowerKeepsLowerCase(n);
    GermanPhraseLowered(capital, lower);
    CountPhraseIsSummary(c, n, lower, ["neue"], ["nachrichten"], "neue", "nachrichten");
  }

  /** `lowercase()` folds the capital of " neue Nachrichten". */
  lemma GermanPhraseLowered(capital: string, lower: string)
    requires capital == " neue Nachrichten" && lower == " neue nachrichten"
    ensures Lower(capital) == lower
  {
  }

  /** The count phrases "4 new messages", "4 unread messages", "4 новых сообщений",
      "4 neue nachrichten" and "4 neue Nachrichten", with the count `n` equal to "4". */
  lemma SummaryExamplesFor(n: string, c1: string, c2: string, c3: string, c4: string, c5: string)
    requires n == "4"
    requires c1 == n + " new messages" && c2 == n + " unread messages" && c3 == n + " новых сообщений"
    requires c4 == n + " neue nachrichten" && c5 == n + " neue Nachrichten"
    ensures IsLikelySummary(c1) && IsLikelySummary(c2) && IsLikelySummary(c3)
    ensures IsLikelySummary(c4) && IsLikelySummary(c5)
  {
    EnglishCountsAreSummaries(n);
    RussianCountIsSummary(n);
    GermanCountIsSummary(n);
    GermanCapitalCountIsSummary(n);
  }

  /** The classifier looks only at the trimmed, lower-cased text: trimming or lower-casing the
      input first never changes its verdict. */
  lemma ClassifierIgnoresCaseAndTrim(s: string)
    ensures IsLikelySummary(Trim(s)) == IsLikelySummary(s)
    ensures IsLikelySummary(Lower(s)) == IsLikelySummary(s)
  {
    TrimIdempotent(s);
    TrimLower(s);
    LowerIdempotent(Trim(s));
  }

  /** A text that does not start with a digit after `trim().lowercase()` and has no "н" is
      not a summary. */
  lemma NotSummary(content: string)
    requires Lower(Trim(content)) == [] || !IsDigit(Lower(Trim(content))[0])
    requires forall i :: 0 <= i < |Lower(Trim(content))| ==> Lower(Trim(content))[i] != 'н'
    ensures !IsLikelySummary(content)
  {
    MissingFirstChar(Lower(Trim(content)), "нов");
  }

  /** Neither the empty text nor an ordinary message such as "John: hello" is a summary. */
  lemma NonSummaryExamples()
    ensures !IsLikelySummary("") && !IsLikelySummary("John: hello")
  {
    NotSummary("");
    assert Lower(Trim("John: hello")) == "john: hello";
    NotSummary("John: hello");
  }
}
