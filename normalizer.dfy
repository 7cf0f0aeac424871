/**
  The text the listener forwards (`normalizeMessage`) and the key it deduplicates on
  (`messageKey`).

  `normalizeMessage` merges title and content without repeating a sender label the content
  already carries, then marks the result as an incoming call or as a plain WhatsApp message.
  `messageKey` trims the forwarded text and turns every run of `\s` characters into one space.
 */
module Normalizer {
  import opened Text

  /** The prefix of every forwarded text that is not a call. */
  const GenericMarker: string := "WA: "

  /** The prefix of a forwarded call: "WA: incoming call — " in Russian. */
  const CallMarker: string := "WA: входящий звонок — "

  /** What goes between title and content when both are kept. */
  const Separator: string := " — "

  // ---------------------------------------------------------------------------
  // normalizeMessage
  // ---------------------------------------------------------------------------

  /** The `when` of `normalizeMessage`: the trimmed content when the title is blank or is
      already its label, the trimmed title when the content is blank, and "title — content"
      otherwise. */
  function Combine(title: string, content: string): string {
    var t := Trim(title);
    var c := Trim(content);
    if IsBlank(t) then c
    else if IsBlank(c) then t
    else if StartsWith(c, t) then c
    else if StartsWith(c, t + ":") then c
    else if StartsWith(c, t + " —") then c
    else t + Separator + c
  }

  /** The merge rule stated on its own: keep the content alone when it is empty-titled or
      starts with the title, the title alone when the content is empty, and join them otherwise. */
  function MergeRule(t: string, c: string): string {
    if t == [] then c
    else if c == [] then t
    else if StartsWith(c, t) then c
    else t + Separator + c
  }

  /** Whether the lower-cased text mentions a call, in English or Russian. */
  predicate IsCallText(s: string) {
    var lower := Lower(s);
    Contains(lower, "calling") || Contains(lower, "звон") || Contains(lower, "voice call") || Contains(lower, "video call")
  }

  /** `normalizeMessage`: the merged text behind the call marker or the generic marker. */
  function NormalizeMessage(title: string, content: string): (r: string)
    ensures StartsWith(r, GenericMarker)
  {
    var combined := Combine(title, content);
    if IsCallText(combined) then CallMarker + combined else GenericMarker + combined
  }

  /** Removes the marker `NormalizeMessage` puts in front. */
  function Unmark(r: string): string {
    if StartsWith(r, CallMarker) then r[|CallMarker|..]
    else if StartsWith(r, GenericMarker) then r[|GenericMarker|..]
    else r
  }

  // ---------------------------------------------------------------------------
  // messageKey
  // ---------------------------------------------------------------------------

  /** The end of the run of `\s` characters starting at `i`. */
  function SkipSpaces(s: string, i: nat): (k: nat)
    requires i <= |s|
    ensures i <= k <= |s|
    decreases |s| - i
  {
    if i < |s| && IsRegexSpace(s[i]) then SkipSpaces(s, i + 1) else i
  }

  /** `s[i..].replace(Regex("\\s+"), " ")`: every maximal run of `\s` becomes one space. */
  function CollapseFrom(s: string, i: nat): string
    requires i <= |s|
    decreases |s| - i
  {
    if i == |s| then []
    else if IsRegexSpace(s[i]) then
      assert SkipSpaces(s, i + 1) > i;
      " " + CollapseFrom(s, SkipSpaces(s, i + 1))
    else [s[i]] + CollapseFrom(s, i + 1)
  }

  function CollapseSpaces(s: string): string {
    CollapseFrom(s, 0)
  }

  /** `messageKey`: the trimmed text with its whitespace runs collapsed. */
  function MessageKey(message: string): string {
    CollapseSpaces(Trim(message))
  }

  /** The characters of `s` that are not `\s`, in order. */
  function NonSpace(s: string): string {
    if s == [] then []
    else (if IsRegexSpace(s[0]) then [] else [s[0]]) + NonSpace(s[1..])
  }

  /** Every `\s` character of `s` is a plain space and no two of them are adjacent. */
  predicate SingleSpaced(s: string) {
    (forall k :: 0 <= k < |s| && IsRegexSpace(s[k]) ==> s[k] == ' ')
    && (forall k :: 0 <= k < |s| - 1 ==> !(IsRegexSpace(s[k]) && IsRegexSpace(s[k + 1])))
  }

  // ---------------------------------------------------------------------------
  // Lemmas about normalizeMessage
  // ---------------------------------------------------------------------------

  lemma PrefixOfExtension(c: string, t: string, x: string)
    requires StartsWith(c, t + x)
    ensures StartsWith(c, t)
  {
    assert (t + x)[..|t|] == t;
  }

  lemma TrimBlank(s: string)
    ensures IsBlank(Trim(s)) <==> Trim(s) == []
    ensures IsBlank(s) <==> Trim(s) == []
  {
    TrimSplits(s);
  }

  /** The "title:" and "title —" cases of the source are subsumed by the "starts with the
      title" case before them: `normalizeMessage` merges by `MergeRule`. */
  lemma CombineFollowsMergeRule(title: string, content: string)
    ensures Combine(title, content) == MergeRule(Trim(title), Trim(content))
  {
    var t, c := Trim(title), Trim(content);
    TrimBlank(title);
    TrimBlank(content);
    if StartsWith(c, t + ":") {
      PrefixOfExtension(c, t, ":");
    }
    if StartsWith(c, t + " —") {
      PrefixOfExtension(c, t, " —");
    }
  }

  /** The merged text is blank exactly when title and content both are; when both are
      non-blank it starts with the trimmed title and ends with the trimmed content; and it
      never has whitespace at either end. */
  lemma CombineShape(title: string, content: string)
    ensures IsBlank(Combine(title, content)) <==> IsBlank(title) && IsBlank(content)
    ensures !IsBlank(title) && !IsBlank(content) ==>
      var r := Combine(title, content);
      var c := Trim(content);
      StartsWith(r, Trim(title)) && |c| <= |r| && r[|r| - |c|..] == c
    ensures Trim(Combine(title, content)) == Combine(title, content)
  {
    var t, c := Trim(title), Trim(content);
    CombineFollowsMergeRule(title, content);
    TrimBlank(title);
    TrimBlank(content);
    TrimBlank(t);
    TrimBlank(c);
    TrimIdempotent(title);
    TrimIdempotent(content);
    TrimSplits(t);
    TrimSplits(c);
    var r := Combine(title, content);
    if t != [] && c != [] {
      if !StartsWith(c, t) {
        assert r == t + Separator + c;
        assert r[..|t|] == t;
        assert r[|r| - |c|..] == c;
        assert r[0] == t[0] && r[|r| - 1] == c[|c| - 1];
        BlankConcat(t, Separator + c);
        TrimmedIsFixed(r);
      }
    }
  }

  /** Removing the marker gives back the merged text, and the call marker is there exactly
      when the merged text mentions a call. */
  lemma NormalizeRoundTrip(title: string, content: string)
    ensures Unmark(NormalizeMessage(title, content)) == Combine(title, content)
    ensures StartsWith(NormalizeMessage(title, content), CallMarker) <==> IsCallText(Combine(title, content))
  {
    var combined := Combine(title, content);
    if StartsWith(GenericMarker + combined, CallMarker) {
      CallMarkerMentionsCall(combined);
    }
  }

  /** A text that the generic marker turns into one starting with the call marker starts with
      "входящий звонок — ", which mentions a call ("звон"). */
  lemma CallMarkerMentionsCall(combined: string)
    requires StartsWith(GenericMarker + combined, CallMarker)
    ensures IsCallText(combined)
  {
    assert combined[9..13] == (GenericMarker + combined)[13..17] == CallMarker[13..17] == "звон";
    var lower := Lower(combined);
    assert lower[9..13] == "звон";
    assert "звон" <= lower[9..];
  }

  /** The forwarded text is never blank, so the source's blank check after `normalizeMessage`
      never drops anything. */
  lemma NormalizeNeverBlank(title: string, content: string)
    ensures !IsBlank(NormalizeMessage(title, content))
  {
    var r := NormalizeMessage(title, content);
    assert r[0] == 'W';
  }

  /** Two merge examples: "Alice" with "Alice: hi", and "Alice" with "hi". */
  lemma CombineExamples()
    ensures Combine("Alice", "Alice: hi") == "Alice: hi"
    ensures Combine("Alice", "hi") == "Alice — hi"
  {
    TrimmedIsFixed("Alice");
    TrimmedIsFixed("Alice: hi");
    TrimmedIsFixed("hi");
    assert !IsBlank("Alice") && !IsBlank("hi") && !IsBlank("Alice: hi");
    assert !StartsWith("hi", "Alice");
    assert !StartsWith("hi", "Alice:");
    assert !StartsWith("hi", "Alice —");
  }

  // ---------------------------------------------------------------------------
  // Lemmas about messageKey
  // ---------------------------------------------------------------------------

  lemma {:induction false} SkipSpacesSpec(s: string, i: nat)
    requires i <= |s|
    ensures forall m :: i <= m < SkipSpaces(s, i) ==> IsRegexSpace(s[m])
    ensures SkipSpaces(s, i) < |s| ==> !IsRegexSpace(s[SkipSpaces(s, i)])
    decreases |s| - i
  {
    if i < |s| && IsRegexSpace(s[i]) {
      SkipSpacesSpec(s, i + 1);
    }
  }

  /** Collapsing yields single spaces between runs, keeps the first non-space character
      first and the last one last, and is empty only for an empty input. */
  lemma {:induction false} CollapseFromSpec(s: string, i: nat)
    requires i <= |s|
    ensures SingleSpaced(CollapseFrom(s, i))
    ensures CollapseFrom(s, i) == [] <==> i == |s|
    ensures i < |s| ==> CollapseFrom(s, i)[0] == (if IsRegexSpace(s[i]) then ' ' else s[i])
    ensures i < |s| && !IsRegexSpace(s[|s| - 1]) ==>
      CollapseFrom(s, i)[|CollapseFrom(s, i)| - 1] == s[|s| - 1]
    decreases |s| - i
  {
    if i < |s| {
      var r := CollapseFrom(s, i);
      if IsRegexSpace(s[i]) {
        var j := SkipSpaces(s, i + 1);
        SkipSpacesSpec(s, i + 1);
        CollapseFromSpec(s, j);
        var rest := CollapseFrom(s, j);
        assert r == " " + rest;
        if !IsRegexSpace(s[|s| - 1]) {
          assert j < |s|;
        }
        forall k | 0 <= k < |r| - 1 ensures !(IsRegexSpace(r[k]) && IsRegexSpace(r[k + 1])) {
          if k > 0 {
            assert r[k] == rest[k - 1] && r[k + 1] == rest[k];
          } else {
            assert r[1] == rest[0] == s[j];
          }
        }
        forall k | 0 <= k < |r| && IsRegexSpace(r[k]) ensures r[k] == ' ' {
          if k > 0 {
            assert r[k] == rest[k - 1];
          }
        }
      } else {
        CollapseFromSpec(s, i + 1);
        var rest := CollapseFrom(s, i + 1);
        assert r == [s[i]] + rest;
        forall k | 0 <= k < |r| - 1 ensures !(IsRegexSpace(r[k]) && IsRegexSpace(r[k + 1])) {
          if k > 0 {
            assert r[k] == rest[k - 1] && r[k + 1] == rest[k];
          }
        }
        forall k | 0 <= k < |r| && IsRegexSpace(r[k]) ensures r[k] == ' ' {
          if k > 0 {
            assert r[k] == rest[k - 1];
          }
        }
      }
    }
  }

  /** A run of `\s` characters contributes nothing to the non-space characters. */
  lemma {:induction false} NonSpaceSkipsRun(s: string, i: nat, j: nat)
    requires i <= j <= |s|
    requires forall m :: i <= m < j ==> IsRegexSpace(s[m])
    ensures NonSpace(s[i..]) == NonSpace(s[j..])
    decreases j - i
  {
    if i < j {
      assert s[i..][1..] == s[i + 1..];
      NonSpaceSkipsRun(s, i + 1, j);
    }
  }

  /** Collapsing removes and adds only `\s` characters: the other characters stay, in order. */
  lemma {:induction false} CollapseKeepsNonSpace(s: string, i: nat)
    requires i <= |s|
    ensures NonSpace(CollapseFrom(s, i)) == NonSpace(s[i..])
    decreases |s| - i
  {
    if i < |s| {
      var r := CollapseFrom(s, i);
      assert s[i..][1..] == s[i + 1..];
      if IsRegexSpace(s[i]) {
        var j := SkipSpaces(s, i + 1);
        SkipSpacesSpec(s, i + 1);
        CollapseKeepsNonSpace(s, j);
        NonSpaceSkipsRun(s, i + 1, j);
        assert r[1..] == CollapseFrom(s, j);
      } else {
        CollapseKeepsNonSpace(s, i + 1);
        assert r[1..] == CollapseFrom(s, i + 1);
      }
    }
  }

  /** A single-spaced text is left as it is. */
  lemma {:induction false} CollapseFixesSingleSpaced(s: string, i: nat)
    requires i <= |s| && SingleSpaced(s)
    ensures CollapseFrom(s, i) == s[i..]
    decreases |s| - i
  {
    if i < |s| {
      if IsRegexSpace(s[i]) {
        assert i + 1 == |s| || !IsRegexSpace(s[i + 1]);
        assert SkipSpaces(s, i + 1) == i + 1;
        CollapseFixesSingleSpaced(s, i + 1);
        assert s[i..] == [' '] + s[i + 1..];
      } else {
        CollapseFixesSingleSpaced(s, i + 1);
        assert s[i..] == [s[i]] + s[i + 1..];
      }
    }
  }

  /** Skipping a run inside `b` is skipping it in `a + b`, shifted by `|a|`. */
  lemma {:induction false} SkipSpacesSuffix(a: string, b: string, j: nat)
    requires j <= |b|
    ensures SkipSpaces(a + b, |a| + j) == |a| + SkipSpaces(b, j)
    decreases |b| - j
  {
    if j < |b| {
      assert (a + b)[|a| + j] == b[j];
      if IsRegexSpace(b[j]) {
        SkipSpacesSuffix(a, b, j + 1);
      }
    }
  }

  /** One step of `CollapseSuffix` at a `\s` character: the runs after position `k` of `s`
      and position `j` of `b` end at matching places, so the collapsed tails agree. */
  lemma SuffixSpaceStep(s: string, k: nat, b: string, j: nat)
    requires k < |s| && j < |b| && IsRegexSpace(s[k]) && IsRegexSpace(b[j])
    requires CollapseFrom(s, SkipSpaces(s, k + 1)) == CollapseFrom(b, SkipSpaces(b, j + 1))
    ensures CollapseFrom(s, k) == CollapseFrom(b, j)
  {
  }

  /** One step of `CollapseSuffix` at another character: equal characters followed by equal
      collapsed tails. */
  lemma SuffixCharStep(s: string, k: nat, b: string, j: nat)
    requires k < |s| && j < |b| && s[k] == b[j] && !IsRegexSpace(b[j])
    requires CollapseFrom(s, k + 1) == CollapseFrom(b, j + 1)
    ensures CollapseFrom(s, k) == CollapseFrom(b, j)
  {
  }

  /** Collapsing `a + b` from inside `b` is collapsing `b`. */
  lemma {:induction false} CollapseSuffix(a: string, b: string, j: nat)
    requires j <= |b|
    ensures CollapseFrom(a + b, |a| + j) == CollapseFrom(b, j)
    decreases |b| - j
  {
    if j < |b| {
      var s, k := a + b, |a| + j;
      assert s[k] == b[j];
      if IsRegexSpace(b[j]) {
        var m := SkipSpaces(b, j + 1);
        SkipSpacesSuffix(a, b, j + 1);
        assert SkipSpaces(s, k + 1) == |a| + m;
        CollapseSuffix(a, b, m);
        SuffixSpaceStep(s, k, b, j);
      } else {
        CollapseSuffix(a, b, j + 1);
        assert k + 1 == |a| + (j + 1);
        SuffixCharStep(s, k, b, j);
      }
    }
  }

  /** A run that ends inside `a`, or at the end of `a` when `b` does not start with `\s`, ends
      at the same place in `a + b`. */
  lemma {:induction false} SkipSpacesConcat(a: string, b: string, i: nat)
    requires i <= |a|
    requires SkipSpaces(a, i) < |a| || b == [] || !IsRegexSpace(b[0])
    ensures SkipSpaces(a + b, i) == SkipSpaces(a, i)
    decreases |a| - i
  {
    if i < |a| {
      assert (a + b)[i] == a[i];
      if IsRegexSpace(a[i]) {
        SkipSpacesConcat(a, b, i + 1);
      }
    } else if b != [] {
      assert (a + b)[i] == b[0];
    }
  }

  /** A `\s` run that starts in `a` ends in `a + b` where it ends in `a`, when no run
      straddles the boundary. */
  lemma RunStaysInFirst(a: string, b: string, i: nat)
    requires i < |a| && IsRegexSpace(a[i])
    requires b == [] || !IsRegexSpace(a[|a| - 1]) || !IsRegexSpace(b[0])
    ensures SkipSpaces(a + b, i + 1) == SkipSpaces(a, i + 1)
  {
    SkipSpacesSpec(a, i + 1);
    if SkipSpaces(a, i + 1) == |a| {
      assert IsRegexSpace(a[|a| - 1]);
    }
    SkipSpacesConcat(a, b, i + 1);
  }

  /** One step of `CollapseFromConcat` at a `\s` character: when the collapsed text after
      the run in `s` is the one after the run in `a` followed by `tail`, so is the collapsed
      text from the run on. */
  lemma CollapseSpaceStep(s: string, a: string, i: nat, tail: string)
    requires i < |s| && i < |a| && IsRegexSpace(s[i]) && IsRegexSpace(a[i])
    requires CollapseFrom(s, SkipSpaces(s, i + 1)) == CollapseFrom(a, SkipSpaces(a, i + 1)) + tail
    ensures CollapseFrom(s, i) == CollapseFrom(a, i) + tail
  {
  }

  /** One step of `CollapseFromConcat` at another character: equal characters followed by
      collapsed texts that differ by `tail`. */
  lemma CollapseCharStep(s: string, a: string, i: nat, tail: string)
    requires i < |s| && i < |a| && s[i] == a[i] && !IsRegexSpace(a[i])
    requires CollapseFrom(s, i + 1) == CollapseFrom(a, i + 1) + tail
    ensures CollapseFrom(s, i) == CollapseFrom(a, i) + tail
  {
  }

  /** Collapsing `a + b` from inside `a` collapses `a` and `b` separately, when no `\s` run
      straddles the boundary. */
  lemma {:induction false} CollapseFromConcat(a: string, b: string, i: nat)
    requires i <= |a|
    requires a == [] || b == [] || !IsRegexSpace(a[|a| - 1]) || !IsRegexSpace(b[0])
    ensures CollapseFrom(a + b, i) == CollapseFrom(a, i) + CollapseFrom(b, 0)
    decreases |a| - i
  {
    if i == |a| {
      CollapseSuffix(a, b, 0);
    } else {
      var s := a + b;
      assert s[i] == a[i];
      if IsRegexSpace(a[i]) {
        RunStaysInFirst(a, b, i);
        CollapseFromConcat(a, b, SkipSpaces(a, i + 1));
        CollapseSpaceStep(s, a, i, CollapseFrom(b, 0));
      } else {
        CollapseFromConcat(a, b, i + 1);
        CollapseCharStep(s, a, i, CollapseFrom(b, 0));
      }
    }
  }

  /** `replace(Regex("\\s+"), " ")` works run by run: it distributes over a concatenation
      whose boundary does not split a `\s` run. */
  lemma CollapseConcat(a: string, b: string)
    requires a == [] || b == [] || !IsRegexSpace(a[|a| - 1]) || !IsRegexSpace(b[0])
    ensures CollapseSpaces(a + b) == CollapseSpaces(a) + CollapseSpaces(b)
  {
    CollapseFromConcat(a, b, 0);
  }

  /** A whole run of `\s` characters becomes one space. */
  lemma CollapseRun(s: string)
    requires s != [] && forall m :: 0 <= m < |s| ==> IsRegexSpace(s[m])
    ensures CollapseSpaces(s) == " "
  {
    SkipSpacesSpec(s, 1);
    assert SkipSpaces(s, 1) == |s|;
    assert CollapseFrom(s, 0) == " " + CollapseFrom(s, |s|);
  }

  /** A text without `\s` characters is left as it is. */
  lemma CollapseWord(s: string)
    requires forall m :: 0 <= m < |s| ==> !IsRegexSpace(s[m])
    ensures CollapseSpaces(s) == s
  {
    CollapseFixesSingleSpaced(s, 0);
    assert s[0..] == s;
  }

  /** The key has no whitespace at either end, holds no `\s` but single plain spaces, and keeps
      every other character of the trimmed text in order. */
  lemma MessageKeyShape(message: string)
    ensures var k := MessageKey(message);
      (k == [] || (!IsWhitespace(k[0]) && !IsWhitespace(k[|k| - 1])))
      && SingleSpaced(k)
      && NonSpace(k) == NonSpace(Trim(message))
      && (k == [] <==> IsBlank(message))
  {
    var t := Trim(message);
    TrimSplits(message);
    CollapseFromSpec(t, 0);
    CollapseKeepsNonSpace(t, 0);
    assert t[0..] == t;
  }

  /** `messageKey` is idempotent. */
  lemma MessageKeyIdempotent(message: string)
    ensures MessageKey(MessageKey(message)) == MessageKey(message)
  {
    var k := MessageKey(message);
    MessageKeyShape(message);
    TrimmedIsFixed(k);
    CollapseFixesSingleSpaced(k, 0);
    assert k[0..] == k;
  }
}
