/** Cutting a prompt to a token budget when no tokenizer is installed. */
module Prompt {
  import opened Options

  const MARKER := "\n\n...[TRUNCATED]...\n\n"
  const ANSWER_TAG := "Reference Answer:\n"

  function Estimate(text: string): (n: nat)
    ensures n >= 1
  {
    if |text| + 3 < 4 then 1 else (|text| + 3) / 4
  }

  function TruncateMiddle(text: string, maxChars: int): string {
    if maxChars <= 0 then ""
    else if |text| <= maxChars then text
    else
      var keep := maxChars - |MARKER|;
      if keep <= 0 then text[..maxChars]
      else
        Around(text, Head(keep), keep - Head(keep))
  }

  /** The marker between the first `head` and the last `tail` characters. */
  function Around(text: string, head: nat, tail: nat): (r: string)
    requires head <= |text| && tail <= |text|
    ensures |r| == head + |MARKER| + tail
  {
    text[..head] + MARKER + text[|text| - tail..]
  }

  function Head(keep: nat): (head: nat)
    ensures head <= keep && (keep >= 1 ==> head < keep) && 10 * head <= 7 * keep < 10 * (head + 1)
  {
    keep * 7 / 10
  }

  function TruncateToTokens(text: string, maxTokens: int): string {
    if maxTokens <= 0 then "" else TruncateMiddle(text, maxTokens * 4)
  }

  predicate OccursAt(text: string, part: string, i: nat) {
    i + |part| <= |text| && text[i..i + |part|] == part
  }

  ghost predicate Contains(text: string, part: string) {
    exists i: nat :: OccursAt(text, part, i)
  }

  /** The first place at or after `from`. */
  function Find(text: string, part: string, from: nat): (r: Option<nat>)
    ensures r.Some? ==> from <= r.value && OccursAt(text, part, r.value)
    ensures r.Some? ==> forall i :: from <= i < r.value ==> !OccursAt(text, part, i)
    ensures r.None? ==> forall i: nat :: from <= i ==> !OccursAt(text, part, i)
    decreases |text| - from
  {
    if from + |part| > |text| then None
    else if OccursAt(text, part, from) then Some(from)
    else if from == |text| then None
    else Find(text, part, from + 1)
  }

  /** Everything up to and including the answer tag, where there is one. */
  function Preamble(prompt: string): (r: Option<string>)
    ensures r.Some? ==> |ANSWER_TAG| <= |r.value| <= |prompt| && r.value <= prompt
    ensures r.Some? ==> r.value[|r.value| - |ANSWER_TAG|..] == ANSWER_TAG
  {
    match Find(prompt, ANSWER_TAG, 0)
    case None => None
    case Some(i) => Some(prompt[..i + |ANSWER_TAG|])
  }

  function ApplyLimit(prompt: string, limit: Option<int>): string {
    if limit.None? || limit.value <= 0 then prompt
    else if Estimate(prompt) <= limit.value then prompt
    else match Preamble(prompt)
      case None => TruncateToTokens(prompt, limit.value)
      case Some(prefix) =>
        var remaining := limit.value - Estimate(prefix);
        if remaining <= 0 then TruncateToTokens(prompt, limit.value)
        else prefix + TruncateToTokens(prompt[|prefix|..], remaining)
  }

  lemma EstimateIsBudget(text: string, tokens: nat)
    requires tokens >= 1
    ensures Estimate(text) <= tokens <==> |text| <= 4 * tokens
  {
  }

  /** The middle goes: what stays is a prefix and a non-empty suffix of the text around the marker,
      without overlap, and the result has exactly the length allowed, `keep` of it from the text. */
  lemma MiddleIsCut(text: string, keep: nat)
    requires keep >= 1 && |MARKER| + keep < |text|
    ensures var head, tail := Head(keep), keep - Head(keep);
      && tail >= 1 && head + tail == keep < |text|
      && TruncateMiddle(text, |MARKER| + keep) == Around(text, head, tail)
      && |TruncateMiddle(text, |MARKER| + keep)| == |MARKER| + keep
  {
  }

  lemma TruncatedFits(text: string, maxChars: nat)
    ensures |TruncateMiddle(text, maxChars)| == if maxChars < |text| then maxChars else |text|
  {
  }

  /** The budget is met for every prompt and every limit of at least one token. */
  lemma BudgetIsMet(prompt: string, limit: int)
    requires limit >= 1
    ensures Estimate(ApplyLimit(prompt, Some(limit))) <= limit
  {
    EstimateIsBudget(ApplyLimit(prompt, Some(limit)), limit);
    TruncatedFits(prompt, limit * 4);
    match Preamble(prompt)
    case None =>
    case Some(prefix) =>
      var remaining := limit - Estimate(prefix);
      if remaining > 0 {
        TruncatedFits(prompt[|prefix|..], remaining * 4);
        EstimateIsBudget(prefix, Estimate(prefix));
      }
  }

  /** A prompt comes back unchanged exactly when no limit is set or it is within the limit; so applying
      a limit twice changes nothing more. */
  lemma UnchangedIff(prompt: string, limit: Option<int>)
    ensures ApplyLimit(prompt, limit) == prompt <==>
      limit.None? || limit.value <= 0 || Estimate(prompt) <= limit.value
    ensures ApplyLimit(ApplyLimit(prompt, limit), limit) == ApplyLimit(prompt, limit)
  {
    if limit.Some? && limit.value >= 1 {
      BudgetIsMet(prompt, limit.value);
    }
  }

  /** The prompt carries the marker itself, just where the cut sets it, and goes on from there up to place
      `n` as its own kept end goes on. */
  predicate Rejoins(prompt: string, n: nat, limit: nat) {
    limit >= 6 && RejoinsIn(prompt, n, limit * 4 - |MARKER|)
  }

  predicate RejoinsIn(prompt: string, n: nat, keep: nat) {
    |MARKER| + keep <= |prompt| && RejoinsAt(prompt, n, Head(keep), keep - Head(keep))
  }

  predicate RejoinsAt(prompt: string, n: nat, head: nat, tail: nat)
    requires head + |MARKER| + tail <= |prompt|
  {
    && head + |MARKER| <= n <= head + |MARKER| + tail && OccursAt(prompt, MARKER, head)
    && OccursAt(prompt, prompt[head + |MARKER|..n], |prompt| - tail)
  }

  lemma RejoinedIsKept(prompt: string, n: nat, head: nat, tail: nat)
    requires head + |MARKER| + tail <= |prompt| && n <= |prompt| && RejoinsAt(prompt, n, head, tail)
    ensures prompt[..n] <= Around(prompt, head, tail)
  {
    var result := Around(prompt, head, tail);
    var rest := prompt[head + |MARKER|..n];
    forall i | 0 <= i < n ensures prompt[i] == result[i] {
      if head <= i < head + |MARKER| {
        assert prompt[i] == prompt[head..head + |MARKER|][i - head];
      } else if head + |MARKER| <= i {
        var k := i - head - |MARKER|;
        assert rest[k] == prompt[|prompt| - tail..|prompt| - tail + |rest|][k];
      }
    }
  }

  lemma KeptRejoins(prompt: string, n: nat, head: nat, tail: nat)
    requires head + |MARKER| <= n <= |prompt| && head + |MARKER| + tail <= |prompt|
    requires prompt[..n] <= Around(prompt, head, tail)
    ensures RejoinsAt(prompt, n, head, tail)
  {
    var result := Around(prompt, head, tail);
    assert forall i :: 0 <= i < n ==> prompt[i] == prompt[..n][i] == result[i];
    var rest := prompt[head + |MARKER|..n];
    assert prompt[head..head + |MARKER|] == MARKER;
    forall k | 0 <= k < |rest| ensures rest[k] == prompt[|prompt| - tail + k] {
      assert rest[k] == prompt[head + |MARKER| + k] == result[head + |MARKER| + k];
    }
    assert rest == prompt[|prompt| - tail..|prompt| - tail + |rest|];
  }

  /** At six tokens the prefix ends inside the marker, where the tag's colon does not fit. */
  lemma ColonInMarker(prompt: string, prefix: string, tail: nat)
    requires prefix <= prompt && 21 <= |prefix| <= 22 && tail <= |prompt|
    requires prefix[|prefix| - |ANSWER_TAG|..] == ANSWER_TAG
    ensures !(prefix <= Around(prompt, 2, tail))
  {
    var result := Around(prompt, 2, tail);
    assert prefix[|prefix| - 2] == ANSWER_TAG[|ANSWER_TAG| - 2] == ':';
    assert result[|prefix| - 2] == MARKER[|prefix| - 4] == '.';
  }

  lemma LongPrefixSurvivesIff(prompt: string, prefix: string, limit: int)
    requires limit >= 6 && Estimate(prompt) > limit && Estimate(prefix) >= limit
    requires |ANSWER_TAG| <= |prefix| && prefix <= prompt && prefix[|prefix| - |ANSWER_TAG|..] == ANSWER_TAG
    ensures prefix <= TruncateMiddle(prompt, limit * 4) <==> Rejoins(prompt, |prefix|, limit)
  {
    var keep := limit * 4 - |MARKER|;
    EstimateIsBudget(prefix, limit - 1);
    EstimateIsBudget(prompt, limit);
    HeadIsShort(limit, |prefix|);
    KeptPrefixIff(prompt, prefix, keep);
  }

  lemma KeptPrefixIff(prompt: string, prefix: string, keep: nat)
    requires |ANSWER_TAG| <= |prefix| && prefix <= prompt && prefix[|prefix| - |ANSWER_TAG|..] == ANSWER_TAG
    requires keep >= 1 && |MARKER| + keep < |prompt|
    requires Head(keep) + |MARKER| <= |prefix| || (Head(keep) == 2 && 21 <= |prefix| <= 22)
    ensures prefix <= TruncateMiddle(prompt, |MARKER| + keep) <==> RejoinsIn(prompt, |prefix|, keep)
  {
    MiddleIsCut(prompt, keep);
    CutRejoins(prompt, prefix, Head(keep), keep - Head(keep), TruncateMiddle(prompt, |MARKER| + keep));
  }

  lemma CutRejoins(prompt: string, prefix: string, head: nat, tail: nat, cut: string)
    requires |ANSWER_TAG| <= |prefix| && prefix <= prompt && prefix[|prefix| - |ANSWER_TAG|..] == ANSWER_TAG
    requires head + |MARKER| <= |prefix| || (head == 2 && 21 <= |prefix| <= 22)
    requires head + |MARKER| + tail <= |prompt| && cut == Around(prompt, head, tail)
    ensures prefix <= cut <==> RejoinsAt(prompt, |prefix|, head, tail)
  {
    assert prefix == prompt[..|prefix|];
    if head + |MARKER| > |prefix| {
      ColonInMarker(prompt, prefix, tail);
    } else if prefix <= cut {
      KeptRejoins(prompt, |prefix|, head, tail);
    } else if RejoinsAt(prompt, |prefix|, head, tail) {
      RejoinedIsKept(prompt, |prefix|, head, tail);
    }
  }

  lemma HeadIsShort(limit: nat, length: nat)
    requires limit >= 6 && length > 4 * (limit - 1)
    ensures var head := Head(limit * 4 - |MARKER|);
      head + |MARKER| <= length || (limit == 6 && head == 2 && 21 <= length <= 22)
  {
  }

  /** Everything through the answer tag survives the cut if and only if its own estimate is below the
      limit, or both are five tokens, where the cut is too short for a marker, or the prompt rejoins. */
  lemma PreambleSurvivesIff(prompt: string, limit: int)
    requires limit >= 1 && Estimate(prompt) > limit && Preamble(prompt).Some?
    ensures var prefix := Preamble(prompt).value;
      prefix <= ApplyLimit(prompt, Some(limit)) <==>
        Estimate(prefix) < limit || Estimate(prefix) == limit == 5 || Rejoins(prompt, |prefix|, limit)
    ensures !Contains(prompt, MARKER) ==> !Rejoins(prompt, |Preamble(prompt).value|, limit)
  {
    var prefix := Preamble(prompt).value;
    if Estimate(prefix) < limit {
      PreambleSurvives(prompt, limit);
    } else if limit >= 6 {
      LongPrefixSurvivesIff(prompt, prefix, limit);
    } else {
      assert ApplyLimit(prompt, Some(limit)) == prompt[..limit * 4];
    }
  }

  /** The first tag is the one behind this front. */
  lemma FirstTag(front: string, rest: string)
    requires forall i :: 0 <= i < |front| && front[i] == 'R' ==> i + 1 < |front| && front[i + 1] != 'e'
    ensures Preamble(front + ANSWER_TAG + rest) == Some(front + ANSWER_TAG)
  {
    var prompt := front + ANSWER_TAG + rest;
    forall i | 0 <= i < |front| ensures !OccursAt(prompt, ANSWER_TAG, i) {
      var seen := prompt[i..i + |ANSWER_TAG|];
      assert seen[0] == 'R' ==> seen[1] == front[i + 1] != 'e';
    }
    assert prompt[|front|..|front| + |ANSWER_TAG|] == ANSWER_TAG;
    assert OccursAt(prompt, ANSWER_TAG, |front|);
    assert prompt[..|front| + |ANSWER_TAG|] == front + ANSWER_TAG;
  }

  /** A prompt that rejoins: at twenty tokens its eighty characters through the tag all come back. */
  lemma RejoinsExample(filler: string) returns (prompt: string)
    requires |filler| == 41 && 'R' !in filler
    ensures Preamble(prompt).Some? && Estimate(prompt) > 20 == Estimate(Preamble(prompt).value)
    ensures Rejoins(prompt, |Preamble(prompt).value|, 20)
    ensures Preamble(prompt).value <= ApplyLimit(prompt, Some(20))
  {
    var front := filler + MARKER;
    prompt := front + ANSWER_TAG + ANSWER_TAG;
    forall i | 0 <= i < |front| && front[i] == 'R' ensures i + 1 < |front| && front[i + 1] != 'e' {
      assert i >= 41 && front[i] == MARKER[i - 41];
      assert i == 48 && front[49] == MARKER[8];
    }
    FirstTag(front, ANSWER_TAG);
    TagRejoins(filler, ANSWER_TAG);
    PreambleSurvivesIff(prompt, 20);
  }

  lemma TagRejoins(filler: string, tag: string)
    requires |filler| == 41 && |tag| == 18
    ensures Rejoins(filler + MARKER + tag + tag, 80, 20)
  {
    var prompt := filler + MARKER + tag + tag;
    assert prompt[41..62] == MARKER;
    assert prompt[62..80] == tag == prompt[80..98];
  }

  /** The first half holds of every prompt. */
  lemma PreambleSurvives(prompt: string, limit: int)
    requires limit >= 1 && Preamble(prompt).Some? && Estimate(Preamble(prompt).value) < limit
    ensures Preamble(prompt).value <= ApplyLimit(prompt, Some(limit))
  {
  }

  /** What a cut to a number of characters gives: the text if it fits, its beginning if there is no room for
      the marker, and otherwise seven tenths from the front and the rest from the end around the marker. */
  ghost predicate IsCut(text: string, maxChars: nat, r: string) {
    if |text| <= maxChars then r == text
    else if maxChars <= 21 then r == text[..maxChars]
    else exists head: nat :: 10 * head <= 7 * (maxChars - 21) < 10 * head + 10 && CutAt(text, maxChars - 21, head, r)
  }

  predicate CutAt(text: string, keep: nat, head: nat, r: string)
    requires keep < |text|
  {
    head <= keep && r == text[..head] + "\n\n...[TRUNCATED]...\n\n" + text[|text| - (keep - head)..]
  }

  lemma CutTells(text: string, maxChars: nat)
    ensures IsCut(text, maxChars, TruncateMiddle(text, maxChars))
  {
    if 21 < maxChars < |text| {
      assert CutAt(text, maxChars - 21, Head(maxChars - 21), TruncateMiddle(text, maxChars));
    }
  }

  /** A prompt over the limit is cut as a whole when it has no answer tag or what stands before the answer
      takes the limit. */
  lemma WholeIsCut(prompt: string, limit: int)
    requires limit >= 1 && Estimate(prompt) > limit
    requires Preamble(prompt).Some? ==> |Preamble(prompt).value| > 4 * (limit - 1)
    ensures ApplyLimit(prompt, Some(limit)) == TruncateMiddle(prompt, 4 * limit)
  {
    if Preamble(prompt).Some? {
      LongTakesLimit(Preamble(prompt).value, limit);
    }
    TokensAreFour(prompt, limit);
  }

  lemma LongTakesLimit(prefix: string, limit: int)
    requires limit >= 1
    ensures |prefix| > 4 * (limit - 1) ==> Estimate(prefix) >= limit
    ensures prefix != "" && |prefix| <= 4 * (limit - 1) ==> Estimate(prefix) == (|prefix| + 3) / 4 < limit
  {
  }

  lemma TokensAreFour(text: string, tokens: int)
    requires tokens >= 1
    ensures TruncateToTokens(text, tokens) == TruncateMiddle(text, 4 * tokens)
  {
    assert tokens * 4 == 4 * tokens;
  }

  /** Otherwise only the answer is cut, to what the rest leaves. */
  lemma OnlyAnswerIsCut(prompt: string, prefix: string, limit: int)
    requires limit >= 1 && Estimate(prompt) > limit && Preamble(prompt) == Some(prefix) && |prefix| <= 4 * (limit - 1)
    ensures ApplyLimit(prompt, Some(limit)) ==
      prefix + TruncateMiddle(prompt[|prefix|..], 4 * (limit - (|prefix| + 3) / 4))
  {
    LongTakesLimit(prefix, limit);
    ApplyAnswer(prompt, prefix, limit);
    TokensAreFour(prompt[|prefix|..], limit - Estimate(prefix));
  }

  lemma ApplyAnswer(prompt: string, prefix: string, limit: int)
    requires limit >= 1 && Estimate(prompt) > limit && Preamble(prompt) == Some(prefix) && Estimate(prefix) < limit
    ensures ApplyLimit(prompt, Some(limit)) == prefix + TruncateToTokens(prompt[|prefix|..], limit - Estimate(prefix))
  {
  }
}
