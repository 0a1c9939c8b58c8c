/**
 Shortening of over-long dialogue text (`gpt_basic.zip_text` and
 `gpt_basic.ai_compress`).

 `ai_compress` first asks the remote model for a summary; the remote call is an
 oracle here (`Summariser`). When the summary is missing or not shorter, it
 falls back to `zip_text` (drop the letters о/О/o/O, then collapse runs of a
 repeated character) and, if that is still too long, to a hard cut.
 */
module Compress {

  import opened Strings

  /** `a` can be obtained from `b` by deleting characters (matched from the end). */
  predicate IsSubsequence<T(==)>(a: seq<T>, b: seq<T>)
    decreases |b|
  {
    if |a| == 0 then true
    else if |b| == 0 then false
    else if a[|a| - 1] == b[|b| - 1] then IsSubsequence(a[..|a| - 1], b[..|b| - 1])
    else IsSubsequence(a, b[..|b| - 1])
  }

  lemma {:induction false} SubsequenceExtend<T>(a: seq<T>, b: seq<T>, x: T)
    requires IsSubsequence(a, b)
    ensures IsSubsequence(a, b + [x])
    decreases |b|, 1
  {
    var b' := b + [x];
    assert b'[..|b'| - 1] == b;
    if |a| > 0 && a[|a| - 1] == x {
      SubsequenceDropLast(a, b);
    }
  }

  lemma {:induction false} SubsequenceDropLast<T>(a: seq<T>, b: seq<T>)
    requires |a| > 0 && IsSubsequence(a, b)
    ensures IsSubsequence(a[..|a| - 1], b)
    decreases |b|, 0
  {
    var a', b' := a[..|a| - 1], b[..|b| - 1];
    if a[|a| - 1] == b[|b| - 1] {
      SubsequenceExtend(a', b', b[|b| - 1]);
    } else {
      SubsequenceDropLast(a, b');
      SubsequenceExtend(a', b', b[|b| - 1]);
    }
    assert b' + [b[|b| - 1]] == b;
  }

  lemma {:induction false} SubsequenceAppendBoth<T>(a: seq<T>, b: seq<T>, x: T)
    requires IsSubsequence(a, b)
    ensures IsSubsequence(a + [x], b + [x])
  {
    assert (a + [x])[..|a|] == a;
    assert (b + [x])[..|b|] == b;
  }

  lemma {:induction false} SubsequenceLength<T>(a: seq<T>, b: seq<T>)
    requires IsSubsequence(a, b)
    ensures |a| <= |b|
    decreases |b|
  {
    if |a| > 0 {
      if a[|a| - 1] == b[|b| - 1] {
        SubsequenceLength(a[..|a| - 1], b[..|b| - 1]);
      } else {
        SubsequenceLength(a, b[..|b| - 1]);
      }
    }
  }

  /** Every element of a subsequence occurs in the longer sequence. */
  lemma {:induction false} SubsequenceMembers<T>(a: seq<T>, b: seq<T>)
    requires IsSubsequence(a, b)
    ensures forall x :: x in a ==> x in b
    decreases |b|
  {
    if |a| > 0 {
      var b' := b[..|b| - 1];
      assert b == b' + [b[|b| - 1]];
      if a[|a| - 1] == b[|b| - 1] {
        var a' := a[..|a| - 1];
        SubsequenceMembers(a', b');
        assert a == a' + [a[|a| - 1]];
      } else {
        SubsequenceMembers(a, b');
      }
    }
  }

  lemma {:induction false} SubsequenceTransitive<T>(a: seq<T>, b: seq<T>, c: seq<T>)
    requires IsSubsequence(a, b) && IsSubsequence(b, c)
    ensures IsSubsequence(a, c)
    decreases |c|
  {
    if |a| > 0 {
      SubsequenceLength(a, b);
      SubsequenceLength(b, c);
      var b', c' := b[..|b| - 1], c[..|c| - 1];
      assert c == c' + [c[|c| - 1]];
      if b[|b| - 1] == c[|c| - 1] {
        if a[|a| - 1] == b[|b| - 1] {
          SubsequenceTransitive(a[..|a| - 1], b', c');
        } else {
          SubsequenceTransitive(a, b', c');
          SubsequenceExtend(a, c', c[|c| - 1]);
        }
      } else {
        SubsequenceTransitive(a, b, c');
        SubsequenceExtend(a, c', c[|c| - 1]);
      }
    }
  }

  lemma {:induction false} PrefixIsSubsequence<T>(b: seq<T>, k: nat)
    requires k <= |b|
    ensures IsSubsequence(b[..k], b)
    decreases |b|
  {
    if k == |b| {
      SubsequenceReflexive(b);
      assert b[..k] == b;
    } else {
      PrefixIsSubsequence(b[..|b| - 1], k);
      assert b[..|b| - 1][..k] == b[..k];
      SubsequenceExtend(b[..k], b[..|b| - 1], b[|b| - 1]);
      assert b[..|b| - 1] + [b[|b| - 1]] == b;
    }
  }

  lemma {:induction false} SubsequenceReflexive<T>(a: seq<T>)
    ensures IsSubsequence(a, a)
    decreases |a|
  {
    if |a| > 0 {
      SubsequenceReflexive(a[..|a| - 1]);
    }
  }

  /** The letters `zip_text` deletes: Cyrillic о, О and Latin o, O. */
  predicate IsDroppedLetter(c: char)
  {
    c == '\U{43E}' || c == '\U{41E}' || c == 'o' || c == 'O'
  }

  predicate HasNoDroppedLetter(s: string)
  {
    forall i :: 0 <= i < |s| ==> !IsDroppedLetter(s[i])
  }

  /** No two neighbouring characters are equal. */
  predicate HasNoRepeats(s: string)
  {
    forall i :: 0 < i < |s| ==> s[i] != s[i - 1]
  }

  /** `zip_text`'s first step: every о, О, o and O is deleted and nothing else. */
  function DropLetters(s: string): (r: string)
    ensures HasNoDroppedLetter(r)
    ensures IsSubsequence(r, s)
    ensures HasNoDroppedLetter(s) ==> r == s
    // every other character is kept, as often as it occurs
    ensures forall c :: !IsDroppedLetter(c) ==> multiset(r)[c] == multiset(s)[c]
    decreases |s|
  {
    if |s| == 0 then ""
    else
      var prev := DropLetters(s[..|s| - 1]);
      if IsDroppedLetter(s[|s| - 1]) then
        DropStep(s, prev);
        prev
      else
        KeepStep(s, prev);
        prev + [s[|s| - 1]]
  }

  /** The letter drop's step for a dropped last character. */
  lemma DropStep(s: string, prev: string)
    requires |s| > 0 && IsDroppedLetter(s[|s| - 1])
    requires var init := s[..|s| - 1];
             && HasNoDroppedLetter(prev) && IsSubsequence(prev, init) && (HasNoDroppedLetter(init) ==> prev == init)
             && forall c :: !IsDroppedLetter(c) ==> multiset(prev)[c] == multiset(init)[c]
    ensures HasNoDroppedLetter(prev) && IsSubsequence(prev, s) && !HasNoDroppedLetter(s)
    ensures forall c :: !IsDroppedLetter(c) ==> multiset(prev)[c] == multiset(s)[c]
  {
    var init, last := s[..|s| - 1], s[|s| - 1];
    assert s == init + [last];
    SubsequenceExtend(prev, init, last);
    assert multiset(s) == multiset(init) + multiset{last};
  }

  /** The letter drop's step for a kept last character. */
  lemma KeepStep(s: string, prev: string)
    requires |s| > 0 && !IsDroppedLetter(s[|s| - 1])
    requires var init := s[..|s| - 1];
             && HasNoDroppedLetter(prev) && IsSubsequence(prev, init) && (HasNoDroppedLetter(init) ==> prev == init)
             && forall c :: !IsDroppedLetter(c) ==> multiset(prev)[c] == multiset(init)[c]
    ensures var r := prev + [s[|s| - 1]];
            HasNoDroppedLetter(r) && IsSubsequence(r, s) && (HasNoDroppedLetter(s) ==> r == s)
    ensures var r := prev + [s[|s| - 1]];
            forall c :: !IsDroppedLetter(c) ==> multiset(r)[c] == multiset(s)[c]
  {
    var init, last := s[..|s| - 1], s[|s| - 1];
    assert s == init + [last];
    SubsequenceAppendBoth(prev, init, last);
    assert multiset(s) == multiset(init) + multiset{last};
    assert multiset(prev + [last]) == multiset(prev) + multiset{last};
    assert HasNoDroppedLetter(s) ==> HasNoDroppedLetter(init);
  }

  /** The number of positions whose character equals its left neighbour. */
  function Repeats(s: string): nat
    decreases |s|
  {
    if |s| < 2 then 0
    else Repeats(s[..|s| - 1]) + (if s[|s| - 1] == s[|s| - 2] then 1 else 0)
  }

  /** `zip_text`'s second step: a character equal to its left neighbour is
      deleted, every other one is kept. */
  function CollapseRuns(s: string): (r: string)
    ensures |s| > 0 ==> |r| > 0 && r[|r| - 1] == s[|s| - 1]
    ensures HasNoRepeats(r)
    ensures IsSubsequence(r, s)
    ensures HasNoRepeats(s) ==> r == s
    // exactly the repeated neighbours go: one character is left per run
    ensures |r| == |s| - Repeats(s)
    decreases |s|
  {
    if |s| == 0 then ""
    else
      var prev := CollapseRuns(s[..|s| - 1]);
      if |s| == 1 || s[|s| - 1] != s[|s| - 2] then
        RunStartStep(s, prev);
        prev + [s[|s| - 1]]
      else
        RepeatStep(s, prev);
        prev
  }

  /** The collapse's step for a last character that differs from its neighbour. */
  lemma RunStartStep(s: string, prev: string)
    requires |s| > 0 && (|s| == 1 || s[|s| - 1] != s[|s| - 2])
    requires var init := s[..|s| - 1];
             && (|init| > 0 ==> |prev| > 0 && prev[|prev| - 1] == init[|init| - 1])
             && HasNoRepeats(prev) && IsSubsequence(prev, init) && (HasNoRepeats(init) ==> prev == init)
             && |prev| == |init| - Repeats(init)
    ensures var r := prev + [s[|s| - 1]];
            && HasNoRepeats(r) && IsSubsequence(r, s) && (HasNoRepeats(s) ==> r == s)
            && |r| == |s| - Repeats(s)
  {
    var init, last := s[..|s| - 1], s[|s| - 1];
    assert s == init + [last];
    var r := prev + [last];
    SubsequenceAppendBoth(prev, init, last);
    assert Repeats(s) == Repeats(init);
    assert HasNoRepeats(s) ==> HasNoRepeats(init);
    if |prev| > 0 {
      assert r[|r| - 2] == prev[|prev| - 1] == s[|s| - 2];
    }
  }

  /** The collapse's step for a last character equal to its neighbour. */
  lemma RepeatStep(s: string, prev: string)
    requires |s| > 1 && s[|s| - 1] == s[|s| - 2]
    requires var init := s[..|s| - 1];
             && (|init| > 0 ==> |prev| > 0 && prev[|prev| - 1] == init[|init| - 1])
             && IsSubsequence(prev, init)
             && |prev| == |init| - Repeats(init)
    ensures |prev| > 0 && prev[|prev| - 1] == s[|s| - 1]
    ensures IsSubsequence(prev, s) && !HasNoRepeats(s)
    ensures |prev| == |s| - Repeats(s)
  {
    var init, last := s[..|s| - 1], s[|s| - 1];
    assert s == init + [last];
    SubsequenceExtend(prev, init, last);
    assert Repeats(s) == Repeats(init) + 1;
  }

  /** Collapsing runs loses no character value. */
  lemma {:induction false} CollapseRunsKeepsCharacters(s: string)
    ensures forall c :: c in CollapseRuns(s) <==> c in s
    decreases |s|
  {
    if |s| > 0 {
      var init, last := s[..|s| - 1], s[|s| - 1];
      CollapseRunsKeepsCharacters(init);
      assert s == init + [last];
      if |s| > 1 && last == s[|s| - 2] {
        assert last == init[|init| - 1];
      }
    }
  }

  /** `gpt_basic.zip_text`: the dropped letters go, then every run of one
      character shrinks to a single character. */
  function Zip(s: string): (r: string)
    ensures HasNoDroppedLetter(r)
    ensures HasNoRepeats(r)
    ensures IsSubsequence(r, s)
    ensures |r| <= |s|
    // every other character survives
    ensures forall c :: !IsDroppedLetter(c) ==> (c in r <==> c in s)
    // one character per run of what the letter drop leaves
    ensures var dropped := DropLetters(s); IsSubsequence(r, dropped) && |r| == |dropped| - Repeats(dropped)
  {
    var dropped := DropLetters(s);
    var r := CollapseRuns(dropped);
    SubsequenceMembers(r, dropped);
    assert HasNoDroppedLetter(r) by {
      forall i | 0 <= i < |r| ensures !IsDroppedLetter(r[i]) {
        assert r[i] in dropped;
      }
    }
    SubsequenceMembers(dropped, s);
    CollapseRunsKeepsCharacters(dropped);
    assert forall c :: !IsDroppedLetter(c) ==> (c in r <==> c in s) by {
      forall c | !IsDroppedLetter(c) ensures c in r <==> c in s {
        assert c in s <==> multiset(s)[c] > 0;
        assert c in dropped <==> multiset(dropped)[c] > 0;
      }
    }
    SubsequenceTransitive(r, dropped, s);
    SubsequenceLength(r, s);
    r
  }

  /** Zipping an already zipped text changes nothing. */
  lemma ZipIdempotent(s: string)
    ensures Zip(Zip(s)) == Zip(s)
  {
  }

  /** Whose text is being shortened; the source asserts one of these three. */
  datatype Origin = UserQuery | AssistantReply | Dialog

  /** What the summariser is asked: shorten `text` of the given origin to `budget` characters. */
  datatype SummaryRequest = SummaryRequest(origin: Origin, budget: nat, text: string)

  /** The summariser's answer, or the exception it raised. */
  datatype Summary = Summarised(text: string) | SummaryFailed

  type Summariser = SummaryRequest -> Summary

  /** The local fallback: the zipped text if it fits, else the first `budget` characters. */
  function ZipOrCut(prompt: string, budget: nat): (r: string)
    requires |prompt| > budget
    ensures |r| <= budget
    ensures IsSubsequence(r, prompt)
    ensures |Zip(prompt)| <= budget ==> r == Zip(prompt)
    ensures |Zip(prompt)| > budget ==> r == prompt[..budget]
  {
    var zipped := Zip(prompt);
    if |zipped| <= budget then zipped
    else
      PrefixIsSubsequence(prompt, budget);
      prompt[..budget]
  }

  /** `gpt_basic.ai_compress(prompt, max_prompt, origin, force)`. */
  function AiCompress(prompt: string, maxPrompt: nat, origin: Origin, force: bool, summarise: Summariser): (r: string)
    ensures !force && |prompt| <= maxPrompt ==> r == prompt
    ensures !force ==> |r| <= |prompt|
    ensures var answer := summarise(SummaryRequest(origin, maxPrompt, prompt));
            (|prompt| > maxPrompt || force) && answer.Summarised? && (|answer.text| < |prompt| || force)
            ==> r == answer.text
    ensures var answer := summarise(SummaryRequest(origin, maxPrompt, prompt));
            !(answer.Summarised? && (|answer.text| < |prompt| || force)) && |prompt| > maxPrompt
            ==> |r| <= maxPrompt && IsSubsequence(r, prompt) && r == ZipOrCut(prompt, maxPrompt)
    ensures var answer := summarise(SummaryRequest(origin, maxPrompt, prompt));
            r == prompt || (answer.Summarised? && r == answer.text) || (|r| <= maxPrompt && IsSubsequence(r, prompt))
    ensures var answer := summarise(SummaryRequest(origin, maxPrompt, prompt));
            force && |prompt| <= maxPrompt && !answer.Summarised? ==> r == prompt
  {
    if |prompt| > maxPrompt || force then
      var answer := summarise(SummaryRequest(origin, maxPrompt, prompt));
      if answer.Summarised? && (|answer.text| < |prompt| || force) then answer.text
      else if |prompt| > maxPrompt then ZipOrCut(prompt, maxPrompt)
      else prompt
    else prompt
  }
}
