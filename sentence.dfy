/**
 * How the question sentence is shown. The current screen splits the sentence
 * at the seven-underscore blank and shows `parts[0] + answer + parts[1]` once
 * answered; the legacy screen replaces every run of underscores (`/_+/g`)
 * with the answer.
 */
module Sentence {
  import opened Types
  import opened Strings

  /** The separator of `split('_______')`. */
  const Blank: string := "_______"

  /** `parts[0]`, then the answer, then `parts[1]` (absent reads as nothing). */
  function FilledSentence(sentence: string, answer: string): (shown: string)
    ensures shown == SplitFirstTwo(sentence, Blank).0 + answer + SplitFirstTwo(sentence, Blank).1
    ensures IndexOf(sentence, Blank, 0).None? ==> shown == sentence + answer
    ensures IndexOf(sentence, Blank, 0).Some? ==>
      var i := IndexOf(sentence, Blank, 0).value;
      && i + |answer| <= |shown|
      && shown[..i] == sentence[..i]
      && shown[i..i + |answer|] == answer
  {
    var parts := SplitFirstTwo(sentence, Blank);
    var shown := parts.0 + answer + parts.1;
    assert IndexOf(sentence, Blank, 0).Some? ==> |parts.0| == IndexOf(sentence, Blank, 0).value;
    assert shown[..|parts.0|] == parts.0 && shown[|parts.0|..|parts.0| + |answer|] == answer;
    shown
  }

  /** `renderSentence()`: nothing without a question, the raw sentence before an answer, the filled one after. */
  function RenderSentence(question: Option<CurrentQuestionState>, answered: bool): (shown: Option<string>)
    ensures question.None? <==> shown.None?
    ensures question.Some? && !answered ==> shown == Some(question.value.sentence)
    ensures question.Some? && answered ==> shown == Some(FilledSentence(question.value.sentence, question.value.answer))
  {
    match question
    case None => None
    case Some(q) => if answered then Some(FilledSentence(q.sentence, q.answer)) else Some(q.sentence)
  }

  /** A position that holds another character than the pattern's first is no occurrence. */
  lemma NotOccursAt(s: string, pat: string, k: nat)
    requires |pat| > 0 && k < |s| && s[k] != pat[0]
    ensures !OccursAt(s, pat, k)
  {
  }

  /** In `pre + Blank + post` with no underscore in `pre` and `post`, the only blank sits right after `pre`. */
  lemma {:induction false} OnlyBlankAt(pre: string, post: string)
    requires Lacks(pre, '_') && Lacks(post, '_')
    ensures IndexOf(pre + Blank + post, Blank, 0) == Some(|pre|)
    ensures IndexOf(pre + Blank + post, Blank, |pre| + |Blank|).None?
  {
    var s := pre + Blank + post;
    assert s[|pre|..|pre| + |Blank|] == Blank;
    forall k: nat | k < |pre| ensures !OccursAt(s, Blank, k) {
      NotOccursAt(s, Blank, k);
    }
    IndexOfIs(s, Blank, 0, |pre|);
    forall k | |pre| + |Blank| <= k ensures !OccursAt(s, Blank, k) {
      if k < |s| {
        assert s[k] == post[k - |pre| - |Blank|];
        NotOccursAt(s, Blank, k);
      }
    }
  }

  /** With one blank and no other underscore, the blank is replaced by the answer. */
  lemma {:induction false} FilledOneBlank(pre: string, post: string, answer: string)
    requires Lacks(pre, '_') && Lacks(post, '_')
    ensures FilledSentence(pre + Blank + post, answer) == pre + answer + post
  {
    OnlyBlankAt(pre, post);
    var s := pre + Blank + post;
    assert s[..|pre|] == pre;
    assert s[|pre| + |Blank|..] == post;
  }

  /** In `pre + Blank + mid + Blank + post` with no underscore in `pre` and `mid`, the first two blanks are the visible ones. */
  lemma {:induction false} TwoBlanksAt(pre: string, mid: string, post: string)
    requires Lacks(pre, '_') && Lacks(mid, '_')
    ensures IndexOf(pre + Blank + mid + Blank + post, Blank, 0) == Some(|pre|)
    ensures IndexOf(pre + Blank + mid + Blank + post, Blank, |pre| + |Blank|) == Some(|pre| + |Blank| + |mid|)
  {
    var s := pre + Blank + mid + Blank + post;
    var i := |pre|;
    var j := |pre| + |Blank| + |mid|;
    assert s[i..i + |Blank|] == Blank;
    assert s[j..j + |Blank|] == Blank;
    forall k: nat | k < i ensures !OccursAt(s, Blank, k) {
      NotOccursAt(s, Blank, k);
    }
    IndexOfIs(s, Blank, 0, i);
    forall k: nat | i + |Blank| <= k < j ensures !OccursAt(s, Blank, k) {
      assert s[k] == mid[k - i - |Blank|];
      NotOccursAt(s, Blank, k);
    }
    IndexOfIs(s, Blank, i + |Blank|, j);
  }

  /** The pieces around the first blank of `pre + Blank + mid + rest`. */
  lemma AroundFirstBlank(pre: string, mid: string, rest: string)
    ensures var s := pre + Blank + mid + rest;
      && s[..|pre|] == pre
      && s[|pre| + |Blank|..|pre| + |Blank| + |mid|] == mid
  {
    var head := pre + Blank + mid;
    var s := head + rest;
    assert s[..|head|] == head;
  }

  /** With two blanks, everything after the second one is dropped. */
  lemma {:induction false} FilledDropsAfterSecondBlank(pre: string, mid: string, post: string, answer: string)
    requires Lacks(pre, '_') && Lacks(mid, '_')
    ensures FilledSentence(pre + Blank + mid + Blank + post, answer) == pre + answer + mid
  {
    TwoBlanksAt(pre, mid, post);
    AroundFirstBlank(pre, mid, Blank + post);
    assert pre + Blank + mid + (Blank + post) == pre + Blank + mid + Blank + post;
    assert SplitFirstTwo(pre + Blank + mid + Blank + post, Blank) == (pre, mid);
  }

  /** The text after the leading run of underscores. */
  function DropRun(s: string): (rest: string)
    ensures |rest| <= |s|
    ensures s != [] && s[0] == '_' ==> |rest| < |s|
  {
    if s != [] && s[0] == '_' then DropRun(s[1..]) else s
  }

  /**
   * `sentence.replace(/_+/g, answer)`: every maximal run of underscores
   * becomes the answer. A sentence without underscores is shown as it is.
   */
  function FillBlanks(s: string, answer: string): (r: string)
    ensures '_' !in s ==> r == s
    decreases |s|
  {
    if s == [] then []
    else if s[0] == '_' then answer + FillBlanks(DropRun(s), answer)
    else [s[0]] + FillBlanks(s[1..], answer)
  }

  /** An answer without underscores leaves none behind. */
  lemma {:induction false} FillBlanksFacts(s: string, answer: string)
    ensures Lacks(answer, '_') ==> Lacks(FillBlanks(s, answer), '_')
    decreases |s|
  {
    if s != [] {
      if s[0] == '_' {
        var rest := FillBlanks(DropRun(s), answer);
        FillBlanksFacts(DropRun(s), answer);
        if Lacks(answer, '_') {
          forall i | 0 <= i < |answer + rest| ensures (answer + rest)[i] != '_' {
            if i >= |answer| {
              assert (answer + rest)[i] == rest[i - |answer|];
            }
          }
        }
      } else {
        var rest := FillBlanks(s[1..], answer);
        FillBlanksFacts(s[1..], answer);
        assert s == [s[0]] + s[1..];
        if Lacks(answer, '_') {
          forall i | 0 <= i < |[s[0]] + rest| ensures ([s[0]] + rest)[i] != '_' {
            if i > 0 {
              assert ([s[0]] + rest)[i] == rest[i - 1];
            }
          }
        }
      }
    }
  }

  /** The legacy screen's sentence: raw before an answer, every underscore run filled after. */
  function LegacyRender(q: CurrentQuestionState, answered: bool): (shown: string)
    ensures !answered ==> shown == q.sentence
    ensures answered ==> shown == FillBlanks(q.sentence, q.answer)
    ensures answered && Lacks(q.sentence, '_') ==> shown == q.sentence
    ensures answered && Lacks(q.answer, '_') ==> Lacks(shown, '_')
  {
    if answered then
      FillBlanksFacts(q.sentence, q.answer);
      FillBlanks(q.sentence, q.answer)
    else q.sentence
  }

  /** A character other than an underscore is copied. */
  lemma FillBlanksCopies(c: char, t: string, answer: string)
    requires c != '_'
    ensures FillBlanks([c] + t, answer) == [c] + FillBlanks(t, answer)
  {
    var s := [c] + t;
    assert s[0] == c && s[1..] == t;
  }

  /** Text before the first underscore is kept as it is. */
  lemma {:induction false} FillBlanksKeepsPrefix(pre: string, rest: string, answer: string)
    requires Lacks(pre, '_')
    ensures FillBlanks(pre + rest, answer) == pre + FillBlanks(rest, answer)
    decreases |pre|
  {
    if pre != [] {
      var tail := pre[1..];
      assert pre + rest == [pre[0]] + (tail + rest);
      FillBlanksKeepsPrefix(tail, rest, answer);
      KeepsPrefixStep(pre[0], tail, rest, answer);
      assert pre == [pre[0]] + tail;
    } else {
      assert pre + rest == rest;
    }
  }

  /** One more character that is not an underscore in front of a kept prefix is kept too. */
  lemma KeepsPrefixStep(c: char, tail: string, rest: string, answer: string)
    requires c != '_' && FillBlanks(tail + rest, answer) == tail + FillBlanks(rest, answer)
    ensures FillBlanks([c] + (tail + rest), answer) == [c] + tail + FillBlanks(rest, answer)
  {
    FillBlanksCopies(c, tail + rest, answer);
  }

  /** A run of `n` underscores. */
  function Underscores(n: nat): (u: string)
    ensures |u| == n && forall i :: 0 <= i < n ==> u[i] == '_'
  {
    if n == 0 then [] else ['_'] + Underscores(n - 1)
  }

  /** A whole run of underscores between `pre` and `post` becomes one copy of the answer. */
  lemma {:induction false} FillBlanksReplacesRun(pre: string, n: nat, post: string, answer: string)
    requires Lacks(pre, '_') && n > 0 && (post == [] || post[0] != '_')
    ensures FillBlanks(pre + Underscores(n) + post, answer) == pre + answer + FillBlanks(post, answer)
  {
    var run := Underscores(n) + post;
    assert pre + Underscores(n) + post == pre + run;
    FillBlanksKeepsPrefix(pre, run, answer);
    assert run[0] == '_';
    assert FillBlanks(run, answer) == answer + FillBlanks(DropRun(run), answer);
    DropRunOfRun(n, post);
  }

  /** The leading run of `Underscores(n) + post` is exactly the `n` underscores. */
  lemma {:induction false} DropRunOfRun(n: nat, post: string)
    requires post == [] || post[0] != '_'
    ensures DropRun(Underscores(n) + post) == post
  {
    var s := Underscores(n) + post;
    if n > 0 {
      assert s[0] == '_';
      assert s[1..] == Underscores(n - 1) + post;
      DropRunOfRun(n - 1, post);
    } else {
      assert s == post;
    }
  }

  /** The two screens show the same filled sentence when it has one blank and no other underscore. */
  lemma {:induction false} ScreensAgreeOnOneBlank(pre: string, post: string, answer: string)
    requires Lacks(pre, '_') && Lacks(post, '_')
    ensures FilledSentence(pre + Blank + post, answer) == FillBlanks(pre + Blank + post, answer) == pre + answer + post
  {
    FilledOneBlank(pre, post, answer);
    assert Blank == Underscores(7);
    FillBlanksReplacesRun(pre, 7, post, answer);
    FillBlanksFacts(post, answer);
  }
}
