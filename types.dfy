/**
 * The records the quiz engine works on: corpus entries, example sentences,
 * per-word mastery records and the aggregate correct/wrong tally.
 * JavaScript's `undefined` for an absent optional field is `None`.
 */
module Types {

  datatype Option<+T> = None | Some(value: T)

  /** A corpus entry. `isCorrect` is only ever set on the tagged copy of the target. */
  datatype WordItem = WordItem(
    word: string,
    tr: string,
    wordType: Option<string>,
    level: Option<string>,
    isCorrect: Option<bool>)

  /** One example sentence of a word; `question` holds the blank. */
  datatype QuizItem = QuizItem(question: string, answer: string, pos: string)

  /** The sentence bank: word -> its example sentences. */
  type SentencesData = map<string, seq<QuizItem>>

  /** The question on screen: the sentence, its answer and the target word. */
  datatype CurrentQuestionState = CurrentQuestionState(sentence: string, answer: string, rootWord: string)

  /** A per-word mastery record. */
  datatype WordStat = WordStat(correct: nat, total: nat)

  type WordStatsMap = map<string, WordStat>

  /** The aggregate tally shown in the header. */
  datatype StatsState = StatsState(correct: nat, wrong: nat)

  /** The word has at least one example sentence (`sentencesData[w] && sentencesData[w].length > 0`). */
  predicate HasSentences(sentences: SentencesData, w: WordItem)
  {
    w.word in sentences && |sentences[w.word]| > 0
  }

  /** `option.isCorrect === true` */
  predicate IsTagged(w: WordItem)
  {
    w.isCorrect == Some(true)
  }

  /** A record never counts more correct answers than attempts. */
  predicate RecordWellFormed(st: WordStat)
  {
    st.correct <= st.total
  }

  predicate StatsWellFormed(m: WordStatsMap)
  {
    forall w :: w in m ==> RecordWellFormed(m[w])
  }

  /** No two entries share a word. */
  predicate DistinctWords(s: seq<WordItem>)
  {
    forall i, j :: 0 <= i < j < |s| ==> s[i].word != s[j].word
  }

  /** `list.some(opt => opt.word === word)` */
  predicate HasWord(s: seq<WordItem>, word: string)
  {
    exists i :: 0 <= i < |s| && s[i].word == word
  }

  /** A draw of `Math.random()`: a number in [0, 1). */
  predicate UnitDraw(u: real)
  {
    0.0 <= u < 1.0
  }

  /** `Math.floor(u * n)`: the index a draw `u` selects in a list of length `n`. */
  function Pick(u: real, n: nat): (i: nat)
    requires UnitDraw(u) && n > 0
    ensures i < n
  {
    var x := u * n as real;
    assert 0.0 <= x by {
      assert 0.0 <= u;
    }
    assert x < n as real by {
      assert u * n as real < 1.0 * n as real;
    }
    x.Floor
  }

  /** The elements of `s` that satisfy `p`, in their original order (`Array.prototype.filter`). */
  function Filter<T(!new)>(p: T -> bool, s: seq<T>): (r: seq<T>)
    ensures |r| <= |s|
    ensures forall i :: 0 <= i < |r| ==> p(r[i])
    ensures forall x :: x in r <==> x in s && p(x)
    ensures forall x :: multiset(r)[x] == if p(x) then multiset(s)[x] else 0
  {
    if s == [] then []
    else
      var rest := Filter(p, s[1..]);
      assert s == [s[0]] + s[1..];
      if p(s[0]) then [s[0]] + rest else rest
  }
}
