/**
 * The quiz screen's state and its two transitions: building a new question
 * and accepting an answer (first answer wins). The corpus is fixed at
 * construction; the screen's React state variables are the class's fields.
 * The option the learner picked is kept as its position in `options`, which
 * is how the screen's object identity `selectedOption === option` reads.
 */
module Screen {
  import opened Types
  import Selection
  import Question
  import Scoring
  import Sentence

  /** The background image shown after an answer. */
  datatype Feedback = CorrectImage | WrongImage

  /** The `Math.random()` draws one question consumes, in the order the source makes them. */
  datatype QuestionDraws = QuestionDraws(
    explore: real,
    pick: real,
    sentence: real,
    distractors: seq<real>,
    shuffles: seq<seq<nat>>)

  /** Every draw lies in [0, 1), one per loop iteration, and one shuffle of each possible option count. */
  predicate ValidDraws(d: QuestionDraws)
  {
    && UnitDraw(d.explore) && UnitDraw(d.pick) && UnitDraw(d.sentence)
    && |d.distractors| == Question.MaxDraws && Question.UnitDraws(d.distractors)
    && |d.shuffles| == Question.MaxDistractors + 2
    && forall n :: 0 <= n < |d.shuffles| ==> Question.IsPermutation(d.shuffles[n], n)
  }

  /** No corpus entry carries `isCorrect: true` of its own. */
  predicate CorpusUntagged(words: seq<WordItem>)
  {
    forall w :: w in words ==> !IsTagged(w)
  }

  /**
   * A question is well built: its word is a corpus word with sentences and
   * the sentence is one of them; at most five options with distinct words;
   * the target's tagged copy is among them, every other option is a corpus
   * word other than the target, and (for an untagged corpus) only the
   * target's option is tagged.
   */
  predicate WellBuilt(words: seq<WordItem>, sentences: SentencesData, q: CurrentQuestionState, options: seq<WordItem>)
  {
    && (exists t :: t in words && HasSentences(sentences, t) && t.word == q.rootWord)
    && q.rootWord in sentences
    && (exists k :: 0 <= k < |sentences[q.rootWord]| &&
          sentences[q.rootWord][k].question == q.sentence && sentences[q.rootWord][k].answer == q.answer)
    && 1 <= |options| <= Question.MaxDistractors + 1
    && DistinctWords(options)
    && (exists i :: 0 <= i < |options| && IsTagged(options[i]) && options[i].word == q.rootWord)
    && (forall i :: 0 <= i < |options| && options[i].word != q.rootWord ==> options[i] in words)
    && (CorpusUntagged(words) ==>
          forall i :: 0 <= i < |options| ==> (IsTagged(options[i]) <==> options[i].word == q.rootWord))
  }

  /**
   * What `generateNewQuestion` builds once `target` is selected: the sentence
   * the third draw picks among its sentences, and the shuffled options around
   * the distractors the loop collects from the candidate pool.
   */
  function Assemble(words: seq<WordItem>, sentences: SentencesData, target: WordItem, d: QuestionDraws)
    : (CurrentQuestionState, seq<WordItem>)
    requires ValidDraws(d) && target in words && HasSentences(sentences, target)
  {
    var item := sentences[target.word][Pick(d.sentence, |sentences[target.word]|)];
    var wrong := Question.Collect(Question.CandidatePool(words, target), target.word, d.distractors, []);
    (CurrentQuestionState(item.question, item.answer, target.word),
     Question.AssembleOptions(wrong, target, d.shuffles[|wrong| + 1]))
  }

  /** The question assembled from a selected word, its drawn sentence, collected distractors and a shuffle is well built. */
  lemma {:induction false} AssembledQuestionWellBuilt(words: seq<WordItem>, sentences: SentencesData,
                                                      target: WordItem, k: nat,
                                                      wrongOptions: seq<WordItem>, perm: seq<nat>)
    requires target in words && HasSentences(sentences, target) && k < |sentences[target.word]|
    requires |wrongOptions| <= Question.MaxDistractors
    requires Question.GoodDistractors(Question.CandidatePool(words, target), target.word, wrongOptions)
    requires Question.IsPermutation(perm, |wrongOptions| + 1)
    ensures WellBuilt(words, sentences,
                      CurrentQuestionState(sentences[target.word][k].question, sentences[target.word][k].answer, target.word),
                      Question.AssembleOptions(wrongOptions, target, perm))
  {
    var pool := Question.CandidatePool(words, target);
    var options := Question.AssembleOptions(wrongOptions, target, perm);
    var q := CurrentQuestionState(sentences[target.word][k].question, sentences[target.word][k].answer, target.word);
    Question.OptionsWellFormed(pool, wrongOptions, target, perm);
    assert exists t :: t in words && HasSentences(sentences, t) && t.word == q.rootWord by {
      assert target.word == q.rootWord;
    }
    assert sentences[q.rootWord][k].question == q.sentence && sentences[q.rootWord][k].answer == q.answer;
    var i :| 0 <= i < |options| && options[i] == Question.TagCorrect(target);
    assert IsTagged(options[i]) && options[i].word == q.rootWord;
    assert CorpusUntagged(words) ==> forall w :: w in pool ==> !IsTagged(w);
  }

  /** The question assembled around a corpus word with sentences is well built. */
  lemma {:induction false} AssembledWellBuilt(words: seq<WordItem>, sentences: SentencesData, target: WordItem,
                                              d: QuestionDraws)
    requires ValidDraws(d) && target in words && HasSentences(sentences, target)
    ensures WellBuilt(words, sentences, Assemble(words, sentences, target, d).0, Assemble(words, sentences, target, d).1)
  {
    var k := Pick(d.sentence, |sentences[target.word]|);
    var wrong := Question.Collect(Question.CandidatePool(words, target), target.word, d.distractors, []);
    AssembledQuestionWellBuilt(words, sentences, target, k, wrong, d.shuffles[|wrong| + 1]);
  }

  /**
   * Every assembled option other than the target's comes from the candidate
   * pool, so all options share the target's type when that pool is the
   * same-type one.
   */
  lemma {:induction false} AssembledFromPool(words: seq<WordItem>, sentences: SentencesData, target: WordItem,
                                             d: QuestionDraws)
    requires ValidDraws(d) && target in words && HasSentences(sentences, target)
    ensures var options := Assemble(words, sentences, target, d).1;
      forall i :: 0 <= i < |options| && options[i].word != target.word ==> options[i] in Question.CandidatePool(words, target)
    ensures var options := Assemble(words, sentences, target, d).1;
      Question.HasType(target) && |Question.SameTypeWords(words, target)| >= Question.MinSameType ==>
        forall i :: 0 <= i < |options| ==> options[i].wordType == target.wordType
  {
    var pool := Question.CandidatePool(words, target);
    var wrong := Question.Collect(pool, target.word, d.distractors, []);
    var perm := d.shuffles[|wrong| + 1];
    var options := Question.AssembleOptions(wrong, target, perm);
    assert Assemble(words, sentences, target, d).1 == options;
    Question.OptionsWellFormed(pool, wrong, target, perm);
    if Question.HasType(target) && |Question.SameTypeWords(words, target)| >= Question.MinSameType {
      forall i | 0 <= i < |options| ensures options[i].wordType == target.wordType {
        if options[i].word == target.word {
          assert options[i] == Question.TagCorrect(target);
        } else {
          assert options[i] in pool;
        }
      }
    }
  }

  /** The question the draws select: the question assembled around the word `selectSmartWord` picks. */
  function Planned(words: seq<WordItem>, sentences: SentencesData, wordStats: WordStatsMap, d: QuestionDraws)
    : (CurrentQuestionState, seq<WordItem>)
    requires ValidDraws(d) && exists w :: w in words && HasSentences(sentences, w)
  {
    Assemble(words, sentences, Selection.SelectSmartWord(words, sentences, wordStats, d.explore, d.pick).value, d)
  }

  /** The planned question is well built (see `WellBuilt`). */
  lemma {:induction false} PlannedWellBuilt(words: seq<WordItem>, sentences: SentencesData, wordStats: WordStatsMap,
                                            d: QuestionDraws)
    requires ValidDraws(d) && exists w :: w in words && HasSentences(sentences, w)
    ensures WellBuilt(words, sentences, Planned(words, sentences, wordStats, d).0, Planned(words, sentences, wordStats, d).1)
  {
    AssembledWellBuilt(words, sentences, Selection.SelectSmartWord(words, sentences, wordStats, d.explore, d.pick).value, d);
  }

  /** When the weighted branch runs and some word with a sentence is hard, the planned question's word is hard. */
  lemma {:induction false} PlannedWordHard(words: seq<WordItem>, sentences: SentencesData, wordStats: WordStatsMap,
                                           d: QuestionDraws)
    requires ValidDraws(d) && exists w :: w in words && HasSentences(sentences, w)
    requires d.explore >= Selection.ExploreBelow
    requires exists w :: w in words && HasSentences(sentences, w) && Selection.IsHard(wordStats, w.word)
    ensures Selection.IsHard(wordStats, Planned(words, sentences, wordStats, d).0.rootWord)
  {
  }

  /**
   * Every planned option other than the target's comes from the candidate
   * pool, so all options share the target's type when the same-type pool is used.
   */
  lemma {:induction false} PlannedOptionsFromPool(words: seq<WordItem>, sentences: SentencesData, wordStats: WordStatsMap,
                                                  d: QuestionDraws)
    requires ValidDraws(d) && exists w :: w in words && HasSentences(sentences, w)
    ensures var planned := Planned(words, sentences, wordStats, d);
      var target := Selection.SelectSmartWord(words, sentences, wordStats, d.explore, d.pick).value;
      && planned.0.rootWord == target.word
      && (forall i :: 0 <= i < |planned.1| && planned.1[i].word != target.word ==>
            planned.1[i] in Question.CandidatePool(words, target))
      && (Question.HasType(target) && |Question.SameTypeWords(words, target)| >= Question.MinSameType ==>
            forall i :: 0 <= i < |planned.1| ==> planned.1[i].wordType == target.wordType)
  {
    AssembledFromPool(words, sentences, Selection.SelectSmartWord(words, sentences, wordStats, d.explore, d.pick).value, d);
  }

  /**
   * The computing part of `generateNewQuestion()`: select a word, draw one of
   * its sentences, collect distractors and assemble the shuffled options.
   * `None` when no corpus word has a sentence.
   */
  method BuildQuestion(words: seq<WordItem>, sentences: SentencesData, wordStats: WordStatsMap, d: QuestionDraws)
    returns (built: Option<(CurrentQuestionState, seq<WordItem>)>)
    requires ValidDraws(d)
    ensures built.Some? <==> exists w :: w in words && HasSentences(sentences, w)
    ensures built.Some? ==> built.value == Planned(words, sentences, wordStats, d)
  {
    var picked := Selection.SelectSmartWord(words, sentences, wordStats, d.explore, d.pick);
    if picked.None? {
      return None;
    }
    var randomWordObj := picked.value;
    var wordKey := randomWordObj.word;
    if wordKey !in sentences || |sentences[wordKey]| == 0 {
      // The retry of the source cannot happen: the selected word has a sentence.
      assert false;
    }
    var sentencesList := sentences[wordKey];
    var k := Pick(d.sentence, |sentencesList|);
    var randomSentenceObj := sentencesList[k];

    var candidatePool := Question.CandidatePool(words, randomWordObj);
    var wrongOptions, _ := Question.CollectDistractors(candidatePool, wordKey, d.distractors);
    var perm := d.shuffles[|wrongOptions| + 1];
    var allOptions := Question.AssembleOptions(wrongOptions, randomWordObj, perm);
    built := Some((CurrentQuestionState(randomSentenceObj.question, randomSentenceObj.answer, wordKey), allOptions));
  }

  class QuizScreen {
    const words: seq<WordItem>
    const sentences: SentencesData
    var currentQuestion: Option<CurrentQuestionState>
    var options: seq<WordItem>
    var selectedOption: Option<nat>
    var stats: StatsState
    var wordStats: WordStatsMap
    var feedbackImage: Option<Feedback>

    ghost predicate Valid()
      reads this
    {
      && (selectedOption.Some? ==> selectedOption.value < |options|)
      && (|options| > 0 ==> currentQuestion.Some?)
      && (feedbackImage.Some? <==> selectedOption.Some?)
    }

    /** The screen once `loadStatsAndStart` has read the store: absent entries mean zero state. */
    constructor (words: seq<WordItem>, sentences: SentencesData,
                 storedStats: Option<StatsState>, storedWordStats: Option<WordStatsMap>)
      ensures Valid()
      ensures this.words == words && this.sentences == sentences
      ensures currentQuestion.None? && options == [] && selectedOption.None? && feedbackImage.None?
      ensures stats == (if storedStats.Some? then storedStats.value else StatsState(0, 0))
      ensures wordStats == (if storedWordStats.Some? then storedWordStats.value else map[])
    {
      this.words := words;
      this.sentences := sentences;
      currentQuestion := None;
      options := [];
      selectedOption := None;
      feedbackImage := None;
      stats := if storedStats.Some? then storedStats.value else StatsState(0, 0);
      wordStats := if storedWordStats.Some? then storedWordStats.value else map[];
    }

    /**
     * `generateNewQuestion()`. `ok` is false when no corpus word has a
     * sentence: the source then reads `.word` of `undefined` and throws.
     */
    method GenerateNewQuestion(d: QuestionDraws) returns (ok: bool)
      requires Valid() && ValidDraws(d)
      modifies this
      ensures Valid()
      ensures selectedOption.None? && feedbackImage.None?
      ensures stats == old(stats) && wordStats == old(wordStats)
      ensures ok <==> exists w :: w in words && HasSentences(sentences, w)
      ensures !ok ==> currentQuestion == old(currentQuestion) && options == old(options)
      ensures ok ==> currentQuestion.Some? && (currentQuestion.value, options) == Planned(words, sentences, old(wordStats), d)
    {
      var built := BuildQuestion(words, sentences, wordStats, d);
      assert built.Some? ==> built.value == Planned(words, sentences, old(wordStats), d);
      feedbackImage, selectedOption := None, None;
      if built.Some? {
        currentQuestion, options := Some(built.value.0), built.value.1;
      }
      ok := built.Some?;
    }

    /** `handleOptionSelect(options[i])`: the first answer is scored, any later one changes nothing. */
    method HandleOptionSelect(i: nat)
      requires Valid() && i < |options|
      modifies this
      ensures Valid()
      ensures old(selectedOption).Some? ==>
        && selectedOption == old(selectedOption) && feedbackImage == old(feedbackImage)
        && stats == old(stats) && wordStats == old(wordStats)
      ensures old(selectedOption).None? ==>
        var isCorrect := IsTagged(old(options)[i]);
        && selectedOption == Some(i)
        && feedbackImage == Some(if isCorrect then CorrectImage else WrongImage)
        && stats == Scoring.BumpStats(old(stats), isCorrect)
        && wordStats == Scoring.RecordAnswer(old(wordStats), old(currentQuestion).value.rootWord, isCorrect)
      ensures currentQuestion == old(currentQuestion) && options == old(options)
      ensures StatsWellFormed(old(wordStats)) ==> StatsWellFormed(wordStats)
    {
      if selectedOption.Some? {
        return;
      }
      selectedOption := Some(i);
      var isCorrect := IsTagged(options[i]);
      var currentWord := currentQuestion.value.rootWord;
      feedbackImage := Some(if isCorrect then CorrectImage else WrongImage);
      stats := Scoring.BumpStats(stats, isCorrect);
      wordStats := Scoring.RecordAnswer(wordStats, currentWord, isCorrect);
    }

    /** The sentence `renderSentence` shows for the current state. */
    function ShownSentence(): (shown: Option<string>)
      reads this
      ensures shown.None? <==> currentQuestion.None?
      ensures selectedOption.None? && currentQuestion.Some? ==> shown == Some(currentQuestion.value.sentence)
      ensures selectedOption.Some? && currentQuestion.Some? ==>
        shown == Some(Sentence.FilledSentence(currentQuestion.value.sentence, currentQuestion.value.answer))
    {
      Sentence.RenderSentence(currentQuestion, selectedOption.Some?)
    }

    /** The percentage `getSuccessRateText(word)` shows for the current records. */
    function SuccessRateShown(word: string): (p: real)
      reads this
      ensures word !in wordStats || wordStats[word].total == 0 ==> p == 0.0
      ensures word in wordStats && wordStats[word].total > 0 ==>
        p * wordStats[word].total as real == 100.0 * wordStats[word].correct as real
      ensures StatsWellFormed(wordStats) ==> 0.0 <= p <= 100.0
    {
      Scoring.SuccessRatePercent(wordStats, word)
    }
  }
}
