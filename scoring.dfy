/**
 * Scoring (`handleOptionSelect` after its first-answer guard): bump the
 * aggregate tally and create or update the answered word's record. Also the
 * success percentage behind `getSuccessRateText`.
 */
module Scoring {
  import opened Types
  import Selection

  /** `newStats`: exactly one of the two counters rises by one. */
  function BumpStats(stats: StatsState, isCorrect: bool): (r: StatsState)
    ensures r.correct + r.wrong == stats.correct + stats.wrong + 1
    ensures isCorrect <==> r.correct == stats.correct + 1
    ensures isCorrect ==> r.wrong == stats.wrong
    ensures !isCorrect ==> r.correct == stats.correct && r.wrong == stats.wrong + 1
  {
    StatsState(if isCorrect then stats.correct + 1 else stats.correct,
               if isCorrect then stats.wrong else stats.wrong + 1)
  }

  /** `wordStats[word] || { correct: 0, total: 0 }` */
  function RecordOf(wordStats: WordStatsMap, word: string): (st: WordStat)
    ensures word !in wordStats ==> st == WordStat(0, 0)
    ensures word in wordStats ==> st == wordStats[word]
    ensures StatsWellFormed(wordStats) ==> RecordWellFormed(st)
  {
    if word in wordStats then wordStats[word] else WordStat(0, 0)
  }

  /** `newWordStats`: the answered word's record gets one more attempt, and one more success iff correct. */
  function RecordAnswer(wordStats: WordStatsMap, word: string, isCorrect: bool): (r: WordStatsMap)
    ensures r.Keys == wordStats.Keys + {word}
    ensures forall w :: w in wordStats && w != word ==> r[w] == wordStats[w]
    ensures r[word].total == RecordOf(wordStats, word).total + 1
    ensures r[word].correct == RecordOf(wordStats, word).correct + (if isCorrect then 1 else 0)
    ensures StatsWellFormed(wordStats) ==> StatsWellFormed(r)
  {
    var current := RecordOf(wordStats, word);
    wordStats[word := WordStat(if isCorrect then current.correct + 1 else current.correct, current.total + 1)]
  }

  /** A first answer on an unseen word creates `{1, 1}` when correct and `{0, 1}` when wrong. */
  lemma FirstAnswerRecord(wordStats: WordStatsMap, word: string)
    requires word !in wordStats
    ensures RecordAnswer(wordStats, word, true)[word] == WordStat(1, 1)
    ensures RecordAnswer(wordStats, word, false)[word] == WordStat(0, 1)
  {
  }

  /** A wrong answer never lifts a hard word out of the hard pool. */
  lemma {:induction false} WrongAnswerKeepsHard(wordStats: WordStatsMap, word: string)
    requires StatsWellFormed(wordStats) && Selection.IsHard(wordStats, word)
    ensures Selection.IsHard(RecordAnswer(wordStats, word, false), word)
  {
    var after := RecordAnswer(wordStats, word, false);
    Selection.IsHardIff(wordStats, word);
    Selection.IsHardIff(after, word);
  }

  /** A correct answer never pushes a word that is not hard into the hard pool. */
  lemma {:induction false} CorrectAnswerKeepsEasy(wordStats: WordStatsMap, word: string)
    requires !Selection.IsHard(wordStats, word)
    ensures !Selection.IsHard(RecordAnswer(wordStats, word, true), word)
  {
    var after := RecordAnswer(wordStats, word, true);
    Selection.IsHardIff(wordStats, word);
    Selection.IsHardIff(after, word);
  }

  /** `(stat.correct / stat.total) * 100`, or 0 for a record without attempts. */
  function Percentage(st: WordStat): (p: real)
    ensures st.total == 0 ==> p == 0.0
    ensures st.total > 0 ==> p * st.total as real == 100.0 * st.correct as real
    ensures RecordWellFormed(st) ==> 0.0 <= p <= 100.0
  {
    if st.total > 0 then
      var ratio := st.correct as real / st.total as real;
      assert ratio * st.total as real == st.correct as real;
      assert (ratio * 100.0) * st.total as real == 100.0 * (ratio * st.total as real);
      assert RecordWellFormed(st) ==> ratio <= 1.0 by {
        if RecordWellFormed(st) {
          assert ratio * st.total as real == st.correct as real;
          assert ratio * st.total as real <= 1.0 * st.total as real;
        }
      }
      ratio * 100.0
    else 0.0
  }

  /** The number `getSuccessRateText` shows for a word: 0 without a record. */
  function SuccessRatePercent(wordStats: WordStatsMap, word: string): (p: real)
    ensures word !in wordStats || wordStats[word].total == 0 ==> p == 0.0
    ensures word in wordStats && wordStats[word].total > 0 ==>
      p * wordStats[word].total as real == 100.0 * wordStats[word].correct as real
    ensures StatsWellFormed(wordStats) ==> 0.0 <= p <= 100.0
  {
    if word !in wordStats || wordStats[word].total == 0 then 0.0 else Percentage(wordStats[word])
  }

  /** The selector's hard test and the displayed percentage agree: hard iff shown below 60. */
  lemma {:induction false} HardIffShownBelowSixty(wordStats: WordStatsMap, word: string)
    ensures Selection.IsHard(wordStats, word) <==> SuccessRatePercent(wordStats, word) < 60.0
  {
    if word in wordStats && wordStats[word].total > 0 {
      var ratio := Selection.SuccessRatio(wordStats[word]);
      assert SuccessRatePercent(wordStats, word) == ratio * 100.0;
    }
  }
}
