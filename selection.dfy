/**
 * Word selection (`selectSmartWord`): restrict the corpus to words with an
 * example sentence, then either explore (any such word) or draw from the
 * words the learner finds hard. The two `Math.random()` draws are parameters.
 */
module Selection {
  import opened Types

  /** Draws below this take the exploration branch (`Math.random() < 0.3`). */
  const ExploreBelow: real := 0.3
  /** A word whose success ratio is below this is hard (`successRate < 0.60`). */
  const HardBelow: real := 0.6

  /** `validWords`: the corpus words that have at least one example sentence. */
  function ValidWords(words: seq<WordItem>, sentences: SentencesData): (valid: seq<WordItem>)
    ensures forall w :: w in valid <==> w in words && HasSentences(sentences, w)
    ensures |valid| <= |words|
  {
    Filter((w: WordItem) => HasSentences(sentences, w), words)
  }

  /** `stat.total > 0 ? stat.correct / stat.total : 0` */
  function SuccessRatio(st: WordStat): real
  {
    if st.total > 0 then st.correct as real / st.total as real else 0.0
  }

  /**
   * The filter of `hardWords`: no record, or a success ratio below 0.60. A
   * word without attempts is hard; one answered right every time is not.
   */
  predicate IsHard(wordStats: WordStatsMap, word: string)
    ensures word in wordStats && wordStats[word].total == 0 ==> IsHard(wordStats, word)
    ensures word in wordStats && 0 < wordStats[word].total == wordStats[word].correct ==> !IsHard(wordStats, word)
  {
    word !in wordStats || SuccessRatio(wordStats[word]) < HardBelow
  }

  /** A product of two positive reals is positive. */
  lemma ProductPositive(x: real, y: real)
    requires x > 0.0 && y > 0.0
    ensures x * y > 0.0
  {
  }

  /** For `t > 0`, the ratio `c / t` is below 0.6 exactly when `5c < 3t`. */
  lemma {:induction false} RatioBelowIff(c: real, t: real)
    requires t > 0.0
    ensures c / t < HardBelow <==> 5.0 * c < 3.0 * t
  {
    var r := c / t;
    assert r * t == c;
    if r < HardBelow {
      ProductPositive(HardBelow - r, t);
      assert (HardBelow - r) * t == HardBelow * t - r * t;
    } else if r > HardBelow {
      ProductPositive(r - HardBelow, t);
      assert (r - HardBelow) * t == r * t - HardBelow * t;
    } else {
      assert r * t == HardBelow * t;
    }
  }

  /** The hard test in integers: no record, no attempt, or 5 * correct < 3 * total. */
  lemma {:induction false} IsHardIff(wordStats: WordStatsMap, word: string)
    ensures IsHard(wordStats, word) <==>
      || word !in wordStats
      || wordStats[word].total == 0
      || 5 * wordStats[word].correct < 3 * wordStats[word].total
  {
    if word in wordStats && wordStats[word].total > 0 {
      var st := wordStats[word];
      RatioBelowIff(st.correct as real, st.total as real);
      assert 5.0 * st.correct as real < 3.0 * st.total as real <==> 5 * st.correct < 3 * st.total;
    }
  }

  /** `pool`: the valid hard words, or every valid word when none of them is hard. */
  function WeightedPool(valid: seq<WordItem>, wordStats: WordStatsMap): (pool: seq<WordItem>)
    ensures forall w :: w in pool ==> w in valid
    ensures |valid| > 0 ==> |pool| > 0
    ensures (exists w :: w in valid && IsHard(wordStats, w.word)) ==>
      forall w :: w in pool <==> w in valid && IsHard(wordStats, w.word)
    ensures (forall w :: w in valid ==> !IsHard(wordStats, w.word)) ==> pool == valid
  {
    var hardWords := Filter((w: WordItem) => IsHard(wordStats, w.word), valid);
    if |hardWords| > 0 then hardWords
    else valid
  }

  /**
   * `selectSmartWord()`: `explore` is the first draw, `pick` the index draw.
   * `None` is the `undefined` the source returns when no word has a sentence.
   */
  function SelectSmartWord(words: seq<WordItem>, sentences: SentencesData, wordStats: WordStatsMap,
                           explore: real, pick: real): (r: Option<WordItem>)
    requires UnitDraw(explore) && UnitDraw(pick)
    ensures r.Some? <==> exists w :: w in words && HasSentences(sentences, w)
    ensures r.Some? ==> r.value in words && HasSentences(sentences, r.value)
    ensures r.Some? && explore >= ExploreBelow &&
            (exists w :: w in words && HasSentences(sentences, w) && IsHard(wordStats, w.word)) ==>
            IsHard(wordStats, r.value.word)
  {
    var valid := ValidWords(words, sentences);
    if |valid| == 0 then None
    else if explore < ExploreBelow then Some(valid[Pick(pick, |valid|)])
    else
      var pool := WeightedPool(valid, wordStats);
      Some(pool[Pick(pick, |pool|)])
  }

  /** The draw `i / n` selects index `i` of a list of length `n`. */
  lemma PickOfRatio(i: nat, n: nat)
    requires i < n
    ensures UnitDraw(i as real / n as real) && Pick(i as real / n as real, n) == i
  {
    var u := i as real / n as real;
    assert u * n as real == i as real;
    assert u < 1.0 by {
      assert u * n as real < 1.0 * n as real;
    }
  }

  /** Every word with a sentence can come out of the exploration branch, for some draw. */
  lemma {:induction false} ExplorationReachesEveryValidWord(words: seq<WordItem>, sentences: SentencesData,
                                                            wordStats: WordStatsMap, w: WordItem)
    requires w in words && HasSentences(sentences, w)
    ensures exists pick :: UnitDraw(pick) && SelectSmartWord(words, sentences, wordStats, 0.0, pick) == Some(w)
  {
    var valid := ValidWords(words, sentences);
    var i :| 0 <= i < |valid| && valid[i] == w;
    PickOfRatio(i, |valid|);
    var pick := i as real / |valid| as real;
    assert SelectSmartWord(words, sentences, wordStats, 0.0, pick) == Some(w);
  }
}
