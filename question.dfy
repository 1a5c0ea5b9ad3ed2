/**
 * Question building (`generateNewQuestion`): choose the candidate pool,
 * collect up to four distinct distractors by bounded rejection sampling,
 * add a tagged copy of the target and shuffle. Every `Math.random()` draw is
 * a parameter; the shuffle `sort(() => Math.random() - 0.5)` is an arbitrary
 * permutation of positions.
 */
module Question {
  import opened Types

  /** The loop stops once this many distractors are collected. */
  const MaxDistractors: nat := 4
  /** `loopSafety < 200`: the number of draws the loop may make. */
  const MaxDraws: nat := 200
  /** The same-type pool is used only when it has at least this many words. */
  const MinSameType: nat := 4

  /** `if (targetType)`: a type is present and is not the empty string. */
  predicate HasType(w: WordItem)
  {
    w.wordType.Some? && w.wordType.value != ""
  }

  /** `sameTypeWords`: corpus words of the target's type other than the target word. */
  function SameTypeWords(words: seq<WordItem>, target: WordItem): (same: seq<WordItem>)
    ensures forall w :: w in same <==> w in words && w.wordType == target.wordType && w.word != target.word
  {
    Filter((w: WordItem) => w.wordType == target.wordType && w.word != target.word, words)
  }

  /** `candidatePool`: the same-type words when the target has a type and there are at least four of them, else the corpus. */
  function CandidatePool(words: seq<WordItem>, target: WordItem): (pool: seq<WordItem>)
    ensures forall w :: w in pool ==> w in words
    ensures target in words ==> |pool| > 0
    ensures HasType(target) && |SameTypeWords(words, target)| >= MinSameType ==>
      && pool == SameTypeWords(words, target)
      && |pool| >= MinSameType
      && forall w :: w in pool ==> w.wordType == target.wordType && w.word != target.word
    ensures !(HasType(target) && |SameTypeWords(words, target)| >= MinSameType) ==> pool == words
  {
    if HasType(target) then
      var same := SameTypeWords(words, target);
      if |same| >= MinSameType then same else words
    else words
  }

  predicate UnitDraws(draws: seq<real>)
  {
    forall i :: 0 <= i < |draws| ==> UnitDraw(draws[i])
  }

  /** What the loop may have collected: distinct words, none the target, all from the pool. */
  predicate GoodDistractors(pool: seq<WordItem>, key: string, acc: seq<WordItem>)
  {
    && DistinctWords(acc)
    && (forall i :: 0 <= i < |acc| ==> acc[i].word != key)
    && (forall i :: 0 <= i < |acc| ==> acc[i] in pool)
  }

  /** One loop step: keep the drawn word unless it is the target or already collected. */
  function Step(pool: seq<WordItem>, key: string, u: real, acc: seq<WordItem>): (next: seq<WordItem>)
    requires |pool| > 0 && UnitDraw(u)
    ensures next == acc || (|next| == |acc| + 1 && next[..|acc|] == acc)
    ensures GoodDistractors(pool, key, acc) ==> GoodDistractors(pool, key, next)
  {
    var d := pool[Pick(u, |pool|)];
    if d.word != key && !HasWord(acc, d.word) then acc + [d] else acc
  }

  /** The distractors the loop collects from `acc` onwards with the remaining `draws`. */
  function Collect(pool: seq<WordItem>, key: string, draws: seq<real>, acc: seq<WordItem>): (r: seq<WordItem>)
    requires |pool| > 0 && UnitDraws(draws)
    ensures |acc| <= |r| && r[..|acc|] == acc
    ensures |acc| <= MaxDistractors ==> |r| <= MaxDistractors
    ensures GoodDistractors(pool, key, acc) ==> GoodDistractors(pool, key, r)
    decreases |draws|
  {
    if |acc| >= MaxDistractors || draws == [] then acc
    else Collect(pool, key, draws[1..], Step(pool, key, draws[0], acc))
  }

  /**
   * The distractor loop. `draws[k]` is the `Math.random()` of iteration `k`;
   * `loopSafety` is the number of iterations run.
   */
  method CollectDistractors(pool: seq<WordItem>, key: string, draws: seq<real>)
    returns (wrongOptions: seq<WordItem>, loopSafety: nat)
    requires |pool| > 0 && |draws| == MaxDraws && UnitDraws(draws)
    ensures wrongOptions == Collect(pool, key, draws, [])
    ensures loopSafety <= MaxDraws
    ensures |wrongOptions| <= MaxDistractors
    ensures |wrongOptions| < MaxDistractors ==> loopSafety == MaxDraws
    ensures GoodDistractors(pool, key, wrongOptions)
  {
    wrongOptions := [];
    loopSafety := 0;
    while |wrongOptions| < MaxDistractors && loopSafety < MaxDraws
      invariant loopSafety <= MaxDraws
      invariant |wrongOptions| <= MaxDistractors
      invariant GoodDistractors(pool, key, wrongOptions)
      invariant Collect(pool, key, draws[loopSafety..], wrongOptions) == Collect(pool, key, draws, [])
    {
      ghost var before := wrongOptions;
      var randomDistractor := pool[Pick(draws[loopSafety], |pool|)];
      var isDuplicate := HasWord(wrongOptions, randomDistractor.word);
      if randomDistractor.word != key && !isDuplicate {
        wrongOptions := wrongOptions + [randomDistractor];
      }
      assert wrongOptions == Step(pool, key, draws[loopSafety], before);
      CollectStep(pool, key, draws, loopSafety, before);
      loopSafety := loopSafety + 1;
    }
    CollectDone(pool, key, draws, loopSafety, wrongOptions);
  }

  /** One more iteration of the loop is one more unfolding of `Collect`. */
  lemma CollectStep(pool: seq<WordItem>, key: string, draws: seq<real>, i: nat, acc: seq<WordItem>)
    requires |pool| > 0 && UnitDraws(draws) && i < |draws| && |acc| < MaxDistractors
    ensures Collect(pool, key, draws[i..], acc) == Collect(pool, key, draws[i + 1..], Step(pool, key, draws[i], acc))
  {
    assert draws[i..][0] == draws[i];
    assert draws[i..][1..] == draws[i + 1..];
  }

  /** Once four are collected or the draws are used up, `Collect` returns what it has. */
  lemma CollectDone(pool: seq<WordItem>, key: string, draws: seq<real>, i: nat, acc: seq<WordItem>)
    requires |pool| > 0 && UnitDraws(draws) && i <= |draws|
    requires |acc| >= MaxDistractors || i == |draws|
    ensures Collect(pool, key, draws[i..], acc) == acc
  {
    if |acc| < MaxDistractors {
      assert draws[i..] == [];
    }
  }

  /** `{ ...randomWordObj, isCorrect: true }` */
  function TagCorrect(target: WordItem): (c: WordItem)
    ensures IsTagged(c) && c.word == target.word
    ensures c.(isCorrect := target.isCorrect) == target
  {
    target.(isCorrect := Some(true))
  }

  /** `perm` is a bijection on the positions 0 .. n-1. */
  predicate IsPermutation(perm: seq<nat>, n: nat)
  {
    && |perm| == n
    && (forall i :: 0 <= i < n ==> perm[i] < n)
    && (forall i, j :: 0 <= i < j < n ==> perm[i] != perm[j])
    && (forall k: nat :: k < n ==> k in perm)
  }

  /** `s` without its element at position `j`. */
  function RemoveAt<T>(s: seq<T>, j: nat): (r: seq<T>)
    requires j < |s|
    ensures |r| == |s| - 1
    ensures forall i :: 0 <= i < |r| ==> r[i] == if i < j then s[i] else s[i + 1]
  {
    s[..j] + s[j + 1..]
  }

  /** Taking the largest position out of a permutation leaves a permutation of the others. */
  lemma {:induction false} RemoveLargest(perm: seq<nat>, n: nat, j: nat)
    requires n > 0 && IsPermutation(perm, n) && j < n && perm[j] == n - 1
    ensures IsPermutation(RemoveAt(perm, j), n - 1)
  {
    var rest := RemoveAt(perm, j);
    forall k: nat | k < n - 1 ensures k in rest {
      assert k in perm;
      var i :| 0 <= i < n && perm[i] == k;
      if i < j {
        assert rest[i] == k;
      } else {
        assert rest[i - 1] == k;
      }
    }
  }

  /** The position at which a permutation of 0 .. n-1 holds `k`. */
  lemma PositionOf(perm: seq<nat>, n: nat, k: nat) returns (j: nat)
    requires IsPermutation(perm, n) && k < n
    ensures j < n && perm[j] == k
  {
    assert k in perm;
    j :| 0 <= j < n && perm[j] == k;
  }

  /** Reading `base` through a permutation of its positions keeps every element, each as often. */
  lemma {:induction false} PermutedSameMultiset(r: seq<WordItem>, base: seq<WordItem>, perm: seq<nat>)
    requires IsPermutation(perm, |base|) && |r| == |base|
    requires forall i :: 0 <= i < |r| ==> r[i] == base[perm[i]]
    ensures multiset(r) == multiset(base)
    decreases |base|
  {
    var n := |base|;
    if n > 0 {
      var j := PositionOf(perm, n, n - 1);
      RemoveLargest(perm, n, j);
      RemovedReading(r, base, perm, j);
      PermutedSameMultiset(RemoveAt(r, j), base[..n - 1], RemoveAt(perm, j));
      PutBack(r, base, j);
    }
  }

  /** Without position `j` of `r` and the last position of `base`, `r` still reads `base` through the shortened permutation. */
  lemma RemovedReading(r: seq<WordItem>, base: seq<WordItem>, perm: seq<nat>, j: nat)
    requires |base| > 0 && IsPermutation(perm, |base|) && |r| == |base|
    requires forall i :: 0 <= i < |r| ==> r[i] == base[perm[i]]
    requires j < |base| && perm[j] == |base| - 1
    requires IsPermutation(RemoveAt(perm, j), |base| - 1)
    ensures forall i :: 0 <= i < |base| - 1 ==> RemoveAt(r, j)[i] == base[..|base| - 1][RemoveAt(perm, j)[i]]
  {
  }

  /** Putting the element at position `j` back adds the last element of `base` to the multiset. */
  lemma PutBack(r: seq<WordItem>, base: seq<WordItem>, j: nat)
    requires 0 < |base| && j < |r|
    requires multiset(RemoveAt(r, j)) == multiset(base[..|base| - 1]) && r[j] == base[|base| - 1]
    ensures multiset(r) == multiset(base)
  {
    var rest := RemoveAt(r, j);
    assert r == rest[..j] + [r[j]] + rest[j..];
    assert rest == rest[..j] + rest[j..];
    assert base == base[..|base| - 1] + [base[|base| - 1]];
  }

  /** The shuffled list: position `i` holds `base[perm[i]]`. */
  function Shuffle(base: seq<WordItem>, perm: seq<nat>): (r: seq<WordItem>)
    requires IsPermutation(perm, |base|)
    ensures |r| == |base|
    ensures multiset(r) == multiset(base)
    ensures forall x :: x in r <==> x in base
    ensures DistinctWords(base) ==> DistinctWords(r)
  {
    var r := seq(|base|, i requires 0 <= i < |base| => base[perm[i]]);
    PermutedSameMultiset(r, base, perm);
    assert forall x :: x in base ==> x in r by {
      forall x | x in base ensures x in r {
        var k: nat :| k < |base| && base[k] == x;
        assert k in perm;
        var i :| 0 <= i < |base| && perm[i] == k;
        assert r[i] == x;
      }
    }
    r
  }

  /** `[...wrongOptions, correctOptionObj]` shuffled. */
  function AssembleOptions(wrongOptions: seq<WordItem>, target: WordItem, perm: seq<nat>): (options: seq<WordItem>)
    requires IsPermutation(perm, |wrongOptions| + 1)
    ensures |options| == |wrongOptions| + 1
    ensures forall x :: x in options <==> x in wrongOptions || x == TagCorrect(target)
  {
    Shuffle(wrongOptions + [TagCorrect(target)], perm)
  }

  /**
   * The options of a question: one to five, no repeated word, the target's
   * tagged copy among them and every other option a collected distractor;
   * when no pool word is tagged, exactly the target's copy is tagged.
   */
  lemma {:induction false} OptionsWellFormed(pool: seq<WordItem>, wrongOptions: seq<WordItem>, target: WordItem,
                                             perm: seq<nat>)
    requires |wrongOptions| <= MaxDistractors && GoodDistractors(pool, target.word, wrongOptions)
    requires IsPermutation(perm, |wrongOptions| + 1)
    ensures var options := AssembleOptions(wrongOptions, target, perm);
      && 1 <= |options| <= MaxDistractors + 1
      && DistinctWords(options)
      && (exists i :: 0 <= i < |options| && options[i] == TagCorrect(target))
      && (forall i :: 0 <= i < |options| && options[i].word == target.word ==> options[i] == TagCorrect(target))
      && (forall i :: 0 <= i < |options| && options[i].word != target.word ==> options[i] in pool)
      && ((forall w :: w in pool ==> !IsTagged(w)) ==>
            forall i :: 0 <= i < |options| ==> (IsTagged(options[i]) <==> options[i].word == target.word))
  {
    var base := wrongOptions + [TagCorrect(target)];
    assert DistinctWords(base) by {
      forall i, j | 0 <= i < j < |base| ensures base[i].word != base[j].word {
        if j == |wrongOptions| {
          assert base[i] == wrongOptions[i];
        } else {
          assert base[i] == wrongOptions[i] && base[j] == wrongOptions[j];
        }
      }
    }
    var options := AssembleOptions(wrongOptions, target, perm);
    assert TagCorrect(target) in options;
    forall i | 0 <= i < |options| && options[i].word != target.word ensures options[i] in pool {
      assert options[i] in wrongOptions;
    }
    if forall w :: w in pool ==> !IsTagged(w) {
      forall i | 0 <= i < |options| ensures IsTagged(options[i]) <==> options[i].word == target.word {
        if options[i] in wrongOptions {
          assert options[i] in pool;
        }
      }
    }
  }
}
