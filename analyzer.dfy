/**
 * The statistics screen's analysis (`analyzeData`): per-word rates, the
 * red/yellow/green distribution, the weak and strong lists, and the general
 * accuracy badge.
 */
module Analyzer {
  import opened Types
  import Scoring

  /** Below this rate a word is red and weak. */
  const RedBelow: real := 60.0
  /** From this rate on a word is green, and strong when practised enough. */
  const GreenFrom: real := 85.0
  /** A strong word has at least this many attempts. */
  const StrongMinTotal: nat := 3

  /** One element of `rawData`. */
  datatype Row = Row(word: string, correct: nat, total: nat, rate: real)

  datatype Distribution = Distribution(red: real, yellow: real, green: real)

  /** What `analyzeData` returns. */
  datatype Analysis = Analysis(weakList: seq<Row>, strongList: seq<Row>, distribution: Distribution, totalCount: nat)

  /** `Object.entries(wordStats)`: the map's entries in some order, each key once. */
  predicate Enumerates(entries: seq<(string, WordStat)>, wordStats: WordStatsMap)
  {
    && (forall i, j :: 0 <= i < j < |entries| ==> entries[i].0 != entries[j].0)
    && (forall i :: 0 <= i < |entries| ==> entries[i].0 in wordStats && wordStats[entries[i].0] == entries[i].1)
    && (forall w :: w in wordStats ==> exists i :: 0 <= i < |entries| && entries[i].0 == w)
  }

  /** `rawData`: one row per entry with its rate. */
  function RawData(entries: seq<(string, WordStat)>): (rows: seq<Row>)
    ensures |rows| == |entries|
    ensures forall i :: 0 <= i < |rows| ==>
      rows[i].word == entries[i].0 && rows[i].correct == entries[i].1.correct && rows[i].total == entries[i].1.total
    ensures forall i :: 0 <= i < |rows| && entries[i].1.total == 0 ==> rows[i].rate == 0.0
    ensures forall i :: 0 <= i < |rows| && entries[i].1.total > 0 ==>
      rows[i].rate * entries[i].1.total as real == 100.0 * entries[i].1.correct as real
    ensures forall i :: 0 <= i < |rows| && RecordWellFormed(entries[i].1) ==> 0.0 <= rows[i].rate <= 100.0
  {
    seq(|entries|, i requires 0 <= i < |entries| =>
      Row(entries[i].0, entries[i].1.correct, entries[i].1.total, Scoring.Percentage(entries[i].1)))
  }

  /** The analysis rates are the percentages the quiz screen shows for the same words. */
  lemma {:induction false} RatesMatchQuizScreen(entries: seq<(string, WordStat)>, wordStats: WordStatsMap)
    requires Enumerates(entries, wordStats)
    ensures forall i :: 0 <= i < |entries| ==>
      RawData(entries)[i].rate == Scoring.SuccessRatePercent(wordStats, entries[i].0)
  {
    var rows := RawData(entries);
    forall i | 0 <= i < |entries|
      ensures rows[i].rate == Scoring.SuccessRatePercent(wordStats, entries[i].0)
    {
      assert wordStats[entries[i].0] == entries[i].1;
    }
  }

  predicate IsRed(r: Row) { r.rate < RedBelow }
  predicate IsYellow(r: Row) { RedBelow <= r.rate < GreenFrom }
  predicate IsGreen(r: Row) { r.rate >= GreenFrom }
  predicate IsStrong(r: Row) { r.rate >= GreenFrom && r.total >= StrongMinTotal }

  /** Every row is in exactly one tier. */
  lemma OneTier(r: Row)
    ensures IsRed(r) || IsYellow(r) || IsGreen(r)
    ensures !(IsRed(r) && IsYellow(r)) && !(IsRed(r) && IsGreen(r)) && !(IsYellow(r) && IsGreen(r))
  {
  }

  /** The three tier counts add up to the number of rows. */
  lemma {:induction false} TierCountsSum(rows: seq<Row>)
    ensures |Filter(IsRed, rows)| + |Filter(IsYellow, rows)| + |Filter(IsGreen, rows)| == |rows|
  {
    if rows != [] {
      TierCountsSum(rows[1..]);
    }
  }

  /** Three counts that add up to `n > 0`, as percentages of `n`, add up to 100. */
  lemma SharesSumToHundred(a: nat, b: nat, c: nat, n: nat)
    requires n > 0
    ensures a + b + c == n ==> (a as real / n as real) * 100.0 + (b as real / n as real) * 100.0 + (c as real / n as real) * 100.0 == 100.0
  {
    if a + b + c == n {
      var x, y, z := a as real / n as real, b as real / n as real, c as real / n as real;
      assert a as real + b as real + c as real == n as real;
      assert x + y + z == (a as real + b as real + c as real) / n as real;
      assert x + y + z == 1.0;
      assert x * 100.0 + y * 100.0 + z * 100.0 == (x + y + z) * 100.0;
    }
  }

  /** A count out of `n`, as a percentage of `n`, lies in 0 .. 100. */
  lemma ShareBounds(a: nat, n: nat)
    requires 0 < n && a <= n
    ensures 0.0 <= (a as real / n as real) * 100.0 <= 100.0
  {
    var x := a as real / n as real;
    assert x * n as real == a as real;
    assert x <= 1.0;
  }

  /** The two orders the lists are sorted by. */
  datatype Order = ByRateAscending | ByTotalDescending

  /** The sort key: `a.rate - b.rate` sorts by rate, `b.total - a.total` by total descending. */
  function Key(o: Order, r: Row): real
  {
    match o
    case ByRateAscending => r.rate
    case ByTotalDescending => -(r.total as real)
  }

  predicate SortedBy(o: Order, s: seq<Row>)
  {
    forall i, j :: 0 <= i < j < |s| ==> Key(o, s[i]) <= Key(o, s[j])
  }

  /** A row whose key is at most every key of a sorted list can go in front of it. */
  lemma SortedCons(o: Order, h: Row, t: seq<Row>)
    requires SortedBy(o, t)
    requires forall y :: y in t ==> Key(o, h) <= Key(o, y)
    ensures SortedBy(o, [h] + t)
  {
    var s := [h] + t;
    forall i, j | 0 <= i < j < |s| ensures Key(o, s[i]) <= Key(o, s[j]) {
      assert s[j] == t[j - 1];
      if i > 0 {
        assert s[i] == t[i - 1];
      }
    }
  }

  /** Insert `x` into a sorted list ahead of the rows with an equal or larger key. */
  function Insert(o: Order, x: Row, s: seq<Row>): (r: seq<Row>)
    requires SortedBy(o, s)
    ensures SortedBy(o, r)
    ensures multiset(r) == multiset(s) + multiset{x}
    ensures forall y :: y in r <==> y == x || y in s
    ensures |r| == |s| + 1
  {
    if s == [] then [x]
    else if Key(o, x) <= Key(o, s[0]) then
      SortedCons(o, x, s);
      [x] + s
    else
      var tail := s[1..];
      assert s == [s[0]] + tail;
      var rest := Insert(o, x, tail);
      assert forall y :: y in tail ==> Key(o, s[0]) <= Key(o, y) by {
        forall y | y in tail ensures Key(o, s[0]) <= Key(o, y) {
          var k :| 0 <= k < |tail| && tail[k] == y;
          assert s[k + 1] == y;
        }
      }
      SortedCons(o, s[0], rest);
      [s[0]] + rest
  }

  /** `Array.prototype.sort` with the order's comparator. */
  function SortBy(o: Order, s: seq<Row>): (r: seq<Row>)
    ensures SortedBy(o, r)
    ensures multiset(r) == multiset(s)
    ensures |r| == |s|
  {
    if s == [] then []
    else
      assert s == [s[0]] + s[1..];
      Insert(o, s[0], SortBy(o, s[1..]))
  }

  /** A sorted selection holds exactly the rows the filter keeps. */
  lemma SortedSelection(o: Order, p: Row -> bool, rows: seq<Row>)
    ensures forall r :: r in SortBy(o, Filter(p, rows)) <==> r in rows && p(r)
  {
    var l := SortBy(o, Filter(p, rows));
    forall r ensures r in l <==> r in Filter(p, rows) {
      assert r in l <==> r in multiset(l);
    }
  }

  /** `analyzeData()` over an enumeration of the records. */
  function AnalyzeData(entries: seq<(string, WordStat)>): (a: Analysis)
    ensures a.totalCount == if |entries| == 0 then 1 else |entries|
    ensures |entries| == 0 ==> a.distribution == Distribution(0.0, 0.0, 0.0)
    ensures |entries| > 0 ==>
      && a.distribution.red == (|Filter(IsRed, RawData(entries))| as real / |entries| as real) * 100.0
      && a.distribution.yellow == (|Filter(IsYellow, RawData(entries))| as real / |entries| as real) * 100.0
      && a.distribution.green == (|Filter(IsGreen, RawData(entries))| as real / |entries| as real) * 100.0
    ensures |entries| > 0 ==> a.distribution.red + a.distribution.yellow + a.distribution.green == 100.0
    ensures 0.0 <= a.distribution.red <= 100.0 && 0.0 <= a.distribution.yellow <= 100.0
    ensures 0.0 <= a.distribution.green <= 100.0
    ensures SortedBy(ByRateAscending, a.weakList)
    ensures SortedBy(ByTotalDescending, a.strongList)
    ensures multiset(a.weakList) == multiset(Filter(IsRed, RawData(entries)))
    ensures multiset(a.strongList) == multiset(Filter(IsStrong, RawData(entries)))
    ensures forall r :: r in a.weakList <==> r in RawData(entries) && r.rate < RedBelow
    ensures forall r :: r in a.strongList <==> r in RawData(entries) && r.rate >= GreenFrom && r.total >= StrongMinTotal
    ensures forall r :: r in a.weakList ==> r !in a.strongList
  {
    var rawData := RawData(entries);
    var redZone := |Filter(IsRed, rawData)|;
    var yellowZone := |Filter(IsYellow, rawData)|;
    var greenZone := |Filter(IsGreen, rawData)|;
    var totalCount := if |rawData| == 0 then 1 else |rawData|;
    var weakList := SortBy(ByRateAscending, Filter(IsRed, rawData));
    var strongList := SortBy(ByTotalDescending, Filter(IsStrong, rawData));
    TierCountsSum(rawData);
    SharesSumToHundred(redZone, yellowZone, greenZone, totalCount);
    ShareBounds(redZone, totalCount);
    ShareBounds(yellowZone, totalCount);
    ShareBounds(greenZone, totalCount);
    SortedSelection(ByRateAscending, IsRed, rawData);
    SortedSelection(ByTotalDescending, IsStrong, rawData);
    Analysis(
      weakList,
      strongList,
      Distribution(
        (redZone as real / totalCount as real) * 100.0,
        (yellowZone as real / totalCount as real) * 100.0,
        (greenZone as real / totalCount as real) * 100.0),
      totalCount)
  }

  /** `Math.round(x)`: the nearest integer, halves rounded up. */
  function Round(x: real): (n: int)
    ensures n as real - 0.5 <= x < n as real + 0.5
  {
    (x + 0.5).Floor
  }

  /** `generalAccuracy`: the rounded share of correct answers, 0 before any answer. */
  function GeneralAccuracy(stats: StatsState): (pct: int)
    ensures stats.correct + stats.wrong == 0 ==> pct == 0
    ensures 0 <= pct <= 100
    ensures stats.correct + stats.wrong > 0 ==>
      var exact := (stats.correct as real / (stats.correct + stats.wrong) as real) * 100.0;
      pct as real - 0.5 <= exact < pct as real + 0.5
  {
    var answered := stats.correct + stats.wrong;
    if answered > 0 then
      ShareBounds(stats.correct, answered);
      Round((stats.correct as real / answered as real) * 100.0)
    else 0
  }

  /** The two records of the example: "run" at 1 of 5 and "eat" at 9 of 10. */
  function RunAndEat(): seq<(string, WordStat)>
  {
    [("run", WordStat(1, 5)), ("eat", WordStat(9, 10))]
  }

  /** The example's rows and filters, row by row. */
  lemma RunAndEatRows()
    ensures RawData(RunAndEat()) == [Row("run", 1, 5, 20.0), Row("eat", 9, 10, 90.0)]
    ensures Filter(IsRed, RawData(RunAndEat())) == [Row("run", 1, 5, 20.0)]
    ensures Filter(IsYellow, RawData(RunAndEat())) == []
    ensures Filter(IsGreen, RawData(RunAndEat())) == [Row("eat", 9, 10, 90.0)]
    ensures Filter(IsStrong, RawData(RunAndEat())) == [Row("eat", 9, 10, 90.0)]
  {
    var rows := RawData(RunAndEat());
    assert rows == [Row("run", 1, 5, 20.0), Row("eat", 9, 10, 90.0)];
    assert rows[1..] == [rows[1]];
  }

  /** "run" at 1 of 5 is the only weak word, "eat" at 9 of 10 the only strong one, and the split is 50/0/50. */
  lemma RunAndEatExample()
    ensures var a := AnalyzeData(RunAndEat());
      && a.weakList == [Row("run", 1, 5, 20.0)]
      && a.strongList == [Row("eat", 9, 10, 90.0)]
      && a.distribution == Distribution(50.0, 0.0, 50.0)
      && a.totalCount == 2
  {
    RunAndEatRows();
    var run, eat := Row("run", 1, 5, 20.0), Row("eat", 9, 10, 90.0);
    assert SortBy(ByRateAscending, [run]) == [run];
    assert SortBy(ByTotalDescending, [eat]) == [eat];
  }
}
