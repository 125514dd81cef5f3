/**
  The interactive solver of main.go.  `CalculateOdds` scores a guess by
  simulating it against every remaining solution on a reset clone of the
  board; `AppendTip` turns the stored histogram of a guess into a luck
  figure; the round loop of `main` reads a guess and its feedback marks,
  applies the marks to the board and counts the words left.
*/
module Solver {
  import opened Wrappers
  import Dict
  import Diacritics
  import Odds
  import H = Histogram
  import P = Progress

  /* ---------------------------------------------------------------------
     CalculateOdds
     --------------------------------------------------------------------- */

  /** Go's `LuckStat`.  `Sum` only ever grows by one, so it is a whole number. */
  datatype LuckStat = LuckStat(histogram: H.Hist, sum: int)

  /** The running totals of `CalculateOdds`; it returns the two means
      `sum / count` and `sumNotUsed / countNotUsed` and the luck statistics. */
  datatype Totals = Totals(sum: int, count: int, sumNotUsed: int, countNotUsed: int, luck: LuckStat)

  /** A run of `CalculateOdds`: the panic on a solution its own simulation
      rules out, or the totals. */
  datatype Scoring = Panicked(word: string, solution: string) | Scored(totals: Totals)

  /** What `WordsLeft` counts on a board: its admitted keys, and those not yet used. */
  ghost function Survivors(d: Dict.Dictionary, b: P.Board): (int, int) {
    var S := P.Matches(d, b);
    (|S|, |P.NotUsed(d, S)|)
  }

  /** Whether `Guess(word, w)` can be played on the reset clone whenever the
      solution `w` is simulated at all. */
  ghost predicate Simulable(b: P.Board, word: string, w: string) {
    Diacritics.StripDiacritic(w) != word ==> P.GuessPre(P.Simulation(b), word, w)
  }

  ghost predicate Playable(b: P.Board, word: string, all: seq<string>) {
    forall i :: 0 <= i < |all| ==> Simulable(b, word, all[i])
  }

  /** The two counters for solution `w`: zero for the guess itself, otherwise
      what is left after playing `word` against `w` on a reset clone. */
  ghost function Outcome(d: Dict.Dictionary, b: P.Board, word: string, w: string): (int, int)
    requires Simulable(b, word, w)
  {
    if Diacritics.StripDiacritic(w) == word then (0, 0)
    else Survivors(d, P.GuessBoard(P.Simulation(b), word, w))
  }

  /** The counters of every solution, in order. */
  ghost function Outcomes(d: Dict.Dictionary, b: P.Board, word: string, all: seq<string>): (r: seq<(int, int)>)
    requires Playable(b, word, all)
    ensures |r| == |all| && forall i :: 0 <= i < |all| ==> r[i] == Outcome(d, b, word, all[i])
  {
    seq(|all|, i requires 0 <= i < |all| => Outcome(d, b, word, all[i]))
  }

  /** The update of the loop body of `CalculateOdds` for one solution's
      counters; only a solution outside the history
      enters the histogram and the not-used totals. */
  function Add(t: Totals, counter: int, counterNotUsed: int, used: bool): Totals {
    var t1 := t.(sum := t.sum + counter, count := t.count + 1);
    if used then t1
    else t1.(luck := LuckStat(H.Inc(t.luck.histogram, counterNotUsed), t.luck.sum + 1),
             sumNotUsed := t.sumNotUsed + counterNotUsed, countNotUsed := t.countNotUsed + 1)
  }

  /** The buckets after `Add`: one more for a solution outside the history. */
  lemma AddKeys(t: Totals, counter: int, counterNotUsed: int, used: bool)
    ensures Add(t, counter, counterNotUsed, used).luck.histogram.Keys
      == t.luck.histogram.Keys + (if used then {} else {counterNotUsed})
  {
  }

  const NoTotals := Totals(0, 0, 0, 0, LuckStat(map[], 0))

  /** What `CalculateOdds` returns over the solutions `all`, in order, when
      solution `all[i]` leaves the counters `outs[i]`: it panics at the first
      solution other than the guess that is outside the history and leaves no
      unused word. */
  function Score(word: string, all: seq<string>, outs: seq<(int, int)>, history: set<string>): Scoring
    requires |outs| == |all|
  {
    if all == [] then Scored(NoTotals)
    else
      var n := |all| - 1;
      var prev := Score(word, all[..n], outs[..n], history);
      var w := all[n];
      if prev.Panicked? then prev
      else if Diacritics.StripDiacritic(w) != word && outs[n].1 == 0 && w !in history then Panicked(word, w)
      else Scored(Add(prev.totals, outs[n].0, outs[n].1, w in history))
  }

  /** The result of `CalculateOdds(word, all, history, ppr)` on a board `b`. */
  ghost function Tallied(d: Dict.Dictionary, b: P.Board, word: string, all: seq<string>, history: set<string>): Scoring
    requires Playable(b, word, all)
  {
    Score(word, all, Outcomes(d, b, word, all), history)
  }

  /** Number of solutions outside the history. */
  function Fresh(all: seq<string>, history: set<string>): nat {
    if all == [] then 0
    else Fresh(all[..|all| - 1], history) + (if all[|all| - 1] in history then 0 else 1)
  }

  /** One more solution: the recursion of `Score`, as the loop of `CalculateOdds` meets it. */
  lemma ScoreSnoc(word: string, all: seq<string>, outs: seq<(int, int)>, history: set<string>, i: nat)
    requires |outs| == |all| && i < |all|
    ensures var prev := Score(word, all[..i], outs[..i], history);
      Score(word, all[..i + 1], outs[..i + 1], history) ==
        if prev.Panicked? then prev
        else if Diacritics.StripDiacritic(all[i]) != word && outs[i].1 == 0 && all[i] !in history then Panicked(word, all[i])
        else Scored(Add(prev.totals, outs[i].0, outs[i].1, all[i] in history))
  {
    assert all[..i + 1][..i] == all[..i] && outs[..i + 1][..i] == outs[..i];
  }

  /** What a finished tally holds: every solution counted once, and every
      solution outside the history once in the histogram, whose total is `Sum`. */
  lemma {:induction false} ScoreTotals(word: string, all: seq<string>, outs: seq<(int, int)>, history: set<string>)
    requires |outs| == |all|
    ensures var r := Score(word, all, outs, history);
      r.Scored? ==>
        r.totals.count == |all|
        && r.totals.countNotUsed == r.totals.luck.sum == Fresh(all, history)
        && H.SumValues(r.totals.luck.histogram) == r.totals.luck.sum
        && H.Positive(r.totals.luck.histogram)
  {
    if all != [] {
      var n := |all| - 1;
      ScoreTotals(word, all[..n], outs[..n], history);
      var r := Score(word, all, outs, history);
      if r.Scored? {
        var prev := Score(word, all[..n], outs[..n], history);
        assert r.totals == Add(prev.totals, outs[n].0, outs[n].1, all[n] in history);
        H.SumInc(prev.totals.luck.histogram, outs[n].1);
      }
    }
  }

  /** The bucket of each solution outside the history is its not-used count. */
  lemma {:induction false} ScoreBucket(word: string, all: seq<string>, outs: seq<(int, int)>, history: set<string>, i: nat)
    requires |outs| == |all| && i < |all| && all[i] !in history
    ensures var r := Score(word, all, outs, history);
      r.Scored? ==> outs[i].1 in r.totals.luck.histogram
  {
    var n := |all| - 1;
    var r := Score(word, all, outs, history);
    if r.Scored? {
      var prev := Score(word, all[..n], outs[..n], history);
      assert r.totals == Add(prev.totals, outs[n].0, outs[n].1, all[n] in history);
      AddKeys(prev.totals, outs[n].0, outs[n].1, all[n] in history);
      assert prev.Scored?;
      if i < n {
        assert all[..n][i] == all[i] && outs[..n][i] == outs[i];
        ScoreBucket(word, all[..n], outs[..n], history, i);
        assert outs[i].1 in prev.totals.luck.histogram;
      } else {
        assert i == n;
        assert all[i] == all[n];
        assert !(all[n] in history);
      }
      assert outs[i].1 in r.totals.luck.histogram;
    }
  }

  /** A solution equal to the guess lands in bucket 0. */
  lemma GuessInBucketZero(d: Dict.Dictionary, b: P.Board, word: string, all: seq<string>, history: set<string>, i: nat)
    requires Playable(b, word, all) && i < |all|
    requires Diacritics.StripDiacritic(all[i]) == word && all[i] !in history
    ensures Tallied(d, b, word, all, history).Scored? ==> 0 in Tallied(d, b, word, all, history).totals.luck.histogram
  {
    ScoreBucket(word, all, Outcomes(d, b, word, all), history, i);
  }

  /** Once the tally has panicked, later solutions leave it as it is. */
  lemma {:induction false} PanicSticks(word: string, all: seq<string>, outs: seq<(int, int)>, history: set<string>, n: nat)
    requires |outs| == |all| && n <= |all|
    requires Score(word, all[..n], outs[..n], history).Panicked?
    ensures Score(word, all, outs, history) == Score(word, all[..n], outs[..n], history)
    decreases |all| - n
  {
    if n < |all| {
      var m := |all| - 1;
      assert all[..m][..n] == all[..n] && outs[..m][..n] == outs[..n];
      PanicSticks(word, all[..m], outs[..m], history, n);
      PanicStep(word, all, outs, history);
    } else {
      assert all[..n] == all && outs[..n] == outs;
    }
  }

  lemma PanicStep(word: string, all: seq<string>, outs: seq<(int, int)>, history: set<string>)
    requires |outs| == |all| && all != []
    requires Score(word, all[..|all| - 1], outs[..|all| - 1], history).Panicked?
    ensures Score(word, all, outs, history) == Score(word, all[..|all| - 1], outs[..|all| - 1], history)
  {
  }

  /** No panic when every solution other than the guess that is outside the
      history leaves at least one unused word. */
  lemma {:induction false} ScoreNoPanic(word: string, all: seq<string>, outs: seq<(int, int)>, history: set<string>)
    requires |outs| == |all|
    requires forall i :: 0 <= i < |all| && Diacritics.StripDiacritic(all[i]) != word && all[i] !in history ==> outs[i].1 >= 1
    ensures Score(word, all, outs, history).Scored?
  {
    if all != [] {
      var n := |all| - 1;
      assert forall i :: 0 <= i < n ==> all[..n][i] == all[i] && outs[..n][i] == outs[i];
      ScoreNoPanic(word, all[..n], outs[..n], history);
    }
  }

  /** Where `CalculateOdds` is used: the board admits the guess and every
      solution, open positions have a `left` map, and a solution outside the
      history is stored in the trie as not used. */
  ghost predicate Candidates(d: Dict.Dictionary, b: P.Board, word: string, all: seq<string>, history: set<string>) {
    P.Admits(b, word) && P.Ascii(word) && P.OpenHaveLeft(b)
    && forall i :: 0 <= i < |all| ==>
      P.Admits(b, all[i]) && P.Ascii(all[i]) && Dict.Lookup(d, all[i]).Some?
      && (all[i] !in history ==> !Dict.Lookup(d, all[i]).value.used)
  }

  /** A guess the board admits can be simulated against any admitted solution. */
  lemma SolutionSimulable(b: P.Board, word: string, w: string)
    requires P.Admits(b, word) && P.Ascii(word) && P.OpenHaveLeft(b)
    requires P.Admits(b, w) && P.Ascii(w)
    ensures Simulable(b, word, w)
    ensures Diacritics.StripDiacritic(w) != word ==> P.Admits(P.GuessBoard(P.Simulation(b), word, w), w)
  {
    P.AdmitsAgree(b, word, w);
    P.SimulationAdmitsSolution(b, word, w);
  }

  /** Simulating an unused admitted solution leaves at least that solution unused. */
  lemma SolutionSurvives(d: Dict.Dictionary, b: P.Board, word: string, w: string)
    requires P.Admits(b, word) && P.Ascii(word) && P.OpenHaveLeft(b)
    requires P.Admits(b, w) && P.Ascii(w) && Dict.Lookup(d, w).Some? && !Dict.Lookup(d, w).value.used
    ensures Simulable(b, word, w)
    ensures Diacritics.StripDiacritic(w) != word ==> Outcome(d, b, word, w).1 >= 1
  {
    SolutionSimulable(b, word, w);
    if Diacritics.StripDiacritic(w) != word {
      P.UnusedCounted(d, P.GuessBoard(P.Simulation(b), word, w), w);
    }
  }

  /** The panic in `CalculateOdds` never fires on candidates: each solution
      outside the history survives its own simulation. */
  lemma NoPanic(d: Dict.Dictionary, b: P.Board, word: string, all: seq<string>, history: set<string>)
    requires Candidates(d, b, word, all, history)
    ensures Playable(b, word, all) && Tallied(d, b, word, all, history).Scored?
  {
    forall i | 0 <= i < |all| ensures Simulable(b, word, all[i]) {
      SolutionSimulable(b, word, all[i]);
    }
    var outs := Outcomes(d, b, word, all);
    forall i | 0 <= i < |all| && Diacritics.StripDiacritic(all[i]) != word && all[i] !in history
      ensures outs[i].1 >= 1
    {
      SolutionSurvives(d, b, word, all[i]);
    }
    ScoreNoPanic(word, all, outs, history);
  }

  /** `CalculateOdds(word, all, history, ppr)`, with the trie passed in.  The
      method has no `modifies` clause: every simulation runs on a clone. */
  method CalculateOdds(word: string, all: seq<string>, history: set<string>, ppr: P.Progress, words: Dict.Dictionary)
    returns (r: Scoring)
    requires Playable(ppr.State(), word, all)
    ensures r == Tallied(words, ppr.State(), word, all, history)
  {
    ghost var outs := Outcomes(words, ppr.State(), word, all);
    var t := NoTotals;
    for i := 0 to |all|
      invariant Score(word, all[..i], outs[..i], history) == Scored(t)
    {
      var w := all[i];
      ScoreSnoc(word, all, outs, history, i);
      var counter, counterNotUsed := 0, 0;
      if Diacritics.StripDiacritic(w) != word {
        assert Simulable(ppr.State(), word, all[i]);
        counter, counterNotUsed := Simulate(word, w, ppr, words);
        if counterNotUsed == 0 && w !in history {
          PanicSticks(word, all, outs, history, i + 1);
          return Panicked(word, w);
        }
      }
      t := Add(t, counter, counterNotUsed, w in history);
    }
    assert all[..|all|] == all && outs[..|all|] == outs;
    r := Scored(t);
  }

  /** The body of the `if` in `CalculateOdds`: clone, reset, guess, count. */
  method Simulate(word: string, w: string, ppr: P.Progress, words: Dict.Dictionary)
    returns (counter: int, counterNotUsed: int)
    requires P.GuessPre(P.Simulation(ppr.State()), word, w)
    ensures (counter, counterNotUsed) == Survivors(words, P.GuessBoard(P.Simulation(ppr.State()), word, w))
  {
    var pr := ppr.Clone();
    pr.ResetRound();
    pr.Guess(word, w);
    var list: seq<string>;
    ghost var found: seq<string>;
    counter, counterNotUsed, list, found := pr.WordsLeft(words, false);
  }

  /* ---------------------------------------------------------------------
     AppendTip
     --------------------------------------------------------------------- */

  /** The luck of a tip: the sentinel -1, a percentage, or the float division
      by a zero `Sum` (an infinity or NaN in the source). */
  datatype Luck = Sentinel | Percent(p: real) | DivisionByZero

  /** Go's `Tip`; a nil `*float64` or `*Skill` field is `None`. */
  datatype Tip = Tip(word: string, left: int, leftNotUsed: int, luck: Option<Luck>,
                     robot: Option<Odds.Skill>, human: Option<Odds.Skill>)

  /** `sumBetter`: the solutions that left at most `limit` words. */
  ghost function Better(h: H.Hist, limit: int): int {
    H.SumValues(H.Part(h, H.AtMost(h, limit)))
  }

  /** `sumWorse`: the solutions that left more than `limit` words. */
  ghost function Worse(h: H.Hist, limit: int): int {
    H.SumValues(H.Part(h, H.Above(h, limit)))
  }

  /** The buckets `countBetter` counts: non-zero and at most `limit`. */
  function Winners(h: H.Hist, limit: int): set<int> {
    set k | k in h && 0 < k <= limit
  }

  /** The luck `AppendTip` records for a stored statistic and the words actually left. */
  ghost function LuckOf(stat: LuckStat, counterNotUsed: int): Luck {
    var h := stat.histogram;
    if Worse(h, counterNotUsed) > 0 || |Winners(h, counterNotUsed)| > 1 then
      if stat.sum == 0 then DivisionByZero
      else Percent(100.0 - 100.0 * (Better(h, counterNotUsed) as real) / (stat.sum as real))
    else Sentinel
  }

  /** The tip `AppendTip` appends. */
  ghost function TipFor(word: string, counter: int, counterNotUsed: int, luck: map<string, LuckStat>,
                        skillRobot: map<string, Odds.Skill>, skillHuman: map<string, Odds.Skill>): Tip {
    Tip(word, counter, counterNotUsed,
        if word in luck then Some(LuckOf(luck[word], counterNotUsed)) else None,
        Get(skillRobot, word), Get(skillHuman, word))
  }

  function Get<V>(m: map<string, V>, k: string): Option<V> {
    if k in m then Some(m[k]) else None
  }

  /** A statistic as `CalculateOdds` builds it. */
  ghost predicate WellFormed(stat: LuckStat) {
    H.Positive(stat.histogram) && H.SumValues(stat.histogram) == stat.sum
  }

  lemma TalliedWellFormed(d: Dict.Dictionary, b: P.Board, word: string, all: seq<string>, history: set<string>)
    requires Playable(b, word, all) && Tallied(d, b, word, all, history).Scored?
    ensures WellFormed(Tallied(d, b, word, all, history).totals.luck)
  {
    ScoreTotals(word, all, Outcomes(d, b, word, all), history);
  }

  /** On a statistic built by `CalculateOdds` the luck is the sentinel or a
      percentage in [0, 100]; the better and worse buckets share the total; the
      sentinel means no solution would have left more words; and the
      percentage is 0 exactly when none would have. */
  lemma LuckRange(stat: LuckStat, counterNotUsed: int)
    requires WellFormed(stat)
    ensures Better(stat.histogram, counterNotUsed) + Worse(stat.histogram, counterNotUsed) == stat.sum
    ensures 0 <= Better(stat.histogram, counterNotUsed) && 0 <= Worse(stat.histogram, counterNotUsed)
    ensures LuckOf(stat, counterNotUsed) != DivisionByZero
    ensures LuckOf(stat, counterNotUsed).Sentinel? ==> Better(stat.histogram, counterNotUsed) == stat.sum
    ensures LuckOf(stat, counterNotUsed).Percent? ==>
      0.0 <= LuckOf(stat, counterNotUsed).p <= 100.0
      && (LuckOf(stat, counterNotUsed).p == 0.0 <==> Better(stat.histogram, counterNotUsed) == stat.sum)
  {
    var h := stat.histogram;
    BucketsShare(h, counterNotUsed);
    if stat.sum > 0 {
      RatioBounds(Better(h, counterNotUsed) as real, stat.sum as real);
    }
  }

  /** With positive counts, the better and worse sides split the total, and a
      non-empty set of winning buckets means a positive total. */
  lemma BucketsShare(h: H.Hist, limit: int)
    requires H.Positive(h)
    ensures Better(h, limit) + Worse(h, limit) == H.SumValues(h)
    ensures 0 <= Better(h, limit) && 0 <= Worse(h, limit)
    ensures Winners(h, limit) != {} ==> H.SumValues(h) > 0
  {
    H.SumSplit(h, limit);
    PartPositive(h, H.AtMost(h, limit));
    PartPositive(h, H.Above(h, limit));
    if Winners(h, limit) != {} {
      var k :| k in Winners(h, limit);
      H.SumPositive(h);
    }
  }

  /** The percentage `100 - 100 * b / s` of a part `b` of a positive total `s`. */
  lemma RatioBounds(b: real, s: real)
    requires 0.0 < s && 0.0 <= b <= s
    ensures 0.0 <= 100.0 - 100.0 * b / s <= 100.0
    ensures 100.0 - 100.0 * b / s == 0.0 <==> b == s
  {
    var q := b / s;
    assert q * s == b;
    assert 100.0 * b / s == 100.0 * q;
    assert (1.0 - q) * s == s - b;
    MulSign(1.0 - q, s);
    MulSign(q, s);
  }

  lemma MulSign(x: real, y: real)
    requires y > 0.0
    ensures x * y >= 0.0 ==> x >= 0.0
    ensures x * y == 0.0 ==> x == 0.0
  {
  }

  lemma PartPositive(h: H.Hist, keys: set<int>)
    requires H.Positive(h)
    ensures H.Positive(H.Part(h, keys)) && H.SumValues(H.Part(h, keys)) >= 0
  {
    H.SumPositive(H.Part(h, keys));
  }

  /** `AppendTip(tips, word, counter, counterNotUsed, luck, skillRobot, skillHuman)`. */
  method AppendTip(tips: seq<Tip>, word: string, counter: int, counterNotUsed: int, luck: map<string, LuckStat>,
                   skillRobot: map<string, Odds.Skill>, skillHuman: map<string, Odds.Skill>)
    returns (r: seq<Tip>)
    ensures r == tips + [TipFor(word, counter, counterNotUsed, luck, skillRobot, skillHuman)]
  {
    var tip := Tip(word, counter, counterNotUsed, None, None, None);
    if word in luck {
      var wordLuck := luck[word];
      var sumBetter, sumWorse, countBetter := Buckets(wordLuck.histogram, counterNotUsed);
      var l := Sentinel;
      if sumWorse > 0 || countBetter > 1 {
        if wordLuck.sum == 0 {
          l := DivisionByZero;
        } else {
          l := Percent(100.0 - 100.0 * (sumBetter as real) / (wordLuck.sum as real));
        }
      }
      tip := tip.(luck := Some(l));
    }
    tip := tip.(robot := Get(skillRobot, word), human := Get(skillHuman, word));
    r := tips + [tip];
  }

  /** The histogram loop of `AppendTip`. */
  method Buckets(h: H.Hist, limit: int) returns (sumBetter: int, sumWorse: int, countBetter: int)
    ensures sumBetter == Better(h, limit) && sumWorse == Worse(h, limit)
    ensures countBetter == |Winners(h, limit)|
  {
    sumBetter, sumWorse, countBetter := 0, 0, 0;
    var keys := h.Keys;
    ghost var done: set<int> := {};
    BucketsEmpty(h, limit);
    while keys != {}
      invariant keys !! done && keys + done == h.Keys
      invariant BucketsSoFar(h, limit, done, sumBetter, sumWorse, countBetter)
      decreases keys
    {
      ghost var some := H.Pick(keys);
      var histLeft :| histLeft in keys;
      var histCount := h[histLeft];
      ghost var (b0, w0, c0) := (sumBetter, sumWorse, countBetter);
      if histLeft <= limit {
        sumBetter := sumBetter + histCount;
        if histLeft > 0 {
          countBetter := countBetter + 1;
        }
      } else {
        sumWorse := sumWorse + histCount;
      }
      BucketStep(h, limit, done, histLeft, b0, w0, c0, sumBetter, sumWorse, countBetter);
      P.KeysStep(keys, done, histLeft);
      keys := keys - {histLeft};
      done := done + {histLeft};
    }
    BucketsDone(h, limit, done, sumBetter, sumWorse, countBetter);
  }

  /** The three sums of `AppendTip` over the buckets `done` visited so far. */
  ghost predicate BucketsSoFar(h: H.Hist, limit: int, done: set<int>, sumBetter: int, sumWorse: int, countBetter: int) {
    sumBetter == H.SumValues(H.Part(h, H.AtMost(h, limit) * done))
    && sumWorse == H.SumValues(H.Part(h, H.Above(h, limit) * done))
    && countBetter == |Winners(h, limit) * done|
  }

  lemma BucketsEmpty(h: H.Hist, limit: int)
    ensures BucketsSoFar(h, limit, {}, 0, 0, 0)
  {
    assert H.Part(h, H.AtMost(h, limit) * {}) == map[];
    assert H.Part(h, H.Above(h, limit) * {}) == map[];
    assert Winners(h, limit) * {} == {};
  }

  lemma BucketsDone(h: H.Hist, limit: int, done: set<int>, sumBetter: int, sumWorse: int, countBetter: int)
    requires done == h.Keys && BucketsSoFar(h, limit, done, sumBetter, sumWorse, countBetter)
    ensures sumBetter == Better(h, limit) && sumWorse == Worse(h, limit)
    ensures countBetter == |Winners(h, limit)|
  {
    assert H.AtMost(h, limit) * done == H.AtMost(h, limit);
    assert H.Above(h, limit) * done == H.Above(h, limit);
    assert Winners(h, limit) * done == Winners(h, limit);
  }

  /** Visiting bucket `k` adds its count to the better or the worse side. */
  lemma BucketStep(h: H.Hist, limit: int, done: set<int>, k: int, sumBetter: int, sumWorse: int, countBetter: int,
                    sumBetter': int, sumWorse': int, countBetter': int)
    requires k in h && k !in done
    requires BucketsSoFar(h, limit, done, sumBetter, sumWorse, countBetter)
    requires sumBetter' == sumBetter + (if k <= limit then h[k] else 0)
    requires sumWorse' == sumWorse + (if k <= limit then 0 else h[k])
    requires countBetter' == countBetter + (if 0 < k <= limit then 1 else 0)
    ensures BucketsSoFar(h, limit, done + {k}, sumBetter', sumWorse', countBetter')
  {
    SideStep(h, H.AtMost(h, limit), done, k);
    SideStep(h, H.Above(h, limit), done, k);
    CountStep(Winners(h, limit), done, k);
  }

  lemma SideStep(h: H.Hist, side: set<int>, done: set<int>, k: int)
    requires k in h && k !in done
    ensures H.SumValues(H.Part(h, side * (done + {k})))
      == H.SumValues(H.Part(h, side * done)) + (if k in side then h[k] else 0)
  {
    if k in side {
      assert side * (done + {k}) == (side * done) + {k};
      H.PartAdd(h, side * done, k);
    } else {
      assert side * (done + {k}) == side * done;
    }
  }

  lemma CountStep(side: set<int>, done: set<int>, k: int)
    requires k !in done
    ensures |side * (done + {k})| == |side * done| + (if k in side then 1 else 0)
  {
    if k in side {
      assert side * (done + {k}) == (side * done) + {k};
    } else {
      assert side * (done + {k}) == side * done;
    }
  }

  /* ---------------------------------------------------------------------
     The round loop of main
     --------------------------------------------------------------------- */

  /** The feedback marks: grey, orange, green-and-orange (blue), green. */
  const Marks: set<char> := {' ', '.', '*', '+'}

  /** The board after the mark for position `j` (the `switch` of the round loop);
      `None` for a character that is not a mark. */
  function Tile(b: P.Board, j: nat, mark: char, letter: char): (r: Option<P.Board>)
    requires P.TilePre(b, j) && P.AllHaveLeft(b)
    ensures r.Some? <==> mark in Marks
    ensures r.Some? ==> |r.value.pos| == |b.pos| && r.value.freq.Some? && P.AllHaveLeft(r.value)
  {
    match mark
    case ' ' => Some(P.GreyBoard(b, j, letter))
    case '.' => Some(P.OrangeBoard(b, j, letter))
    case '*' => Some(P.GreenOrangeBoard(b, j, letter))
    case '+' => Some(P.GreenBoard(b, j, letter))
    case _ => None
  }

  /** The board after the marks for positions `0..n-1`. */
  function Marked(b: P.Board, word: string, marks: string, n: nat): (r: Option<P.Board>)
    requires b.freq.Some? && P.AllHaveLeft(b) && n <= |word| && n <= |marks| && n <= |b.pos|
    ensures r.Some? ==> |r.value.pos| == |b.pos| && r.value.freq.Some? && P.AllHaveLeft(r.value)
    ensures r.Some? <==> forall j :: 0 <= j < n ==> marks[j] in Marks
  {
    if n == 0 then Some(b)
    else
      var prev := Marked(b, word, marks, n - 1);
      if prev.None? then None else Tile(prev.value, n - 1, marks[n - 1], word[n - 1])
  }

  /** The `switch` on a feedback character. */
  method Dispatch(p: P.Progress, j: nat, mark: char, letter: char) returns (ok: bool)
    requires P.TilePre(p.State(), j) && P.AllHaveLeft(p.State())
    modifies p
    ensures ok <==> mark in Marks
    ensures ok ==> Tile(old(p.State()), j, mark, letter) == Some(p.State())
  {
    ok := true;
    match mark
    case ' ' => p.Grey(j, letter);
    case '.' => p.Orange(j, letter);
    case '*' => p.GreenOrange(j, letter);
    case '+' => p.Green(j, letter);
    case _ => ok := false;
  }

  /** How a game ends: normally, or with exit status 2 on an invalid mark or a failed read. */
  datatype Exit = Finished | InvalidMark | ReadFailed

  /** `stdIn.ReadLine()`: the position after the next newline, or the end of the input. */
  function SkipLine(input: string, at: nat): (r: nat)
    requires at <= |input|
    ensures at <= r <= |input|
    ensures forall k :: at <= k < r - 1 ==> input[k] != '\n'
    ensures r < |input| ==> r > at && input[r - 1] == '\n'
    decreases |input| - at
  {
    if at == |input| then at
    else if input[at] == '\n' then at + 1
    else SkipLine(input, at + 1)
  }

  /** The counters the round reports: those of `WordsLeft`, unless the only
      word left is the guess itself, which ends the game. */
  ghost function RoundCounts(d: Dict.Dictionary, b: P.Board, guessed: string): (int, int) {
    var S := P.Matches(d, b);
    if |S| == 1 && forall k :: k in S ==>
      |k| == 5 && Dict.Lookup(d, k).Some? && Diacritics.StripDiacritic(Dict.Lookup(d, k).value.word) == guessed
    then (0, 0)
    else Survivors(d, b)
  }

  /** The input of one round read from position `at`: five runes of guess,
      the rest of that line, five runes of marks, the rest of that line; `None`
      when the input ends first. */
  function ReadRound(input: string, at: nat): (r: Option<(string, string, nat)>)
    requires at <= |input|
    ensures r.Some? ==> |r.value.0| == 5 && |r.value.1| == 5 && at < r.value.2 <= |input|
  {
    if at + 5 > |input| then None
    else
      var k := SkipLine(input, at + 5);
      if k + 5 > |input| then None
      else Some((input[at..at + 5], input[k..k + 5], SkipLine(input, k + 5)))
  }

  /** Reading marks `j..4` of a round whose marks start at position `k`, one
      rune at a time and checking each as it is read: `ReadFailed` when the
      input ends first, `InvalidMark` at the first character that is not a
      mark, `None` when all of them are marks. */
  function MarksExit(input: string, k: nat, j: nat): (r: Option<Exit>)
    requires j <= 5 && k + j <= |input|
    ensures r != Some(Finished)
    ensures r == Some(InvalidMark) <==> exists m :: k + j <= m < k + 5 && m < |input| && input[m] !in Marks
    ensures r == Some(ReadFailed) <==> k + 5 > |input| && forall m :: k + j <= m < |input| ==> input[m] in Marks
    ensures r.None? <==> k + 5 <= |input| && forall m :: k + j <= m < k + 5 ==> input[m] in Marks
    decreases 5 - j
  {
    if j == 5 then None
    else if k + j >= |input| then Some(ReadFailed)
    else if input[k + j] !in Marks then Some(InvalidMark)
    else MarksExit(input, k, j + 1)
  }

  /** How reading the round from `at` ends: `ReadFailed` when the input ends
      within the guess, otherwise as reading its marks ends. */
  function RoundExit(input: string, at: nat): (r: Option<Exit>)
    requires at <= |input|
    ensures r != Some(Finished)
    ensures r == Some(ReadFailed) <==>
      at + 5 > |input| ||
      (SkipLine(input, at + 5) + 5 > |input| && forall m :: SkipLine(input, at + 5) <= m < |input| ==> input[m] in Marks)
    ensures r == Some(InvalidMark) <==>
      at + 5 <= |input| &&
      exists m :: SkipLine(input, at + 5) <= m < SkipLine(input, at + 5) + 5 && m < |input| && input[m] !in Marks
    ensures r.None? <==> ReadRound(input, at).Some? && forall j :: 0 <= j < 5 ==> ReadRound(input, at).value.1[j] in Marks
  {
    if at + 5 > |input| then Some(ReadFailed) else MarksExit(input, SkipLine(input, at + 5), 0)
  }

  /** One round of `main`: reset, read a guess, then read its marks one by one,
      applying each and folding the rune under it, then count the words left. */
  method PlayRound(p: P.Progress, words: Dict.Dictionary, input: string, at: nat)
    returns (status: Option<Exit>, guessed: string, counter: int, counterNotUsed: int, next: nat)
    requires at <= |input| && |p.pos| == 5 && P.AllHaveLeft(p.State())
    modifies p
    ensures status == RoundExit(input, at)
    ensures status.None? ==> |p.pos| == 5 && P.AllHaveLeft(p.State()) && RoundPlayed(old(p.State()), p.State(), words, input, at, guessed, counter, counterNotUsed, next)
    ensures status.None? ==> 0 <= counterNotUsed <= counter && |guessed| == 5
    ensures at <= next <= |input|
  {
    guessed, counter, counterNotUsed, next := [], 0, 0, at;
    ResetKeepsLeft(p.State());
    p.ResetRound();
    if at + 5 > |input| {
      return Some(ReadFailed), guessed, counter, counterNotUsed, next;
    }
    var word := input[at..at + 5];
    var k := SkipLine(input, at + 5);
    var folded;
    status, folded := ApplyMarks(p, word, input, k);
    RoundRead(input, at, k);
    if status.Some? {
      return;
    }
    guessed, next := folded, SkipLine(input, k + 5);
    counter, counterNotUsed := WordsLeftAfter(p, words, guessed);
  }

  /** Past the guess, how the round ends and what it reads are decided by its marks. */
  lemma RoundRead(input: string, at: nat, k: nat)
    requires at + 5 <= |input| && k == SkipLine(input, at + 5)
    ensures RoundExit(input, at) == MarksExit(input, k, 0)
    ensures MarksExit(input, k, 0).None? ==> ReadRound(input, at) == Some((input[at..at + 5], input[k..k + 5], SkipLine(input, k + 5)))
  {
  }

  /** A round read from `at` took board `b` to `b'`: the marks applied to the
      reset board, the guess folded, the counters of `RoundCounts`. */
  ghost predicate RoundPlayed(b: P.Board, b': P.Board, d: Dict.Dictionary, input: string, at: nat,
                              guessed: string, counter: int, counterNotUsed: int, next: nat)
  {
    at <= |input| && P.AllHaveLeft(b) && 5 <= |b.pos|
    && (ResetKeepsLeft(b);
        var read := ReadRound(input, at);
        read.Some? && next == read.value.2
        && Marked(P.ResetBoard(b), read.value.0, read.value.1, 5) == Some(b')
        && guessed == Diacritics.StripDiacritic(read.value.0)
        && (counter, counterNotUsed) == RoundCounts(d, b', guessed))
  }

  /** The loop over the five tiles of a round, whose marks start at position
      `k`: read a mark, apply it to the board and fold the rune under it,
      stopping when the input ends or at the first character that is not a
      mark. */
  method ApplyMarks(p: P.Progress, word: string, input: string, k: nat) returns (status: Option<Exit>, folded: string)
    requires |word| == 5 && k <= |input|
    requires |p.pos| == 5 && P.AllHaveLeft(p.State()) && p.freq.Some?
    modifies p
    ensures status == MarksExit(input, k, 0)
    ensures status.None? ==> Marked(old(p.State()), word, input[k..k + 5], 5) == Some(p.State())
    ensures status.None? ==> folded == Diacritics.StripDiacritic(word) && |p.pos| == 5 && P.AllHaveLeft(p.State())
  {
    ghost var b0 := p.State();
    folded := word;
    for j := 0 to 5
      invariant |p.pos| == 5 && P.AllHaveLeft(p.State()) && p.freq.Some?
      invariant k + j <= |input| && MarksExit(input, k, 0) == MarksExit(input, k, j)
      invariant Marked(b0, word, input[k..], j) == Some(p.State())
      invariant |folded| == 5
      invariant forall m :: 0 <= m < j ==> folded[m] == Diacritics.Fold(word[m])
      invariant forall m :: j <= m < 5 ==> folded[m] == word[m]
    {
      if k + j == |input| {
        return Some(ReadFailed), folded;
      }
      var ok := Dispatch(p, j, input[k + j], word[j]);
      if !ok {
        return Some(InvalidMark), folded;
      }
      folded := folded[j := Diacritics.Fold(folded[j])];
    }
    status := None;
    MarkedAgree(b0, word, input[k..], input[k..k + 5], 5);
    assert folded == Diacritics.StripDiacritic(word);
  }

  /** `Marked` reads only the first `n` marks. */
  lemma {:induction false} MarkedAgree(b: P.Board, word: string, marks: string, marks': string, n: nat)
    requires b.freq.Some? && P.AllHaveLeft(b) && n <= |word| && n <= |marks| && n <= |marks'| && n <= |b.pos|
    requires marks[..n] == marks'[..n]
    ensures Marked(b, word, marks, n) == Marked(b, word, marks', n)
  {
    if n > 0 {
      assert marks[..n - 1] == marks'[..n - 1] && marks[n - 1] == marks'[n - 1] by {
        assert marks[..n][n - 1] == marks'[..n][n - 1];
        assert marks[..n - 1] == marks[..n][..n - 1] && marks'[..n - 1] == marks'[..n][..n - 1];
      }
      MarkedAgree(b, word, marks, marks', n - 1);
    }
  }

  lemma ResetKeepsLeft(b: P.Board)
    requires P.AllHaveLeft(b)
    ensures P.AllHaveLeft(P.ResetBoard(b)) && P.ResetBoard(b).freq.Some?
  {
  }

  /** The end of a round: `WordsLeft(true)`, with both counters forced to 0
      when the only word left is the guess. */
  method WordsLeftAfter(p: P.Progress, words: Dict.Dictionary, guessed: string)
    returns (counter: int, counterNotUsed: int)
    requires 5 <= |p.pos|
    ensures (counter, counterNotUsed) == RoundCounts(words, p.State(), guessed)
    ensures 0 <= counterNotUsed <= counter
  {
    var wordsLeft: seq<string>;
    ghost var found: seq<string>;
    counter, counterNotUsed, wordsLeft, found := p.WordsLeft(words, true);
    ForcedZero(words, p.State(), guessed, found, counter, counterNotUsed, wordsLeft);
    if counter == 1 && Diacritics.StripDiacritic(wordsLeft[0]) == guessed {
      counter := 0;
      counterNotUsed := 0;
    }
  }

  /** The check `counter == 1 && StripDiacritic(wordsLeft[0]) == guessedWord`
      decides the forced end of `RoundCounts`. */
  lemma ForcedZero(d: Dict.Dictionary, b: P.Board, guessed: string, found: seq<string>,
                   counter: int, counterNotUsed: int, wl: seq<string>)
    requires P.Tally(d, P.Matches(d, b), found, counter, counterNotUsed, true, wl)
    ensures counter == 1 ==> |wl| == 1
    ensures RoundCounts(d, b, guessed) ==
      if counter == 1 && Diacritics.StripDiacritic(wl[0]) == guessed then (0, 0) else (counter, counterNotUsed)
  {
    var S := P.Matches(d, b);
    if counter == 1 {
      assert found[0] in S;
      P.Singleton(S, found[0]);
    }
  }

  /** A tip for a five-rune guess, with at most as many unused words left as words left. */
  ghost predicate Counted(t: Tip) {
    |t.word| == 5 && 0 <= t.leftNotUsed <= t.left
  }

  /** The board after the round read from `at` on board `b`, when that round
      reads a guess and five marks. */
  ghost function RoundBoard(b: P.Board, input: string, at: nat): (r: P.Board)
    requires at <= |input| && P.AllHaveLeft(b) && |b.pos| == 5 && RoundExit(input, at).None?
    ensures |r.pos| == 5 && P.AllHaveLeft(r)
  {
    ResetKeepsLeft(b);
    var read := ReadRound(input, at).value;
    Marked(P.ResetBoard(b), read.0, read.1, 5).value
  }

  /** What a round reports: the guess without diacritics and the counters of
      `RoundCounts`. */
  datatype Report = Report(word: string, left: int, leftNotUsed: int)

  /** The report of the round read from `at` on board `b`: a five-rune word,
      with at most as many unused words left as words left. */
  ghost function RoundReport(d: Dict.Dictionary, b: P.Board, input: string, at: nat): (o: Report)
    requires at <= |input| && P.AllHaveLeft(b) && |b.pos| == 5 && RoundExit(input, at).None?
    ensures |o.word| == 5 && 0 <= o.leftNotUsed <= o.left
  {
    var guessed := Diacritics.StripDiacritic(ReadRound(input, at).value.0);
    var b' := RoundBoard(b, input, at);
    RoundCountsRange(d, b', guessed);
    var (counter, counterNotUsed) := RoundCounts(d, b', guessed);
    Report(guessed, counter, counterNotUsed)
  }

  /** A round that leaves no word left leaves no unused word either. */
  lemma RoundCountsRange(d: Dict.Dictionary, b: P.Board, guessed: string)
    ensures 0 <= RoundCounts(d, b, guessed).1 <= RoundCounts(d, b, guessed).0
  {
    var S := P.Matches(d, b);
    P.SubsetCard(P.NotUsed(d, S), S);
  }

  /** The tips `AppendTip` records for a sequence of round reports. */
  ghost function Tips(os: seq<Report>, luck: map<string, LuckStat>,
                      skillRobot: map<string, Odds.Skill>, skillHuman: map<string, Odds.Skill>): (r: seq<Tip>)
    ensures |r| == |os|
    ensures forall i :: 0 <= i < |os| ==>
      r[i].word == os[i].word && r[i].left == os[i].left && r[i].leftNotUsed == os[i].leftNotUsed
  {
    seq(|os|, i requires 0 <= i < |os| => TipFor(os[i].word, os[i].left, os[i].leftNotUsed, luck, skillRobot, skillHuman))
  }

  lemma TipsSnoc(os: seq<Report>, o: Report, luck: map<string, LuckStat>,
                 skillRobot: map<string, Odds.Skill>, skillHuman: map<string, Odds.Skill>)
    ensures Tips(os + [o], luck, skillRobot, skillHuman)
         == Tips(os, luck, skillRobot, skillHuman) + [TipFor(o.word, o.left, o.leftNotUsed, luck, skillRobot, skillHuman)]
  {
  }

  /** The body of the round loop: play one round and append its tip. */
  method TipRound(p: P.Progress, words: Dict.Dictionary, input: string, at: nat, tips: seq<Tip>,
                  luck: map<string, LuckStat>, skillRobot: map<string, Odds.Skill>, skillHuman: map<string, Odds.Skill>)
    returns (status: Option<Exit>, r: seq<Tip>, counter: int, next: nat, ghost o: Report)
    requires at <= |input| && |p.pos| == 5 && P.AllHaveLeft(p.State())
    modifies p
    ensures status == RoundExit(input, at) && at <= next <= |input|
    ensures status.None? ==> |p.pos| == 5 && P.AllHaveLeft(p.State()) && next == ReadRound(input, at).value.2
    ensures status.None? ==> p.State() == RoundBoard(old(p.State()), input, at)
    ensures status.None? ==> o == RoundReport(words, old(p.State()), input, at) && counter == o.left
    ensures status.None? ==> r == tips + [TipFor(o.word, o.left, o.leftNotUsed, luck, skillRobot, skillHuman)]
  {
    var guessed, counterNotUsed;
    status, guessed, counter, counterNotUsed, next := PlayRound(p, words, input, at);
    r := tips;
    o := Report(guessed, counter, counterNotUsed);
    if status.None? {
      r := AppendTip(tips, guessed, counter, counterNotUsed, luck, skillRobot, skillHuman);
    }
  }

  /** The reports and the ending of the rounds `round..6` of a game read from
      `at` on board `b`, after the reports `os`, and the board a normal end
      leaves: each round that reads a guess and its marks adds its report,
      and a round that leaves no word ends the game. */
  ghost function Game(d: Dict.Dictionary, input: string, b: P.Board, at: nat, round: nat, os: seq<Report>)
    : (seq<Report>, Exit, P.Board)
    requires at <= |input| && P.AllHaveLeft(b) && |b.pos| == 5
    decreases 7 - round
  {
    if round > 6 then (os, Finished, b)
    else
      var e := RoundExit(input, at);
      if e.Some? then (os, e.value, b)
      else
        var b' := RoundBoard(b, input, at);
        var o := RoundReport(d, b, input, at);
        if o.left == 0 then (os + [o], Finished, b')
        else Game(d, input, b', ReadRound(input, at).value.2, round + 1, os + [o])
  }

  /** The reports `os'` of a game that ended with `e` extend `os`: at most
      six of them, each for a five-rune guess with at most as many unused
      words left as words left, only the last leaving no word, and a normal
      end after six rounds or a round that leaves no word. */
  ghost predicate Shaped(os: seq<Report>, os': seq<Report>, e: Exit) {
    |os| <= |os'| <= 6 && os'[..|os|] == os
    && (forall i :: 0 <= i < |os'| ==> |os'[i].word| == 5 && 0 <= os'[i].leftNotUsed <= os'[i].left)
    && (forall i :: 0 <= i < |os'| - 1 ==> os'[i].left != 0)
    && (e == Finished ==> |os'| == 6 || (|os'| > 0 && os'[|os'| - 1].left == 0))
  }

  /** Every round so far reported a five-rune word, with at most as many
      unused words left as words left, and some word left. */
  ghost predicate Continued(os: seq<Report>) {
    forall m :: 0 <= m < |os| ==> |os[m].word| == 5 && 0 <= os[m].leftNotUsed <= os[m].left && os[m].left != 0
  }

  lemma ShapedStep(os: seq<Report>, o: Report, os': seq<Report>, e: Exit)
    requires Shaped(os + [o], os', e)
    ensures Shaped(os, os', e)
  {
    assert os'[..|os|] == (os'[..|os| + 1])[..|os|];
  }

  lemma ShapedEnd(os: seq<Report>, e: Exit)
    requires Continued(os) && |os| <= 6 && (e == Finished ==> |os| == 6)
    ensures Shaped(os, os, e)
  {
  }

  lemma ShapedLast(os: seq<Report>, o: Report)
    requires Continued(os) && |os| < 6 && |o.word| == 5 && 0 <= o.leftNotUsed <= o.left == 0
    ensures Shaped(os, os + [o], Finished)
  {
    assert (os + [o])[..|os|] == os;
  }

  lemma ContinuedSnoc(os: seq<Report>, o: Report)
    requires Continued(os) && |o.word| == 5 && 0 <= o.leftNotUsed <= o.left && o.left != 0
    ensures Continued(os + [o])
  {
  }

  /** Every game, played from any round on, keeps the shape of its reports. */
  lemma {:induction false} GameShape(d: Dict.Dictionary, input: string, b: P.Board, at: nat, round: nat, os: seq<Report>)
    requires at <= |input| && P.AllHaveLeft(b) && |b.pos| == 5
    requires 1 <= round <= 7 && |os| == round - 1 && Continued(os)
    ensures Shaped(os, Game(d, input, b, at, round, os).0, Game(d, input, b, at, round, os).1)
    decreases 7 - round
  {
    if round > 6 {
      ShapedEnd(os, Finished);
    } else if RoundExit(input, at).Some? {
      ShapedEnd(os, RoundExit(input, at).value);
    } else {
      var b' := RoundBoard(b, input, at);
      var o := RoundReport(d, b, input, at);
      if o.left == 0 {
        ShapedLast(os, o);
      } else {
        var next := ReadRound(input, at).value.2;
        ContinuedSnoc(os, o);
        GameShape(d, input, b', next, round + 1, os + [o]);
        var g := Game(d, input, b', next, round + 1, os + [o]);
        ShapedStep(os, o, g.0, g.1);
      }
    }
  }

  /** At most six tips, each for a five-rune guess with at most as many unused
      words left as words left; only the last may leave no word, and a normal
      end `e` is six rounds or a round that leaves no word. */
  ghost predicate TipsShape(tips: seq<Tip>, e: Exit) {
    |tips| <= 6
    && (forall i :: 0 <= i < |tips| ==> Counted(tips[i]))
    && (forall i :: 0 <= i < |tips| - 1 ==> tips[i].left != 0)
    && (e == Finished ==> |tips| == 6 || (|tips| > 0 && tips[|tips| - 1].left == 0))
  }

  /** The tips of reports with the shape of a whole game have that shape. */
  lemma TipsShaped(os: seq<Report>, e: Exit, luck: map<string, LuckStat>,
                   skillRobot: map<string, Odds.Skill>, skillHuman: map<string, Odds.Skill>)
    requires Shaped([], os, e)
    ensures TipsShape(Tips(os, luck, skillRobot, skillHuman), e)
  {
  }

  /** The tips of every game have that shape. */
  lemma GameTips(d: Dict.Dictionary, input: string, b: P.Board, luck: map<string, LuckStat>,
                 skillRobot: map<string, Odds.Skill>, skillHuman: map<string, Odds.Skill>)
    requires P.AllHaveLeft(b) && |b.pos| == 5
    ensures TipsShape(Tips(Game(d, input, b, 0, 1, []).0, luck, skillRobot, skillHuman), Game(d, input, b, 0, 1, []).1)
  {
    GameShape(d, input, b, 0, 1, []);
    var g := Game(d, input, b, 0, 1, []);
    TipsShaped(g.0, g.1, luck, skillRobot, skillHuman);
  }

  /** The round loop of `main` (at most six rounds) over the player's input,
      starting from a board none of whose `left` maps is nil: the tips are
      those of the reports of `Game`, and so is the ending. */
  method PlayGame(p: P.Progress, words: Dict.Dictionary, input: string, luck: map<string, LuckStat>,
                  skillRobot: map<string, Odds.Skill>, skillHuman: map<string, Odds.Skill>)
    returns (tips: seq<Tip>, status: Exit)
    requires |p.pos| == 5 && P.AllHaveLeft(p.State())
    modifies p
    ensures tips == Tips(Game(words, input, old(p.State()), 0, 1, []).0, luck, skillRobot, skillHuman)
    ensures status == Game(words, input, old(p.State()), 0, 1, []).1
    ensures status == Finished ==> p.State() == Game(words, input, old(p.State()), 0, 1, []).2
  {
    ghost var b0 := p.State();
    ghost var os: seq<Report> := [];
    tips := [];
    var at := 0;
    var i := 1;
    while i <= 6
      invariant 1 <= i <= 7 && at <= |input|
      invariant |p.pos| == 5 && P.AllHaveLeft(p.State())
      invariant Game(words, input, b0, 0, 1, []) == Game(words, input, p.State(), at, i, os)
      invariant tips == Tips(os, luck, skillRobot, skillHuman)
    {
      var st, more, counter, next, o := TipRound(p, words, input, at, tips, luck, skillRobot, skillHuman);
      if st.Some? {
        return tips, st.value;
      }
      TipsSnoc(os, o, luck, skillRobot, skillHuman);
      at, tips, os := next, more, os + [o];
      if counter == 0 {
        return tips, Finished;
      }
      i := i + 1;
    }
    status := Finished;
  }
}
