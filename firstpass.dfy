/**
  The first-pass program of first/main.go, which builds the luck statistics
  that the interactive solver reads.  Its `CalculateOdds` skips the solutions
  in the history and buckets every other solution by the number of unused
  words it leaves; its `AppendTip` turns a histogram into a plain percentage;
  and its `main` ranks the guesses by their mean into a skill percentage.
*/
module FirstPass {
  import opened Wrappers
  import Dict
  import Odds
  import H = Histogram
  import P = Progress
  import Solver

  /* ---------------------------------------------------------------------
     CalculateOdds
     --------------------------------------------------------------------- */

  /** The running totals of `CalculateOdds`: the sum of the counters, the
      number of solutions counted (it returns `sum / count`), and the luck
      statistic, which has the same shape as the one the solver loads. */
  datatype Totals = Totals(sum: int, count: int, luck: Solver.LuckStat)

  const NoTotals := Totals(0, 0, Solver.LuckStat(map[], 0))

  /** Whether `Guess(word, w)` can be played on the reset clone for every
      solution other than the guess itself. */
  ghost predicate Playable(b: P.Board, word: string, all: seq<string>) {
    forall i :: 0 <= i < |all| && all[i] != word ==> P.GuessPre(P.Simulation(b), word, all[i])
  }

  /** The counter of solution `w`: 0 for the guess itself, otherwise the
      unused words left after playing `word` against `w` on a reset clone. */
  ghost function Outcome(d: Dict.Dictionary, b: P.Board, word: string, w: string): int
    requires w != word ==> P.GuessPre(P.Simulation(b), word, w)
  {
    if w == word then 0
    else Solver.Survivors(d, P.GuessBoard(P.Simulation(b), word, w)).1
  }

  ghost function Outcomes(d: Dict.Dictionary, b: P.Board, word: string, all: seq<string>): (r: seq<int>)
    requires Playable(b, word, all)
    ensures |r| == |all| && forall i :: 0 <= i < |all| ==> r[i] == Outcome(d, b, word, all[i])
  {
    seq(|all|, i requires 0 <= i < |all| => Outcome(d, b, word, all[i]))
  }

  /** The update of the loop body for one solution outside the history. */
  function Add(t: Totals, counter: int): Totals {
    Totals(t.sum + counter, t.count + 1,
           Solver.LuckStat(H.Inc(t.luck.histogram, counter), t.luck.sum + 1))
  }

  /** What `CalculateOdds` accumulates over the solutions `all`, in order, when
      solution `all[i]` leaves the counter `outs[i]`; a solution in the history
      is passed over. */
  function Score(all: seq<string>, outs: seq<int>, history: set<string>): Totals
    requires |outs| == |all|
  {
    if all == [] then NoTotals
    else
      var n := |all| - 1;
      var prev := Score(all[..n], outs[..n], history);
      if all[n] in history then prev else Add(prev, outs[n])
  }

  /** The totals of `CalculateOdds(word, all, history, words, ppr)` on a board `b`. */
  ghost function Tallied(d: Dict.Dictionary, b: P.Board, word: string, all: seq<string>, history: set<string>): Totals
    requires Playable(b, word, all)
  {
    Score(all, Outcomes(d, b, word, all), history)
  }

  lemma ScoreSnoc(all: seq<string>, outs: seq<int>, history: set<string>, i: nat)
    requires |outs| == |all| && i < |all|
    ensures Score(all[..i + 1], outs[..i + 1], history) ==
      if all[i] in history then Score(all[..i], outs[..i], history)
      else Add(Score(all[..i], outs[..i], history), outs[i])
  {
    assert all[..i + 1][..i] == all[..i] && outs[..i + 1][..i] == outs[..i];
  }

  /** Every solution outside the history is counted once, in `count`, in `Sum`
      and in the histogram, whose total is `Sum`; solutions in the history are
      not counted at all. */
  lemma {:induction false} ScoreTotals(all: seq<string>, outs: seq<int>, history: set<string>)
    requires |outs| == |all|
    ensures var r := Score(all, outs, history);
      r.count == r.luck.sum == Solver.Fresh(all, history)
      && H.SumValues(r.luck.histogram) == r.luck.sum
      && H.Positive(r.luck.histogram)
  {
    if all != [] {
      var n := |all| - 1;
      ScoreTotals(all[..n], outs[..n], history);
      var prev := Score(all[..n], outs[..n], history);
      H.SumInc(prev.luck.histogram, outs[n]);
    }
  }

  /** Each solution outside the history is in the bucket of its own counter. */
  lemma {:induction false} ScoreBucket(all: seq<string>, outs: seq<int>, history: set<string>, i: nat)
    requires |outs| == |all| && i < |all| && all[i] !in history
    ensures outs[i] in Score(all, outs, history).luck.histogram
  {
    var n := |all| - 1;
    var prev := Score(all[..n], outs[..n], history);
    if i < n {
      assert all[..n][i] == all[i] && outs[..n][i] == outs[i];
      ScoreBucket(all[..n], outs[..n], history, i);
      assert outs[i] in prev.luck.histogram;
      if all[n] !in history {
        assert Score(all, outs, history).luck.histogram == H.Inc(prev.luck.histogram, outs[n]);
      }
    } else {
      assert i == n && all[n] == all[i];
      assert Score(all, outs, history).luck.histogram == H.Inc(prev.luck.histogram, outs[n]);
    }
  }

  /** A solution equal to the guess and outside the history lands in bucket 0. */
  lemma GuessInBucketZero(d: Dict.Dictionary, b: P.Board, word: string, all: seq<string>, history: set<string>, i: nat)
    requires Playable(b, word, all) && i < |all| && all[i] == word && all[i] !in history
    ensures 0 in Tallied(d, b, word, all, history).luck.histogram
  {
    ScoreBucket(all, Outcomes(d, b, word, all), history, i);
  }

  /** A tally built by `CalculateOdds` is a well-formed luck statistic. */
  lemma TalliedWellFormed(d: Dict.Dictionary, b: P.Board, word: string, all: seq<string>, history: set<string>)
    requires Playable(b, word, all)
    ensures Solver.WellFormed(Tallied(d, b, word, all, history).luck)
    ensures Tallied(d, b, word, all, history).count == Solver.Fresh(all, history)
  {
    ScoreTotals(all, Outcomes(d, b, word, all), history);
  }

  /** `CalculateOdds(word, all, history, words, ppr)`.  The method has no
      `modifies` clause: every simulation runs on a clone of `ppr`. */
  method CalculateOdds(word: string, all: seq<string>, history: set<string>, words: Dict.Dictionary, ppr: P.Progress)
    returns (t: Totals)
    requires Playable(ppr.State(), word, all)
    ensures t == Tallied(words, ppr.State(), word, all, history)
  {
    ghost var outs := Outcomes(words, ppr.State(), word, all);
    t := NoTotals;
    for i := 0 to |all|
      invariant Score(all[..i], outs[..i], history) == t
    {
      var w := all[i];
      ScoreSnoc(all, outs, history, i);
      if w in history {
        continue;
      }
      var counter := 0;
      if w != word {
        var left;
        left, counter := Solver.Simulate(word, w, ppr, words);
      }
      t := Add(t, counter);
    }
    assert all[..|all|] == all && outs[..|all|] == outs;
  }

  /* ---------------------------------------------------------------------
     AppendTip
     --------------------------------------------------------------------- */

  /** The luck of a tip: a percentage, or the float division by a zero `Sum`
      (an infinity or NaN in the source). */
  datatype Luck = Percent(p: real) | DivisionByZero

  /** Go's `Tip`; a nil `*float64` or `*int` field is `None`. */
  datatype Tip = Tip(word: string, left: int, leftNotUsed: int, luck: Option<Luck>, skill: Option<int>)

  /** `100 - 100 * sumBetter / Sum`, where `sumBetter` counts the solutions
      that left at most `counterNotUsed` words. */
  ghost function LuckOf(stat: Solver.LuckStat, counterNotUsed: int): Luck {
    if stat.sum == 0 then DivisionByZero
    else Percent(100.0 - 100.0 * (Solver.Better(stat.histogram, counterNotUsed) as real) / (stat.sum as real))
  }

  /** The tip `AppendTip` appends: luck and skill only for a word with a histogram. */
  ghost function TipFor(word: string, counter: int, counterNotUsed: int,
                        luck: map<string, Solver.LuckStat>, skill: map<string, int>): Tip {
    if word in luck then
      Tip(word, counter, counterNotUsed, Some(LuckOf(luck[word], counterNotUsed)), Solver.Get(skill, word))
    else Tip(word, counter, counterNotUsed, None, None)
  }

  /** On a statistic built by `CalculateOdds` the division fails only for an
      empty histogram; otherwise the luck is a percentage in [0, 100], 0 exactly
      when no solution would have left more words and 100 exactly when every
      solution would have. */
  lemma LuckRange(stat: Solver.LuckStat, counterNotUsed: int)
    requires Solver.WellFormed(stat)
    ensures LuckOf(stat, counterNotUsed) == DivisionByZero <==> stat.histogram == map[]
    ensures LuckOf(stat, counterNotUsed).Percent? ==>
      var p := LuckOf(stat, counterNotUsed).p;
      0.0 <= p <= 100.0
      && (p == 0.0 <==> Solver.Better(stat.histogram, counterNotUsed) == stat.sum)
      && (p == 100.0 <==> Solver.Better(stat.histogram, counterNotUsed) == 0)
  {
    var h := stat.histogram;
    Solver.BucketsShare(h, counterNotUsed);
    H.SumPositive(h);
    if stat.sum > 0 {
      var b, s := Solver.Better(h, counterNotUsed) as real, stat.sum as real;
      Solver.RatioBounds(b, s);
      Solver.MulSign(b / s, s);
    }
  }

  /** The more words the player actually has left, the lower the luck. */
  lemma LuckFalls(stat: Solver.LuckStat, c1: int, c2: int)
    requires Solver.WellFormed(stat) && c1 <= c2 && stat.sum != 0
    ensures LuckOf(stat, c2).p <= LuckOf(stat, c1).p
  {
    var h := stat.histogram;
    BetterGrows(h, c1, c2);
    H.SumPositive(h);
    RatioFalls(Solver.Better(h, c1) as real, Solver.Better(h, c2) as real, stat.sum as real);
  }

  lemma RatioFalls(b1: real, b2: real, s: real)
    requires 0.0 < s && b1 <= b2
    ensures 100.0 - 100.0 * b2 / s <= 100.0 - 100.0 * b1 / s
  {
    var q1, q2 := b1 / s, b2 / s;
    assert q1 * s == b1 && q2 * s == b2;
    assert 100.0 * b1 / s == 100.0 * q1 && 100.0 * b2 / s == 100.0 * q2;
    assert (q2 - q1) * s == b2 - b1;
    Solver.MulSign(q2 - q1, s);
  }

  /** With positive counts, raising the limit never lowers `sumBetter`. */
  lemma BetterGrows(h: H.Hist, c1: int, c2: int)
    requires H.Positive(h) && c1 <= c2
    ensures Solver.Better(h, c1) <= Solver.Better(h, c2)
  {
    var lo, hi := H.AtMost(h, c1), H.AtMost(h, c2);
    var extra := hi - lo;
    assert hi == lo + extra;
    H.PartUnion(h, lo, extra);
    Solver.PartPositive(h, extra);
  }

  /** The histogram loop of `AppendTip`. */
  method SumBetter(h: H.Hist, limit: int) returns (sumBetter: int)
    ensures sumBetter == Solver.Better(h, limit)
  {
    sumBetter := 0;
    var keys := h.Keys;
    ghost var done: set<int> := {};
    assert H.Part(h, H.AtMost(h, limit) * {}) == map[];
    while keys != {}
      invariant keys !! done && keys + done == h.Keys
      invariant sumBetter == H.SumValues(H.Part(h, H.AtMost(h, limit) * done))
      decreases keys
    {
      ghost var some := H.Pick(keys);
      var histLeft :| histLeft in keys;
      var histCount := h[histLeft];
      Solver.SideStep(h, H.AtMost(h, limit), done, histLeft);
      if histLeft <= limit {
        sumBetter := sumBetter + histCount;
      }
      P.KeysStep(keys, done, histLeft);
      keys := keys - {histLeft};
      done := done + {histLeft};
    }
    assert H.AtMost(h, limit) * done == H.AtMost(h, limit);
  }

  /** `AppendTip(tips, word, counter, counterNotUsed, luck, skill)`. */
  method AppendTip(tips: seq<Tip>, word: string, counter: int, counterNotUsed: int,
                   luck: map<string, Solver.LuckStat>, skill: map<string, int>)
    returns (r: seq<Tip>)
    ensures r == tips + [TipFor(word, counter, counterNotUsed, luck, skill)]
  {
    var tip := Tip(word, counter, counterNotUsed, None, None);
    if word in luck {
      var wordLuck := luck[word];
      var sumBetter := SumBetter(wordLuck.histogram, counterNotUsed);
      var l := DivisionByZero;
      if wordLuck.sum != 0 {
        l := Percent(100.0 - 100.0 * (sumBetter as real) / (wordLuck.sum as real));
      }
      tip := tip.(luck := Some(l), skill := Solver.Get(skill, word));
    }
    r := tips + [tip];
  }

  /** A tip carries a skill only when its word has a histogram and a skill,
      and carries a luck exactly when its word has a histogram. */
  lemma TipShape(word: string, counter: int, counterNotUsed: int,
                 luck: map<string, Solver.LuckStat>, skill: map<string, int>)
    ensures var t := TipFor(word, counter, counterNotUsed, luck, skill);
      t.word == word && t.left == counter && t.leftNotUsed == counterNotUsed
      && (t.luck.Some? <==> word in luck)
      && (t.skill.Some? <==> word in luck && word in skill)
      && (t.skill.Some? ==> t.skill.value == skill[word])
  {
  }

  /* ---------------------------------------------------------------------
     Skill
     --------------------------------------------------------------------- */

  /** The words of the ranked list, the keys `main` stores the skill under. */
  function Words(words: seq<Odds.WeightedWord>): (keys: seq<string>)
    ensures |keys| == |words| && forall i :: 0 <= i < |words| ==> keys[i] == words[i].word
  {
    seq(|words|, i requires 0 <= i < |words| => words[i].word)
  }

  /** The skill map after the second ranking loop of `main` has stored the first
      `n` entries: entry `i` under its word, a later entry overwriting an earlier one. */
  function SkillTable(words: seq<Odds.WeightedWord>, n: nat): map<string, int>
    requires n <= |words|
  {
    if n == 0 then map[]
    else
      Odds.RankBounds(words, n - 1, n - 1);
      SkillTable(words, n - 1)[words[n - 1].word := Odds.Relative(Odds.MaxRank(words), Odds.Rank(words, n - 1))]
  }

  /** The ranking of `main` agrees with `CalculateSkill` of odds/odds.go, keyed
      by the words as they are rather than without diacritics: the same keys
      and, for each, the relative part of the `Skill` stored there. */
  lemma {:induction false} AgreesWithOdds(words: seq<Odds.WeightedWord>, n: nat)
    requires n <= |words|
    ensures SkillTable(words, n).Keys == Odds.SkillTable(words, Words(words), n).Keys
    ensures forall k :: k in SkillTable(words, n) ==>
      SkillTable(words, n)[k] == Odds.SkillTable(words, Words(words), n)[k].relative
  {
    if n > 0 {
      AgreesWithOdds(words, n - 1);
    }
  }

  /** Every stored percentage lies in [0, 100], and each word holds the
      percentage of its last entry in the list. */
  lemma SkillValues(words: seq<Odds.WeightedWord>, i: nat)
    requires i < |words|
    requires forall j :: i < j < |words| ==> words[j].word != words[i].word
    ensures forall k :: k in SkillTable(words, |words|) ==> 0 <= SkillTable(words, |words|)[k] <= 100
    ensures words[i].word in SkillTable(words, |words|)
    ensures SkillTable(words, |words|)[words[i].word] == Odds.SkillAt(words, i).relative
  {
    var keys := Words(words);
    AgreesWithOdds(words, |words|);
    Odds.SkillTableValues(words, keys, |words|);
    Odds.SkillTableLastWins(words, keys, |words|, i);
  }

  /** The ranking block of `main` on the list sorted by mean (the source reads
      its first entry, so the list is not empty). */
  method Skills(words: seq<Odds.WeightedWord>) returns (skill: map<string, int>)
    requires 0 < |words|
    ensures skill == SkillTable(words, |words|)
  {
    var tmpSkill, maxSk := Odds.RankWords(words);
    skill := map[];
    for i := 0 to tmpSkill.Length
      invariant forall j :: 0 <= j < |words| ==> tmpSkill[j] == Odds.RankedWord(words[j].word, Odds.Rank(words, j))
      invariant skill == SkillTable(words, i)
    {
      var s := tmpSkill[i];
      Odds.RankBounds(words, i, i);
      var sk := 0;
      if maxSk > 0 {
        sk := (maxSk - s.sk) * 100 / maxSk;
      }
      skill := skill[s.w := sk];
    }
  }
}
