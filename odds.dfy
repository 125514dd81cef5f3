/**
  The skill ranking of odds/odds.go.  Words sorted by ascending weight get a
  dense rank (equal weights share one, each strict increase adds one), which
  is turned into an integer percentage: 100 for the best rank, 0 for the worst.
  Weights are `float64` in the source and are only compared, so they are
  `real` here.
*/
module Odds {
  import Diacritics

  /** Go's `Skill`. */
  datatype Skill = Skill(relative: int, difficulty: int)

  /** Go's `WeightedWord`. */
  datatype WeightedWord = WeightedWord(word: string, weight: real)

  /** An element of `tmpSkill`: a word and its rank. */
  datatype RankedWord = RankedWord(w: string, sk: int)

  /** `ByWeight.Less`. */
  predicate Less(a: seq<WeightedWord>, i: int, j: int)
    requires 0 <= i < |a| && 0 <= j < |a|
  {
    a[i].weight < a[j].weight
  }

  /** `Less` is a strict order: irreflexive and transitive, so a list sorted by it
      never has an entry that is less than an earlier one. */
  lemma LessIsStrict(a: seq<WeightedWord>, i: int, j: int, k: int)
    requires 0 <= i < |a| && 0 <= j < |a| && 0 <= k < |a|
    ensures !Less(a, i, i)
    ensures Less(a, i, j) && Less(a, j, k) ==> Less(a, i, k)
    ensures Less(a, i, j) ==> !Less(a, j, i)
  {
  }

  /** What `sort.Sort(ByWeight(...))` establishes. */
  predicate Sorted(a: seq<WeightedWord>) {
    forall i, j :: 0 <= i < j < |a| ==> !Less(a, j, i)
  }

  /** The pair `(sk, wg)` after the first loop of `CalculateSkill` has seen `n` entries. */
  function ScanState(words: seq<WeightedWord>, n: nat): (int, real)
    requires 0 < |words| && n <= |words|
  {
    if n == 0 then (0, words[0].weight)
    else
      var (sk, wg) := ScanState(words, n - 1);
      if words[n - 1].weight > wg then (sk + 1, words[n - 1].weight) else (sk, wg)
  }

  /** `tmpSkill[i].sk`: the rank given to entry `i`. */
  function Rank(words: seq<WeightedWord>, i: nat): int
    requires i < |words|
  {
    ScanState(words, i + 1).0
  }

  /** `maxSk`: the rank after the whole list. */
  function MaxRank(words: seq<WeightedWord>): int
    requires 0 < |words|
  {
    ScanState(words, |words|).0
  }

  /** The percentage of rank `sk` out of `maxSk` (zero when every weight is equal):
      100 at rank 0, 0 at the last rank.  Both operands are non-negative, so
      Dafny's division agrees with Go's truncating one. */
  function Relative(maxSk: int, sk: int): (r: int)
    requires 0 <= sk <= maxSk
    ensures 0 <= r <= 100
    ensures maxSk == 0 ==> r == 0
    ensures maxSk > 0 && sk == 0 ==> r == 100
    ensures sk == maxSk ==> r == 0
  {
    if maxSk > 0 then
      DivBounds((maxSk - sk) * 100, maxSk, 100);
      if sk == 0 then
        DivExact(100, maxSk);
        (maxSk - sk) * 100 / maxSk
      else
        (maxSk - sk) * 100 / maxSk
    else 0
  }

  /** Euclidean division of `0 <= a <= c * m` by `m > 0` lies in [0, c]. */
  lemma DivBounds(a: int, m: int, c: int)
    requires 0 < m && 0 <= c && 0 <= a <= m * c
    ensures 0 <= a / m <= c
  {
    var q, r := a / m, a % m;
    assert a == m * q + r && 0 <= r < m;
    assert m * (-1) == -m;
    MulCancelStrict(m, -1, q);
    MulCancel(m, q, c);
  }

  lemma DivExact(c: int, m: int)
    requires 0 < m
    ensures (m * c) / m == c
  {
    var q, r := (m * c) / m, (m * c) % m;
    assert m * c == m * q + r && 0 <= r < m;
    assert m * (q + 1) == m * q + m;
    MulCancel(m, q, c);
    MulCancelStrict(m, c, q + 1);
  }

  lemma MulCancel(m: int, x: int, y: int)
    requires 0 < m && m * x <= m * y
    ensures x <= y
  {
    assert m * (y + 1) == m * y + m;
    if x > y {
      MulMonotone(m, y + 1, x);
      assert false;
    }
  }

  lemma MulCancelStrict(m: int, x: int, y: int)
    requires 0 < m && m * x < m * y
    ensures x < y
  {
    if x >= y {
      MulMonotone(m, y, x);
      assert false;
    }
  }

  lemma MulMonotone(d: int, x: int, y: int)
    requires 0 < d && x <= y
    ensures d * x <= d * y
  {
  }

  /** Ranks never fall along the list, start at 0 and stay within `maxSk`. */
  lemma {:induction false} RankBounds(words: seq<WeightedWord>, i: nat, j: nat)
    requires i <= j < |words|
    ensures 0 <= Rank(words, i) <= Rank(words, j) <= MaxRank(words)
    decreases |words| - i
  {
    ScanMonotone(words, i + 1, j + 1);
    ScanMonotone(words, j + 1, |words|);
    ScanMonotone(words, 0, i + 1);
  }

  lemma {:induction false} ScanMonotone(words: seq<WeightedWord>, m: nat, n: nat)
    requires 0 < |words| && m <= n <= |words|
    ensures ScanState(words, m).0 <= ScanState(words, n).0
    decreases n - m
  {
    if m < n {
      ScanMonotone(words, m, n - 1);
    }
  }

  /** On sorted input the running weight `wg` is always the last weight seen. */
  lemma {:induction false} ScanTracksLast(words: seq<WeightedWord>, n: nat)
    requires 0 < n <= |words| && Sorted(words)
    ensures ScanState(words, n).1 == words[n - 1].weight
  {
    if n > 1 {
      ScanTracksLast(words, n - 1);
      assert !Less(words, n - 1, n - 2);
    }
  }

  /** On sorted input the rank starts at 0 and rises by exactly one at each strict
      weight increase; equal weights share a rank. */
  lemma RankFirst(words: seq<WeightedWord>)
    requires 0 < |words|
    ensures Rank(words, 0) == 0
  {
    assert ScanState(words, 1) == (0, words[0].weight);
  }

  lemma RankStep(words: seq<WeightedWord>, i: nat)
    requires Sorted(words) && 0 < i < |words|
    ensures Rank(words, i) == Rank(words, i - 1) + (if words[i].weight > words[i - 1].weight then 1 else 0)
    ensures words[i].weight == words[i - 1].weight ==> Rank(words, i) == Rank(words, i - 1)
  {
    ScanTracksLast(words, i);
    assert !Less(words, i, i - 1);
  }

  /** The weights among the first `n` entries. */
  function Weights(words: seq<WeightedWord>, n: nat): set<real>
    requires n <= |words|
  {
    set i | 0 <= i < n :: words[i].weight
  }

  /** On sorted input `maxSk` is the number of distinct weights minus one. */
  lemma {:induction false} RankCountsWeights(words: seq<WeightedWord>, n: nat)
    requires Sorted(words) && 0 < n <= |words|
    ensures |Weights(words, n)| == Rank(words, n - 1) + 1
  {
    if n == 1 {
      assert Weights(words, 1) == {words[0].weight};
      RankFirst(words);
    } else {
      RankCountsWeights(words, n - 1);
      RankStep(words, n - 1);
      assert Weights(words, n) == Weights(words, n - 1) + {words[n - 1].weight};
      if words[n - 1].weight > words[n - 2].weight {
        forall i | 0 <= i < n - 1 ensures words[i].weight < words[n - 1].weight {
          assert !Less(words, n - 2, i);
        }
        assert words[n - 1].weight !in Weights(words, n - 1);
      } else {
        assert !Less(words, n - 1, n - 2);
        assert words[n - 1].weight in Weights(words, n - 1);
      }
    }
  }

  lemma DifficultyCountsWeights(words: seq<WeightedWord>)
    requires Sorted(words) && 0 < |words|
    ensures MaxRank(words) == |Weights(words, |words|)| - 1
  {
    RankCountsWeights(words, |words|);
  }

  /** A better (lower) rank never gets a lower percentage. */
  lemma RelativeMonotone(maxSk: int, sk1: int, sk2: int)
    requires 0 <= sk1 <= sk2 <= maxSk
    ensures Relative(maxSk, sk1) >= Relative(maxSk, sk2)
  {
    if maxSk > 0 {
      assert (maxSk - sk1) * 100 >= (maxSk - sk2) * 100;
      DivMonotone((maxSk - sk2) * 100, (maxSk - sk1) * 100, maxSk);
    }
  }

  lemma DivMonotone(a: int, b: int, d: int)
    requires 0 <= a <= b && 0 < d
    ensures a / d <= b / d
  {
    var qa, qb := a / d, b / d;
    assert a == d * qa + a % d && b == d * qb + b % d;
    assert d * (qb + 1) == d * qb + d;
    MulCancelStrict(d, qa, qb + 1);
  }

  /** An earlier entry of a list gets a percentage at least as high as a later one. */
  lemma EarlierIsBetter(words: seq<WeightedWord>, i: nat, j: nat)
    requires i <= j < |words|
    ensures 0 <= Rank(words, i) <= Rank(words, j) <= MaxRank(words)
    ensures Relative(MaxRank(words), Rank(words, j)) <= Relative(MaxRank(words), Rank(words, i))
  {
    RankBounds(words, i, j);
    RelativeMonotone(MaxRank(words), Rank(words, i), Rank(words, j));
  }

  /** The `Skill` of entry `i`. */
  function SkillAt(words: seq<WeightedWord>, i: nat): Skill
    requires i < |words|
  {
    RankBounds(words, i, i);
    Skill(Relative(MaxRank(words), Rank(words, i)), MaxRank(words))
  }

  /** The key each entry is stored under: its word without diacritics. */
  function StrippedKeys(words: seq<WeightedWord>): (keys: seq<string>)
    ensures |keys| == |words|
  {
    seq(|words|, i requires 0 <= i < |words| => Diacritics.StripDiacritic(words[i].word))
  }

  /** The map after the second loop of `CalculateSkill` has stored the first `n`
      entries, entry `i` under `keys[i]`; a later entry overwrites an earlier one. */
  function SkillTable(words: seq<WeightedWord>, keys: seq<string>, n: nat): map<string, Skill>
    requires |keys| == |words| && n <= |words|
  {
    if n == 0 then map[]
    else SkillTable(words, keys, n - 1)[keys[n - 1] := SkillAt(words, n - 1)]
  }

  /** The keys of the table are the keys of the stored entries. */
  lemma {:induction false} SkillTableKeys(words: seq<WeightedWord>, keys: seq<string>, n: nat)
    requires |keys| == |words| && n <= |words|
    ensures SkillTable(words, keys, n).Keys == set i | 0 <= i < n :: keys[i]
  {
    if n > 0 {
      SkillTableKeys(words, keys, n - 1);
      assert (set i | 0 <= i < n :: keys[i]) == (set i | 0 <= i < n - 1 :: keys[i]) + {keys[n - 1]};
    }
  }

  /** Each key holds the skill of the last entry stored under it. */
  lemma {:induction false} SkillTableLastWins(words: seq<WeightedWord>, keys: seq<string>, n: nat, i: nat)
    requires |keys| == |words| && i < n <= |words|
    requires forall j :: i < j < n ==> keys[j] != keys[i]
    ensures keys[i] in SkillTable(words, keys, n)
    ensures SkillTable(words, keys, n)[keys[i]] == SkillAt(words, i)
  {
    if i < n - 1 {
      SkillTableLastWins(words, keys, n - 1, i);
    }
  }

  /** Every entry of the table has difficulty `maxSk` and a percentage in [0,100]. */
  lemma {:induction false} SkillTableValues(words: seq<WeightedWord>, keys: seq<string>, n: nat)
    requires |keys| == |words| && n <= |words|
    ensures forall k :: k in SkillTable(words, keys, n) ==>
      SkillTable(words, keys, n)[k].difficulty == MaxRank(words) && 0 <= SkillTable(words, keys, n)[k].relative <= 100
  {
    if n > 0 {
      SkillTableValues(words, keys, n - 1);
    }
  }

  /** `CalculateSkill(words)` for a non-empty list (the source reads `words[0]`). */
  method CalculateSkill(words: seq<WeightedWord>) returns (skill: map<string, Skill>)
    requires 0 < |words|
    ensures skill == SkillTable(words, StrippedKeys(words), |words|)
  {
    ghost var keys := StrippedKeys(words);
    skill := map[];
    var tmpSkill, maxSk := RankWords(words);
    for i := 0 to tmpSkill.Length
      invariant forall j :: 0 <= j < |words| ==> tmpSkill[j] == RankedWord(words[j].word, Rank(words, j))
      invariant skill == SkillTable(words, keys, i)
    {
      var s := tmpSkill[i];
      SkillTableStep(words, keys, i, s, maxSk);
      var rel := Relative(maxSk, s.sk);
      skill := skill[Diacritics.StripDiacritic(s.w) := Skill(rel, maxSk)];
    }
  }

  /** One entry of the second loop of `CalculateSkill`, from its ranked word. */
  lemma SkillTableStep(words: seq<WeightedWord>, keys: seq<string>, i: nat, s: RankedWord, maxSk: int)
    requires i < |words| && keys == StrippedKeys(words)
    requires s == RankedWord(words[i].word, Rank(words, i)) && maxSk == MaxRank(words)
    ensures 0 <= s.sk <= maxSk
    ensures SkillTable(words, keys, i + 1)
      == SkillTable(words, keys, i)[Diacritics.StripDiacritic(s.w) := Skill(Relative(maxSk, s.sk), maxSk)]
  {
    RankBounds(words, i, i);
  }

  /** The first loop of `CalculateSkill`: `tmpSkill` holds each word with its rank, and `maxSk` the last rank. */
  method RankWords(words: seq<WeightedWord>) returns (tmpSkill: array<RankedWord>, maxSk: int)
    requires 0 < |words|
    ensures fresh(tmpSkill) && tmpSkill.Length == |words| && maxSk == MaxRank(words)
    ensures forall j :: 0 <= j < |words| ==> tmpSkill[j] == RankedWord(words[j].word, Rank(words, j))
  {
    tmpSkill := new RankedWord[|words|](_ => RankedWord("", 0));
    var sk := 0;
    var wg := words[0].weight;
    for i := 0 to |words|
      invariant (sk, wg) == ScanState(words, i)
      invariant forall j :: 0 <= j < i ==> tmpSkill[j] == RankedWord(words[j].word, Rank(words, j))
    {
      assert ScanState(words, i + 1) == if words[i].weight > wg then (sk + 1, words[i].weight) else (sk, wg);
      if words[i].weight > wg {
        sk := sk + 1;
        wg := words[i].weight;
      }
      tmpSkill[i] := RankedWord(words[i].word, sk);
    }
    maxSk := sk;
  }
}
