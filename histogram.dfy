/**
  The histograms of the odds tallies: Go's `map[int]int`, counting how many
  simulated solutions left a given number of words.  `SumValues` is the
  total of the counts, independent of the order a loop visits the keys in.
*/
module Histogram {

  type Hist = map<int, int>

  /** Reading `h[k]`, with a missing key read as 0. */
  function Get(h: Hist, k: int): int {
    if k in h then h[k] else 0
  }

  /** `h[k]++`. */
  function Inc(h: Hist, k: int): (r: Hist)
    ensures k in r && r[k] == Get(h, k) + 1
    ensures forall j :: j != k ==> Get(r, j) == Get(h, j)
    ensures r.Keys == h.Keys + {k}
  {
    h[k := Get(h, k) + 1]
  }

  /** Some key of a non-empty set. */
  ghost function Pick<T>(s: set<T>): (x: T)
    requires s != {}
    ensures x in s
  {
    HasKey(s);
    var y :| y in s; y
  }

  /** A non-empty set has a member to pick. */
  lemma HasKey<T>(s: set<T>)
    requires s != {}
    ensures exists y :: y in s
  {
    if forall y :: y !in s {
      assert false;
    }
  }

  /** The total of all counts. */
  ghost function SumValues(h: Hist): int
    decreases |h.Keys|
  {
    if h.Keys == {} then 0
    else
      var k := Pick(h.Keys);
      assert (h - {k}).Keys == h.Keys - {k};
      h[k] + SumValues(h - {k})
  }

  /** The total does not depend on which key is taken first. */
  lemma {:induction false} SumRemove(h: Hist, k: int)
    requires k in h
    ensures SumValues(h) == h[k] + SumValues(h - {k})
    decreases |h.Keys|
  {
    var j := Pick(h.Keys);
    if j != k {
      assert (h - {k}).Keys == h.Keys - {k} && (h - {j}).Keys == h.Keys - {j};
      SumRemove(h - {j}, k);
      SumRemove(h - {k}, j);
      SumSwap(h, j, k);
    }
  }

  /** The step of `SumRemove`: taking `j` then `k` out is taking `k` then `j` out. */
  lemma SumSwap(h: Hist, j: int, k: int)
    requires j in h && k in h && j != k && Pick(h.Keys) == j
    requires SumValues(h - {j}) == h[k] + SumValues(h - {j} - {k})
    requires SumValues(h - {k}) == h[j] + SumValues(h - {k} - {j})
    ensures SumValues(h) == h[k] + SumValues(h - {k})
  {
    assert h - {j} - {k} == h - {k} - {j};
  }

  /** Counting one more in bucket `k` raises the total by one. */
  lemma SumInc(h: Hist, k: int)
    ensures SumValues(Inc(h, k)) == SumValues(h) + 1
  {
    var r := Inc(h, k);
    SumRemove(r, k);
    if k in h {
      SumRemove(h, k);
      assert r - {k} == h - {k};
    } else {
      assert r - {k} == h;
    }
  }

  /** The buckets of `h` whose keys are in `keys`. */
  ghost function Part(h: Hist, keys: set<int>): (r: Hist)
    ensures r.Keys == h.Keys * keys
    ensures forall k :: k in r ==> r[k] == h[k]
  {
    map k | k in h && k in keys :: h[k]
  }

  /** Adding one key of `h` to a part adds its count. */
  lemma PartAdd(h: Hist, keys: set<int>, k: int)
    requires k in h && k !in keys
    ensures SumValues(Part(h, keys + {k})) == SumValues(Part(h, keys)) + h[k]
  {
    SumRemove(Part(h, keys + {k}), k);
    assert Part(h, keys + {k}) - {k} == Part(h, keys);
  }

  /** The totals of two parts with disjoint key sets add up to the total of their union. */
  lemma {:induction false} PartUnion(h: Hist, a: set<int>, b: set<int>)
    requires a !! b && b <= h.Keys
    ensures SumValues(Part(h, a + b)) == SumValues(Part(h, a)) + SumValues(Part(h, b))
    decreases |b|
  {
    if b == {} {
      PartNone(h, a);
    } else {
      var k := Pick(b);
      PartUnion(h, a, b - {k});
      PartUnionStep(h, a, b, k);
    }
  }

  lemma PartNone(h: Hist, a: set<int>)
    ensures SumValues(Part(h, a + {})) == SumValues(Part(h, a)) + SumValues(Part(h, {}))
  {
    assert a + {} == a;
    assert Part(h, {}) == map[];
  }

  /** One step of `PartUnion`: the key `k` of the second part taken out. */
  lemma PartUnionStep(h: Hist, a: set<int>, b: set<int>, k: int)
    requires k in h && k !in a && k in b
    requires SumValues(Part(h, a + (b - {k}))) == SumValues(Part(h, a)) + SumValues(Part(h, b - {k}))
    ensures SumValues(Part(h, a + b)) == SumValues(Part(h, a)) + SumValues(Part(h, b))
  {
    var b' := b - {k};
    assert b == b' + {k};
    assert a + b == (a + b') + {k};
    PartAdd(h, a + b', k);
    PartAdd(h, b', k);
  }

  /** The whole of `h` is a part of it. */
  lemma PartAll(h: Hist)
    ensures Part(h, h.Keys) == h
  {
  }

  /** The keys of `h` at most `limit`, and those above it. */
  function AtMost(h: Hist, limit: int): (s: set<int>)
    ensures forall k :: k in s <==> k in h && k <= limit
  {
    set k | k in h && k <= limit
  }

  function Above(h: Hist, limit: int): (s: set<int>)
    ensures forall k :: k in s <==> k in h && k > limit
  {
    set k | k in h && k > limit
  }

  /** Every count is split between the buckets at most `limit` and those above it. */
  lemma SumSplit(h: Hist, limit: int)
    ensures SumValues(h) == SumValues(Part(h, AtMost(h, limit))) + SumValues(Part(h, Above(h, limit)))
  {
    assert AtMost(h, limit) + Above(h, limit) == h.Keys;
    PartUnion(h, AtMost(h, limit), Above(h, limit));
    PartAll(h);
  }

  /** All counts positive. */
  ghost predicate Positive(h: Hist) {
    forall k :: k in h ==> h[k] > 0
  }

  /** With positive counts, each bucket is at most the total, and the total is
      zero only for the empty histogram. */
  lemma {:induction false} SumPositive(h: Hist)
    requires Positive(h)
    ensures SumValues(h) >= 0
    ensures SumValues(h) == 0 <==> h == map[]
    ensures forall k :: k in h ==> h[k] <= SumValues(h)
    decreases |h.Keys|
  {
    if h.Keys != {} {
      var j := Pick(h.Keys);
      assert (h - {j}).Keys == h.Keys - {j};
      SumPositive(h - {j});
      forall k | k in h ensures h[k] <= SumValues(h) {
        if k != j {
          assert k in h - {j};
        }
      }
    } else {
      assert h == map[];
    }
  }
}
