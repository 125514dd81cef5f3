/**
  The anagram search of presmycky/main.go: for every word `w` of the history
  it lists the dictionary words made of exactly the letters of `w`, none of
  them in the position it has in `w`.  It counts the letters of `w`, builds
  per position the set of letters of `w` other than the one standing there,
  matches each dictionary word against the regular expression of those five
  classes, and then compares letter counts.
*/
module Presmycky {
  import P = Progress
  import H = Histogram

  /* ---------------------------------------------------------------------
     What the search finds
     --------------------------------------------------------------------- */

  /** A single-byte character that stands for itself inside a character
      class: every ASCII character except `-` (a range), `]` (the end of
      the class), `^` (a negation when first), `\` (an escape) and `[`
      (the start of a named class such as `[:alpha:]`). */
  predicate Plain(c: char) {
    c < 128 as char && c !in {'-', ']', '^', '\\', '['}
  }

  /** A history word the search handles: at least five runes (it reads `w[0]`
      to `w[4]`), the first five of them `Plain`, and not all five the same (so
      that no character class of the expression is empty). */
  predicate Eligible(w: string) {
    |w| >= 5 && (forall i :: 0 <= i < 5 ==> Plain(w[i])) && exists i :: 0 < i < 5 && w[i] != w[0]
  }

  /** The letters among the first `n` runes of `w`. */
  function Seen(w: string, n: nat): set<char>
    requires n <= |w|
  {
    set j | 0 <= j < n :: w[j]
  }

  /** The letters of position `i`'s character class: the letters of `w`
      other than `w[i]`. */
  function Allowed(w: string, i: nat): set<char>
    requires 5 <= |w| && i < 5
  {
    set l | l in Seen(w, 5) && l != w[i]
  }

  /** The five character classes of the expression `^[..][..][..][..][..]$`. */
  function Pattern(w: string): (parts: seq<set<char>>)
    requires 5 <= |w|
    ensures |parts| == 5 && forall i :: 0 <= i < 5 ==> parts[i] == Allowed(w, i)
  {
    seq(5, i requires 0 <= i < 5 => Allowed(w, i))
  }

  /** `re.Match`: the word is as many runes as there are classes, each in its class. */
  predicate Match(parts: seq<set<char>>, word: string) {
    |word| == |parts| && forall i :: 0 <= i < |word| ==> word[i] in parts[i]
  }

  /** `word` is a rearrangement of the first five letters of `w` that moves every letter. */
  predicate Deranged(w: string, word: string)
    requires 5 <= |w|
  {
    |word| == 5 && multiset(word) == multiset(w[..5]) && forall i :: 0 <= i < 5 ==> word[i] != w[i]
  }

  /** The dictionary words the search prints for `w`, in dictionary order. */
  function Anagrams(w: string, words: seq<string>): seq<string>
    requires 5 <= |w|
  {
    if words == [] then []
    else
      var n := |words| - 1;
      Anagrams(w, words[..n]) + if Deranged(w, words[n]) then [words[n]] else []
  }

  /** The lines `i w word` printed for history word number `i`. */
  function Tag(i: nat, w: string, found: seq<string>): (r: seq<(nat, string, string)>)
    ensures |r| == |found| && forall k :: 0 <= k < |found| ==> r[k] == (i, w, found[k])
  {
    seq(|found|, k requires 0 <= k < |found| => (i, w, found[k]))
  }

  /** Everything the search prints, history word by history word. */
  function Printed(history: seq<string>, words: seq<string>): seq<(nat, string, string)>
    requires forall i :: 0 <= i < |history| ==> 5 <= |history[i]|
  {
    if history == [] then []
    else
      var n := |history| - 1;
      Printed(history[..n], words) + Tag(n, history[n], Anagrams(history[n], words))
  }

  /** A word is found for `w` exactly when it is in the dictionary and deranges `w`. */
  lemma {:induction false} AnagramsMembers(w: string, words: seq<string>)
    requires 5 <= |w|
    ensures forall word :: word in Anagrams(w, words) <==> word in words && Deranged(w, word)
  {
    if words != [] {
      var n := |words| - 1;
      AnagramsMembers(w, words[..n]);
      assert words == words[..n] + [words[n]];
    }
  }

  /** Every printed line names a history word by its index and one of its
      derangements from the dictionary, never the word itself. */
  lemma {:induction false} PrintedSound(history: seq<string>, words: seq<string>)
    requires forall i :: 0 <= i < |history| ==> 5 <= |history[i]|
    ensures forall x :: x in Printed(history, words) ==>
      x.0 < |history| && x.1 == history[x.0] && x.2 in words && Deranged(history[x.0], x.2)
      && x.2 != history[x.0][..5]
  {
    if history != [] {
      var n := |history| - 1;
      PrintedSound(history[..n], words);
      AnagramsMembers(history[n], words);
      forall x | x in Printed(history, words)
        ensures x.0 < |history| && x.1 == history[x.0] && x.2 in words && Deranged(history[x.0], x.2)
          && x.2 != history[x.0][..5]
      {
        SoundStep(history, words, n, history[..n], x);
      }
    }
  }

  /** One line of `PrintedSound`: from the earlier words, or from the last. */
  lemma SoundStep(history: seq<string>, words: seq<string>, n: nat, h: seq<string>, x: (nat, string, string))
    requires n == |history| - 1 && h == history[..n]
    requires forall i :: 0 <= i < |history| ==> 5 <= |history[i]|
    requires x in Printed(history, words)
    requires forall x :: x in Printed(h, words) ==>
      x.0 < |h| && x.1 == h[x.0] && x.2 in words && Deranged(h[x.0], x.2)
    requires forall word :: word in Anagrams(history[n], words) <==> word in words && Deranged(history[n], word)
    ensures x.0 < |history| && x.1 == history[x.0] && x.2 in words && Deranged(history[x.0], x.2)
      && x.2 != history[x.0][..5]
  {
    var tail := Tag(n, history[n], Anagrams(history[n], words));
    if x !in Printed(history[..n], words) {
      assert x in tail;
      var k :| 0 <= k < |tail| && tail[k] == x;
    }
    NotItself(history[x.0], x.2);
  }

  /** Every pair of a history word and a dictionary word deranging it is printed. */
  lemma {:induction false} PrintedComplete(history: seq<string>, words: seq<string>)
    requires forall i :: 0 <= i < |history| ==> 5 <= |history[i]|
    ensures forall i, word :: 0 <= i < |history| && word in words && Deranged(history[i], word) ==>
      (i, history[i], word) in Printed(history, words)
  {
    if history != [] {
      var n := |history| - 1;
      PrintedComplete(history[..n], words);
      AnagramsMembers(history[n], words);
      forall i, word | 0 <= i < |history| && word in words && Deranged(history[i], word)
        ensures (i, history[i], word) in Printed(history, words)
      {
        CompleteStep(history, words, n, history[..n], i, word);
      }
    }
  }

  /** One pair of `PrintedComplete`: an earlier word, or the last. */
  lemma CompleteStep(history: seq<string>, words: seq<string>, n: nat, h: seq<string>, i: nat, word: string)
    requires n == |history| - 1 && h == history[..n]
    requires forall i :: 0 <= i < |history| ==> 5 <= |history[i]|
    requires i < |history| && word in words && Deranged(history[i], word)
    requires forall i, word :: 0 <= i < |h| && word in words && Deranged(h[i], word) ==>
      (i, h[i], word) in Printed(h, words)
    requires forall word :: word in Anagrams(history[n], words) <==> word in words && Deranged(history[n], word)
    ensures (i, history[i], word) in Printed(history, words)
  {
    if i < n {
      assert history[..n][i] == history[i];
    } else {
      var found := Anagrams(history[n], words);
      assert word in found;
      var k :| 0 <= k < |found| && found[k] == word;
      assert Tag(n, history[n], found)[k] == (i, history[i], word);
    }
  }

  /** A derangement differs from the word it deranges. */
  lemma NotItself(w: string, word: string)
    requires 5 <= |w| && Deranged(w, word)
    ensures word != w[..5]
  {
    assert word[0] != w[..5][0];
  }

  /** The two checks of the search together are exactly a derangement: the
      expression admits a word with every letter in its class, and the counts
      admit a word with the letters of `w`. */
  lemma MatchIsDerangement(w: string, word: string)
    requires 5 <= |w|
    ensures Match(Pattern(w), word) && multiset(word) == multiset(w[..5]) <==> Deranged(w, word)
  {
    if Deranged(w, word) {
      forall i | 0 <= i < 5 ensures word[i] in Allowed(w, i) {
        assert word[i] in multiset(w[..5]);
        assert word[i] in w[..5];
        var j :| 0 <= j < 5 && w[..5][j] == word[i];
        assert w[j] in Seen(w, 5);
      }
    }
  }

  /* ---------------------------------------------------------------------
     The loops of the search
     --------------------------------------------------------------------- */

  /** Go's `m[l]`, with a missing key read as 0. */
  function Get(m: map<char, int>, l: char): int {
    if l in m then m[l] else 0
  }

  /** `counts` after `n` letters of `w`: how often each occurs. */
  ghost predicate CountsUpTo(counts: map<char, int>, w: string, n: nat)
    requires n <= 5 <= |w|
  {
    counts.Keys == Seen(w, n) && forall l :: Get(counts, l) == multiset(w[..n])[l]
  }

  /** `c0` after `n` letters of `w`: zero for each. */
  ghost predicate ZerosUpTo(c0: map<char, int>, w: string, n: nat)
    requires n <= |w|
  {
    c0.Keys == Seen(w, n) && forall l :: l in c0 ==> c0[l] == 0
  }

  /** A row of `allowed` in which every letter of `w` is allowed. */
  ghost predicate FullRow(row: map<char, bool>, w: string)
    requires 5 <= |w|
  {
    row.Keys == Seen(w, 5) && forall l :: l in row ==> row[l]
  }

  /** `allowed` after `n` letters of `w`: rows `0` to `n - 1`, each full. */
  ghost predicate RowsUpTo(allowed: map<int, map<char, bool>>, w: string, n: nat)
    requires 5 <= |w|
  {
    (forall i :: i in allowed <==> 0 <= i < n)
    && forall i :: 0 <= i < n ==> FullRow(allowed[i], w)
  }

  /** `allowed` once the loop over `letters` has visited the letters `done`:
      the row of each position allows every letter of `w`, except its own
      letter when that has been visited. */
  ghost predicate ForbiddenSoFar(allowed: map<int, map<char, bool>>, w: string, done: set<char>)
    requires 5 <= |w|
  {
    (forall i :: i in allowed <==> 0 <= i < 5)
    && (forall i :: 0 <= i < 5 ==> allowed[i].Keys == Seen(w, 5))
    && forall i, m {:trigger allowed[i][m]} :: 0 <= i < 5 && m in allowed[i] ==> (allowed[i][m] <==> !(m in done && w[i] == m))
  }

  /** `allowed` after the loop: position `i` allows every letter of `w` but `w[i]`. */
  ghost predicate Forbidden(allowed: map<int, map<char, bool>>, w: string)
    requires 5 <= |w|
  {
    (forall i :: i in allowed <==> 0 <= i < 5)
    && (forall i :: 0 <= i < 5 ==> allowed[i].Keys == Seen(w, 5))
    && forall i, m {:trigger allowed[i][m]} :: 0 <= i < 5 && m in allowed[i] ==> (allowed[i][m] <==> m != w[i])
  }

  lemma SeenStep(w: string, n: nat)
    requires n < |w|
    ensures Seen(w, n + 1) == Seen(w, n) + {w[n]}
  {
  }

  lemma CountsStep(counts: map<char, int>, w: string, n: nat, counts': map<char, int>)
    requires n < 5 <= |w| && CountsUpTo(counts, w, n)
    requires counts' == counts[w[n] := Get(counts, w[n]) + 1]
    ensures CountsUpTo(counts', w, n + 1)
  {
    assert w[..n + 1] == w[..n] + [w[n]];
    SeenStep(w, n);
  }

  lemma ZerosStep(c0: map<char, int>, w: string, n: nat, c0': map<char, int>)
    requires n < 5 <= |w| && ZerosUpTo(c0, w, n) && c0' == c0[w[n] := 0]
    ensures ZerosUpTo(c0', w, n + 1)
  {
    SeenStep(w, n);
  }

  lemma RowsStep(allowed: map<int, map<char, bool>>, w: string, n: nat, row: map<char, bool>)
    requires n < 5 <= |w| && RowsUpTo(allowed, w, n) && FullRow(row, w)
    ensures RowsUpTo(allowed[n := row], w, n + 1)
  {
  }

  /** The positions listed for `l` are exactly the positions of `l`. */
  lemma {:induction false} PositionsExact(w: string, n: nat, l: char)
    requires n <= |w|
    ensures forall i :: 0 <= i < n ==> (i in P.ListOf(P.SolutionPositions(w, n), l) <==> w[i] == l)
    ensures forall k :: 0 <= k < |P.ListOf(P.SolutionPositions(w, n), l)| ==> P.ListOf(P.SolutionPositions(w, n), l)[k] < n
  {
    if n > 0 {
      PositionsExact(w, n - 1, l);
      var m := P.SolutionPositions(w, n - 1);
      assert P.ListOf(P.SolutionPositions(w, n), l)
        == if l == w[n - 1] then P.ListOf(m, l) + [n - 1] else P.ListOf(m, l);
    }
  }

  /** The first loop over the five letters of `w`: `counts`, `c0`, `letters`
      and every letter allowed everywhere. */
  method Tables(w: string) returns (counts: map<char, int>, c0: map<char, int>, letters: P.Lists,
                                    allowed: map<int, map<char, bool>>)
    requires 5 <= |w|
    ensures CountsUpTo(counts, w, 5) && ZerosUpTo(c0, w, 5) && RowsUpTo(allowed, w, 5)
    ensures letters == P.SolutionPositions(w, 5)
  {
    counts, c0, letters, allowed := map[], map[], map[], map[];
    for i := 0 to 5
      invariant CountsUpTo(counts, w, i) && ZerosUpTo(c0, w, i) && RowsUpTo(allowed, w, i)
      invariant letters == P.SolutionPositions(w, i)
    {
      CountsStep(counts, w, i, counts[w[i] := Get(counts, w[i]) + 1]);
      counts := counts[w[i] := Get(counts, w[i]) + 1];
      ZerosStep(c0, w, i, c0[w[i] := 0]);
      c0 := c0[w[i] := 0];
      letters := letters[w[i] := P.ListOf(letters, w[i]) + [i]];
      var row := FullRowOf(w);
      RowsStep(allowed, w, i, row);
      allowed := allowed[i := row];
    }
  }

  /** The inner loop of the first loop: `allowed[i][w[j]] = true` for each `j`. */
  method FullRowOf(w: string) returns (row: map<char, bool>)
    requires 5 <= |w|
    ensures FullRow(row, w)
  {
    row := map[];
    for j := 0 to 5
      invariant row.Keys == Seen(w, j) && forall l :: l in row ==> row[l]
    {
      SeenStep(w, j);
      row := row[w[j] := true];
    }
  }

  /** The loop over `letters`: each letter is forbidden at each of its own positions. */
  method Forbid(w: string, letters: P.Lists, allowed: map<int, map<char, bool>>)
    returns (r: map<int, map<char, bool>>)
    requires 5 <= |w| && letters == P.SolutionPositions(w, 5) && RowsUpTo(allowed, w, 5)
    ensures Forbidden(r, w)
  {
    r := allowed;
    var keys := letters.Keys;
    ghost var done: set<char> := {};
    while keys != {}
      invariant keys !! done && keys + done == letters.Keys
      invariant ForbiddenSoFar(r, w, done)
      decreases keys
    {
      H.HasKey(keys);
      var l :| l in keys;
      var pos := letters[l];
      PositionsExact(w, 5, l);
      assert P.ListOf(letters, l) == pos;
      r := ForbidLetter(w, l, pos, r, done);
      P.KeysStep(keys, done, l);
      keys := keys - {l};
      done := done + {l};
    }
    ForbiddenAll(w, letters, r, done);
  }

  lemma ForbiddenAll(w: string, letters: P.Lists, r: map<int, map<char, bool>>, done: set<char>)
    requires 5 <= |w| && letters == P.SolutionPositions(w, 5) && done == letters.Keys
    requires ForbiddenSoFar(r, w, done)
    ensures Forbidden(r, w)
  {
    forall i, m | 0 <= i < 5 && m in r[i] && w[i] == m ensures m in done {
      PositionsExact(w, 5, m);
    }
  }

  /** `allowed` inside the inner loop for the letter `l`: as after the letters
      `done`, with `l` also forbidden at the positions `ps`. */
  ghost predicate Marked(allowed: map<int, map<char, bool>>, w: string, done: set<char>, l: char, ps: set<int>)
    requires 5 <= |w|
  {
    (forall i :: i in allowed <==> 0 <= i < 5)
    && (forall i :: 0 <= i < 5 ==> allowed[i].Keys == Seen(w, 5))
    && forall i, m {:trigger allowed[i][m]} :: 0 <= i < 5 && m in allowed[i] ==>
      (allowed[i][m] <==> !((m in done && w[i] == m) || (m == l && i in ps)))
  }

  lemma MarkedStart(allowed: map<int, map<char, bool>>, w: string, done: set<char>, l: char)
    requires 5 <= |w| && ForbiddenSoFar(allowed, w, done)
    ensures Marked(allowed, w, done, l, {})
  {
  }

  lemma MarkedStep(allowed: map<int, map<char, bool>>, w: string, done: set<char>, l: char, ps: set<int>, p: int)
    requires 5 <= |w| && Marked(allowed, w, done, l, ps) && 0 <= p < 5 && w[p] == l
    ensures Marked(allowed[p := allowed[p][l := false]], w, done, l, ps + {p})
  {
    assert l in Seen(w, 5);
  }

  lemma MarkedEnd(allowed: map<int, map<char, bool>>, w: string, done: set<char>, l: char, ps: set<int>)
    requires 5 <= |w| && Marked(allowed, w, done, l, ps)
    requires forall i :: 0 <= i < 5 ==> (i in ps <==> w[i] == l)
    ensures ForbiddenSoFar(allowed, w, done + {l})
  {
  }

  /** The inner loop over the positions `pos` of the letter `l`. */
  method ForbidLetter(w: string, l: char, pos: seq<nat>, r: map<int, map<char, bool>>, ghost done: set<char>)
    returns (r': map<int, map<char, bool>>)
    requires 5 <= |w| && ForbiddenSoFar(r, w, done)
    requires forall i :: 0 <= i < 5 ==> (i in pos <==> w[i] == l)
    requires forall k :: 0 <= k < |pos| ==> pos[k] < 5
    ensures ForbiddenSoFar(r', w, done + {l})
  {
    r' := r;
    ghost var ps: set<int> := {};
    MarkedStart(r, w, done, l);
    for k := 0 to |pos|
      invariant Marked(r', w, done, l, ps)
      invariant forall i :: i in ps <==> i in pos[..k]
    {
      assert pos[..k + 1] == pos[..k] + [pos[k]];
      var p := pos[k];
      assert p in pos;
      MarkedStep(r', w, done, l, ps, p);
      r' := r'[p := r'[p][l := false]];
      ps := ps + {p};
    }
    assert pos[..|pos|] == pos;
    MarkedEnd(r', w, done, l, ps);
  }

  /** The loop over `allowed`: `reParts[i]` gathers the letters still allowed
      at position `i` (in map order, so as a set). */
  method Parts(w: string, allowed: map<int, map<char, bool>>) returns (reParts: seq<set<char>>)
    requires 5 <= |w| && Forbidden(allowed, w)
    ensures reParts == Pattern(w)
  {
    reParts := [{}, {}, {}, {}, {}];
    var keys := allowed.Keys;
    ghost var done: set<int> := {};
    while keys != {}
      invariant keys !! done && keys + done == allowed.Keys
      invariant |reParts| == 5
      invariant forall k :: 0 <= k < 5 ==> reParts[k] == if k in done then Allowed(w, k) else {}
      decreases keys
    {
      ghost var some := H.Pick(keys);
      var i :| i in keys;
      var all := allowed[i];
      var part := reParts[i];
      var ls := all.Keys;
      ghost var seen: set<char> := {};
      while ls != {}
        invariant ls !! seen && ls + seen == all.Keys
        invariant forall m :: m in part <==> m in seen && all[m]
        decreases ls
      {
        H.HasKey(ls);
        var l :| l in ls;
        if all[l] {
          part := part + {l};
        }
        P.KeysStep(ls, seen, l);
        ls := ls - {l};
        seen := seen + {l};
      }
      assert part == Allowed(w, i);
      reParts := reParts[i := part];
      P.KeysStep(keys, done, i);
      keys := keys - {i};
      done := done + {i};
    }
  }

  /** `c1`: a fresh copy of `c0` counting the letters of `word`. */
  method Tally(c0: map<char, int>, word: string) returns (c1: map<char, int>)
    requires |word| == 5
    ensures c1.Keys == c0.Keys + Seen(word, 5)
    ensures forall l :: Get(c1, l) == Get(c0, l) + multiset(word)[l]
  {
    c1 := c0;
    for i := 0 to 5
      invariant c1.Keys == c0.Keys + Seen(word, i)
      invariant forall l :: Get(c1, l) == Get(c0, l) + multiset(word[..i])[l]
    {
      assert word[..i + 1] == word[..i] + [word[i]];
      SeenStep(word, i);
      c1 := c1[word[i] := Get(c1, word[i]) + 1];
    }
    assert word[..5] == word;
  }

  /** The loop over `c1`: every tallied letter occurs as often as in `w`. */
  method SameCounts(c1: map<char, int>, counts: map<char, int>) returns (ok: bool)
    ensures ok <==> forall l :: l in c1 ==> c1[l] == Get(counts, l)
  {
    ok := true;
    var keys := c1.Keys;
    ghost var done: set<char> := {};
    while keys != {}
      invariant keys !! done && keys + done == c1.Keys
      invariant ok && forall l :: l in done ==> c1[l] == Get(counts, l)
      decreases keys
    {
      H.HasKey(keys);
      var l :| l in keys;
      if c1[l] != Get(counts, l) {
        ok := false;
        break;
      }
      P.KeysStep(keys, done, l);
      keys := keys - {l};
      done := done + {l};
    }
  }

  /** The letters of a five-rune word are the members of its multiset. */
  lemma SeenIsMultiset(s: string)
    requires |s| == 5
    ensures forall l :: l in Seen(s, 5) <==> l in multiset(s)
  {
    assert s[..5] == s;
  }

  /** Comparing the counts over the keys of `c1` decides whether `word` has
      exactly the letters of `w`. */
  lemma CountsDecide(w: string, word: string, counts: map<char, int>, c0: map<char, int>, c1: map<char, int>)
    requires 5 <= |w| && |word| == 5 && CountsUpTo(counts, w, 5) && ZerosUpTo(c0, w, 5)
    requires c1.Keys == c0.Keys + Seen(word, 5)
    requires forall l :: Get(c1, l) == Get(c0, l) + multiset(word)[l]
    ensures (forall l :: l in c1 ==> c1[l] == Get(counts, l)) <==> multiset(word) == multiset(w[..5])
  {
    SeenIsMultiset(word);
    SeenIsMultiset(w[..5]);
    assert Seen(w[..5], 5) == Seen(w, 5);
    if forall l :: l in c1 ==> c1[l] == Get(counts, l) {
      forall l ensures multiset(word)[l] == multiset(w[..5])[l] {
        if l !in c1 {
          assert l !in Seen(word, 5) && l !in Seen(w, 5);
        } else {
          assert Get(c1, l) == c1[l];
        }
      }
    }
  }

  lemma AnagramsSnoc(w: string, words: seq<string>, k: nat)
    requires 5 <= |w| && k < |words|
    ensures Anagrams(w, words[..k + 1]) == Anagrams(w, words[..k]) + if Deranged(w, words[k]) then [words[k]] else []
  {
    assert words[..k + 1][..k] == words[..k];
  }

  lemma PrintedSnoc(history: seq<string>, words: seq<string>, i: nat, j: nat)
    requires i < |history| && j == i + 1 && forall k :: 0 <= k < |history| ==> 5 <= |history[k]|
    ensures forall k :: 0 <= k < |history[..j]| ==> 5 <= |history[..j][k]|
    ensures Printed(history[..j], words) == Printed(history[..i], words) + Tag(i, history[i], Anagrams(history[i], words))
  {
    assert history[..j][..i] == history[..i];
  }

  /** The body of the loop over the history for one word `w`: build the
      tables and the expression, then check every dictionary word. */
  method Filter(w: string, words: seq<string>) returns (found: seq<string>)
    requires Eligible(w)
    ensures found == Anagrams(w, words)
  {
    var counts, c0, letters, allowed := Tables(w);
    allowed := Forbid(w, letters, allowed);
    var reParts := Parts(w, allowed);
    found := [];
    for k := 0 to |words|
      invariant found == Anagrams(w, words[..k])
    {
      var word := words[k];
      AnagramsSnoc(w, words, k);
      MatchIsDerangement(w, word);
      if Match(reParts, word) {
        var c1 := Tally(c0, word);
        var ok := SameCounts(c1, counts);
        CountsDecide(w, word, counts, c0, c1);
        if ok {
          found := found + [word];
        }
      }
    }
    assert words[..|words|] == words;
  }

  /** The search of `main` over the history and the dictionary, returning the
      printed lines `i w word` in order. */
  method Search(history: seq<string>, words: seq<string>) returns (out: seq<(nat, string, string)>)
    requires forall i :: 0 <= i < |history| ==> Eligible(history[i])
    ensures (forall i :: 0 <= i < |history| ==> 5 <= |history[i]|) && out == Printed(history, words)
  {
    out := [];
    for i := 0 to |history|
      invariant forall k :: 0 <= k < |history[..i]| ==> 5 <= |history[..i][k]|
      invariant out == Printed(history[..i], words)
    {
      var w := history[i];
      var found := Filter(w, words);
      PrintedSnoc(history, words, i, i + 1);
      out := out + Tag(i, w, found);
    }
    assert history[..|history|] == history;
  }
}
