/**
  The dictionary trie of dict/dict.go: five nested maps keyed by the first
  five runes of a word, with a `DictionaryWord` at depth five.  The file
  scanning of `LoadDictionary` is replaced by a sequence of lines.
*/
module Dict {
  import opened Wrappers

  /** A dictionary entry: the whole line and whether it was already a solution. */
  datatype DictionaryWord = DictionaryWord(word: string, used: bool)

  type Level5 = map<char, DictionaryWord>
  type Level4 = map<char, Level5>
  type Level3 = map<char, Level4>
  type Level2 = map<char, Level3>
  /** Go's `Dictionary`: `map[rune]map[rune]map[rune]map[rune]map[rune]*DictionaryWord`. */
  type Dictionary = map<char, Level2>

  /** What `utf8.DecodeRune` returns for an exhausted slice. */
  const RuneError: char := '\U{FFFD}'

  /** Rune `k` of a line, as decoded by the five `utf8.DecodeRune` calls. */
  function RuneAt(line: string, k: nat): char {
    if k < |line| then line[k] else RuneError
  }

  /** The five runes a line is filed under. */
  function Key(line: string): (k: string)
    ensures |k| == 5
    ensures forall i :: 0 <= i < 5 ==> k[i] == RuneAt(line, i)
    ensures |line| >= 5 ==> k == line[..5]
  {
    [RuneAt(line, 0), RuneAt(line, 1), RuneAt(line, 2), RuneAt(line, 3), RuneAt(line, 4)]
  }

  /** Reading `words[l1][l2][l3][l4][l5]`; `None` stands for Go's nil. */
  function Lookup(d: Dictionary, k: string): Option<DictionaryWord>
    requires |k| == 5
  {
    if k[0] in d && k[1] in d[k[0]] && k[2] in d[k[0]][k[1]]
       && k[3] in d[k[0]][k[1]][k[2]] && k[4] in d[k[0]][k[1]][k[2]][k[3]]
    then Some(d[k[0]][k[1]][k[2]][k[3]][k[4]])
    else None
  }

  /** The keys of all words stored at depth five. */
  ghost function Leaves(d: Dictionary): set<string> {
    set a, b, c, e, f | a in d && b in d[a] && c in d[a][b] && e in d[a][b][c] && f in d[a][b][c][e]
      :: [a, b, c, e, f]
  }

  lemma LeavesAreLookups(d: Dictionary, k: string)
    ensures k in Leaves(d) <==> |k| == 5 && Lookup(d, k).Some?
  {
    if |k| == 5 && Lookup(d, k).Some? {
      assert k == [k[0], k[1], k[2], k[3], k[4]];
    }
  }

  /** No level of the trie is an empty map: a level exists only to hold a word. */
  ghost predicate NoEmptyLevels(d: Dictionary) {
    forall a | a in d :: d[a] != map[] &&
      forall b | b in d[a] :: d[a][b] != map[] &&
        forall c | c in d[a][b] :: d[a][b][c] != map[] &&
          forall e | e in d[a][b][c] :: d[a][b][c][e] != map[]
  }

  /** The level below `c`, or an empty one when `m[c]` is nil. */
  function Sub<V>(m: map<char, map<char, V>>, c: char): map<char, V> {
    if c in m then m[c] else map[]
  }

  /** Files `w` under `k`, creating missing levels and keeping every existing one. */
  function SetLeaf(d: Dictionary, k: string, w: DictionaryWord): Dictionary
    requires |k| == 5
  {
    var m2 := Sub(d, k[0]);
    var m3 := Sub(m2, k[1]);
    var m4 := Sub(m3, k[2]);
    var m5 := Sub(m4, k[3]);
    d[k[0] := m2[k[1] := m3[k[2] := m4[k[3] := m5[k[4] := w]]]]]
  }

  /** One line read by `LoadDictionary`: the first insertion under a key wins. */
  function InsertLine(d: Dictionary, line: string, history: set<string>): Dictionary {
    var k := Key(line);
    if Lookup(d, k).Some? then d else SetLeaf(d, k, DictionaryWord(line, line in history))
  }

  /** The trie `LoadDictionary` builds from the lines it reads. */
  function Build(lines: seq<string>, history: set<string>): Dictionary {
    if |lines| == 0 then map[]
    else InsertLine(Build(lines[..|lines| - 1], history), lines[|lines| - 1], history)
  }

  lemma UpdateSame<K, V>(m: map<K, V>, k: K)
    requires k in m
    ensures m[k := m[k]] == m
  {
  }

  lemma UpdateTwice<K, V>(m: map<K, V>, k: K, a: V, b: V)
    ensures m[k := a][k := b] == m[k := b]
  {
  }

  /** The body of the scan loop: files one line, creating each missing level in turn. */
  method FileLine(d: Dictionary, line: string, history: set<string>) returns (words: Dictionary)
    ensures words == InsertLine(d, line, history)
  {
    words := d;
    ghost var before := d;
    var l1, l2, l3, l4, l5 := RuneAt(line, 0), RuneAt(line, 1), RuneAt(line, 2), RuneAt(line, 3), RuneAt(line, 4);
    ghost var m2 := Sub(before, l1);
    ghost var m3 := Sub(m2, l2);
    ghost var m4 := Sub(m3, l3);
    ghost var m5 := Sub(m4, l4);
    if l1 !in words {
      words := words[l1 := map[]];
    } else {
      UpdateSame(words, l1);
    }
    assert words == before[l1 := m2];
    if l2 !in words[l1] {
      words := words[l1 := words[l1][l2 := map[]]];
      UpdateTwice(before, l1, m2, m2[l2 := m3]);
    } else {
      UpdateSame(m2, l2);
    }
    assert words == before[l1 := m2[l2 := m3]];
    if l3 !in words[l1][l2] {
      words := words[l1 := words[l1][l2 := words[l1][l2][l3 := map[]]]];
      UpdateTwice(m2, l2, m3, m3[l3 := m4]);
      UpdateTwice(before, l1, m2[l2 := m3], m2[l2 := m3[l3 := m4]]);
    } else {
      UpdateSame(m3, l3);
    }
    assert words == before[l1 := m2[l2 := m3[l3 := m4]]];
    if l4 !in words[l1][l2][l3] {
      words := words[l1 := words[l1][l2 := words[l1][l2][l3 := words[l1][l2][l3][l4 := map[]]]]];
      UpdateTwice(m3, l3, m4, m4[l4 := m5]);
      UpdateTwice(m2, l2, m3[l3 := m4], m3[l3 := m4[l4 := m5]]);
      UpdateTwice(before, l1, m2[l2 := m3[l3 := m4]], m2[l2 := m3[l3 := m4[l4 := m5]]]);
    } else {
      UpdateSame(m4, l4);
    }
    assert words == before[l1 := m2[l2 := m3[l3 := m4[l4 := m5]]]];
    if l5 !in words[l1][l2][l3][l4] {
      var w := DictionaryWord(line, line in history);
      words := words[l1 := words[l1][l2 := words[l1][l2][l3 := words[l1][l2][l3][l4 :=
                 words[l1][l2][l3][l4][l5 := w]]]]];
      UpdateTwice(m4, l4, m5, m5[l5 := w]);
      UpdateTwice(m3, l3, m4[l4 := m5], m4[l4 := m5[l5 := w]]);
      UpdateTwice(m2, l2, m3[l3 := m4[l4 := m5]], m3[l3 := m4[l4 := m5[l5 := w]]]);
      UpdateTwice(before, l1, m2[l2 := m3[l3 := m4[l4 := m5]]], m2[l2 := m3[l3 := m4[l4 := m5[l5 := w]]]]);
    } else {
      assert Lookup(before, Key(line)).Some?;
      UpdateSame(m4, l4);
      UpdateSame(m3, l3);
      UpdateSame(m2, l2);
      UpdateSame(before, l1);
    }
    assert words == InsertLine(before, line, history);
  }

  /** The insertion loop of `LoadDictionary` (dict/dict.go:32-60) over the lines read. */
  method LoadDictionary(lines: seq<string>, history: set<string>) returns (words: Dictionary)
    ensures words == Build(lines, history)
    ensures NoEmptyLevels(words)
  {
    words := map[];
    for n := 0 to |lines|
      invariant words == Build(lines[..n], history)
      invariant NoEmptyLevels(words)
    {
      ghost var before := words;
      words := FileLine(words, lines[n], history);
      InsertKeepsLevelsNonEmpty(before, lines[n], history);
      assert lines[..n + 1][..n] == lines[..n];
    }
    assert lines[..|lines|] == lines;
  }

  /** Storing under `k` changes the entry at `k` and no other. */
  lemma LookupSetLeaf(d: Dictionary, k: string, w: DictionaryWord, k': string)
    requires |k| == 5 && |k'| == 5
    ensures Lookup(SetLeaf(d, k, w), k') == if k' == k then Some(w) else Lookup(d, k')
  {
    if k' != k {
      var i :| 0 <= i < 5 && k'[i] != k[i];
    }
  }

  lemma InsertKeepsLevelsNonEmpty(d: Dictionary, line: string, history: set<string>)
    requires NoEmptyLevels(d)
    ensures NoEmptyLevels(InsertLine(d, line, history))
  {
    var k := Key(line);
    if Lookup(d, k).None? {
      var d' := InsertLine(d, line, history);
      forall a | a in d' ensures d'[a] != map[] {
        if a == k[0] { assert k[1] in d'[a]; }
      }
      forall a, b | a in d' && b in d'[a] ensures d'[a][b] != map[] {
        if a == k[0] && b == k[1] { assert k[2] in d'[a][b]; }
      }
      forall a, b, c | a in d' && b in d'[a] && c in d'[a][b] ensures d'[a][b][c] != map[] {
        if a == k[0] && b == k[1] && c == k[2] { assert k[3] in d'[a][b][c]; }
      }
      forall a, b, c, e | a in d' && b in d'[a] && c in d'[a][b] && e in d'[a][b][c]
        ensures d'[a][b][c][e] != map[]
      {
        if a == k[0] && b == k[1] && c == k[2] && e == k[3] { assert k[4] in d'[a][b][c][e]; }
      }
    }
  }

  /** After a line is inserted, its key holds a word, and that word is the line
      itself unless the key was already taken, in which case nothing changed. */
  lemma {:induction false} InsertLineLookup(d: Dictionary, line: string, history: set<string>, k: string)
    requires |k| == 5
    ensures Lookup(InsertLine(d, line, history), k) ==
      if k == Key(line) && Lookup(d, k).None? then Some(DictionaryWord(line, line in history))
      else Lookup(d, k)
  {
    if Lookup(d, Key(line)).None? {
      LookupSetLeaf(d, Key(line), DictionaryWord(line, line in history), k);
    }
  }

  /** Inserting a line adds exactly its key to the leaves. */
  lemma InsertLineLeaves(d: Dictionary, line: string, history: set<string>)
    ensures Leaves(InsertLine(d, line, history)) == Leaves(d) + {Key(line)}
  {
    var d' := InsertLine(d, line, history);
    forall k ensures k in Leaves(d') <==> k in Leaves(d) + {Key(line)} {
      LeavesAreLookups(d, k);
      LeavesAreLookups(d', k);
      if |k| == 5 {
        InsertLineLookup(d, line, history, k);
      }
    }
  }

  /** The leaves of the built trie are exactly the keys of the lines read, so
      the number of words equals the number of distinct five-rune prefixes. */
  lemma {:induction false} BuildLeaves(lines: seq<string>, history: set<string>)
    ensures Leaves(Build(lines, history)) == set i | 0 <= i < |lines| :: Key(lines[i])
  {
    if |lines| > 0 {
      var n := |lines| - 1;
      BuildLeaves(lines[..n], history);
      InsertLineLeaves(Build(lines[..n], history), lines[n], history);
      KeysSnoc(lines);
    }
  }

  /** The keys of a list of lines are those of all but the last, and the last one's. */
  lemma KeysSnoc(lines: seq<string>)
    requires |lines| > 0
    ensures var n := |lines| - 1;
      (set i | 0 <= i < |lines| :: Key(lines[i])) == (set i | 0 <= i < n :: Key(lines[..n][i])) + {Key(lines[n])}
  {
    var n := |lines| - 1;
    assert forall i :: 0 <= i < n ==> lines[..n][i] == lines[i];
  }

  /** First insertion wins: a key holds the first line filed under it, with
      `used` telling whether that line is in the history. */
  lemma {:induction false} BuildFirstWins(lines: seq<string>, history: set<string>, i: nat)
    requires i < |lines|
    requires forall t :: 0 <= t < i ==> Key(lines[t]) != Key(lines[i])
    ensures Lookup(Build(lines, history), Key(lines[i])) == Some(DictionaryWord(lines[i], lines[i] in history))
  {
    var n := |lines| - 1;
    var k := Key(lines[i]);
    InsertLineLookup(Build(lines[..n], history), lines[n], history, k);
    if i < n {
      BuildFirstWins(lines[..n], history, i);
    } else {
      BuildAbsent(lines[..n], history, k);
    }
  }

  /** A key no line is filed under holds nothing. */
  lemma {:induction false} BuildAbsent(lines: seq<string>, history: set<string>, k: string)
    requires |k| == 5
    requires forall t :: 0 <= t < |lines| ==> Key(lines[t]) != k
    ensures Lookup(Build(lines, history), k).None?
  {
    if |lines| > 0 {
      var n := |lines| - 1;
      InsertLineLookup(Build(lines[..n], history), lines[n], history, k);
      BuildAbsent(lines[..n], history, k);
    }
  }

  /** Every stored word is one of the lines, filed under its own first five
      runes, and is marked used exactly when it is in the history. */
  lemma {:induction false} BuildStoresLines(lines: seq<string>, history: set<string>, k: string)
    requires |k| == 5
    requires Lookup(Build(lines, history), k).Some?
    ensures var w := Lookup(Build(lines, history), k).value;
      w.word in lines && Key(w.word) == k && w.used == (w.word in history)
  {
    var n := |lines| - 1;
    InsertLineLookup(Build(lines[..n], history), lines[n], history, k);
    if Lookup(Build(lines[..n], history), k).Some? {
      BuildStoresLines(lines[..n], history, k);
    }
  }
}
