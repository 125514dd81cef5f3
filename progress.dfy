/**
  The constraint engine of progress/progress.go.  A `Progress` holds, per
  board position, either a solved letter or the map `left` of letters still
  allowed there, and a per-letter frequency record `freq` for the current
  round.  The value type `Board` and the functions over it give the meaning
  of each operation; the class `Progress` updates its fields in place as
  the source does and is proved against those functions.
*/
module Progress {
  import opened Wrappers
  import Dict

  /** Go's `LetterFreq`: how often a letter occurs, and whether exactly or at least. */
  datatype LetterFreq = LetterFreq(f: nat, exact: bool, floor: bool)

  /** What `new(LetterFreq)` holds. */
  const NoFreq := LetterFreq(0, false, false)

  /** Go's `PositionProgress`; `left == None` is a nil map. */
  datatype PositionProgress = PositionProgress(solved: bool, letter: char, left: Option<map<char, bool>>)
  {
    /** `PositionProgress.Valid`: whether this position accepts rune `r`. */
    predicate Valid(r: char) {
      (solved && letter == r) || (!solved && left.Some? && r in left.value && left.value[r])
    }
  }

  type FreqMap = map<char, LetterFreq>

  /** The value of a `Progress`: its positions and its frequency map (`None` is nil). */
  datatype Board = Board(pos: seq<PositionProgress>, freq: Option<FreqMap>)

  /** Reading `freq[l]`, with a missing record read as a fresh one. */
  function FreqOf(fm: FreqMap, l: char): LetterFreq {
    if l in fm then fm[l] else NoFreq
  }

  /** `IncFreq` on the map: the record of `l` (created if missing) counts one more. */
  function Bump(fm: FreqMap, l: char): FreqMap {
    fm[l := FreqOf(fm, l).(f := FreqOf(fm, l).f + 1)]
  }

  function SetExact(fm: FreqMap, l: char): FreqMap {
    fm[l := FreqOf(fm, l).(exact := true)]
  }

  function SetFloor(fm: FreqMap, l: char): FreqMap {
    fm[l := FreqOf(fm, l).(floor := true)]
  }

  /** `pos[i].left[l] = false`. */
  function ClearAt(pos: seq<PositionProgress>, i: nat, l: char): seq<PositionProgress>
    requires i < |pos| && pos[i].left.Some?
  {
    pos[i := pos[i].(left := Some(pos[i].left.value[l := false]))]
  }

  /** Only position `i` changes, it keeps its solved flag and letter, and it
      accepts what it accepted before except `l` (unless it is solved). */
  lemma ClearAtEffect(pos: seq<PositionProgress>, i: nat, l: char)
    requires i < |pos| && pos[i].left.Some?
    ensures var p' := ClearAt(pos, i, l);
      |p'| == |pos| && (forall j :: 0 <= j < |pos| && j != i ==> p'[j] == pos[j])
      && p'[i].solved == pos[i].solved && p'[i].letter == pos[i].letter && p'[i].left.Some?
      && forall c :: p'[i].Valid(c) <==> pos[i].Valid(c) && (pos[i].solved || c != l)
  {
  }

  /** What a feedback tile needs: a frequency map (a `ResetRound` has run) and a valid position. */
  ghost predicate TilePre(b: Board, i: int) {
    b.freq.Some? && 0 <= i < |b.pos|
  }

  /** `Grey(i, letter)`: the count of `letter` is now exact; position `i` no longer accepts it. */
  function GreyBoard(b: Board, i: int, l: char): (r: Board)
    requires TilePre(b, i) && b.pos[i].left.Some?
    ensures r.freq.Some? && l in r.freq.value
    ensures FreqOf(r.freq.value, l) == FreqOf(b.freq.value, l).(exact := true)
    ensures forall c :: c != l ==> FreqOf(r.freq.value, c) == FreqOf(b.freq.value, c)
    ensures |r.pos| == |b.pos| && forall j :: 0 <= j < |b.pos| && j != i ==> r.pos[j] == b.pos[j]
    ensures r.pos[i].solved == b.pos[i].solved && r.pos[i].letter == b.pos[i].letter && r.pos[i].left.Some?
    ensures forall c :: r.pos[i].Valid(c) <==> b.pos[i].Valid(c) && (b.pos[i].solved || c != l)
  {
    ClearAtEffect(b.pos, i, l);
    Board(ClearAt(b.pos, i, l), Some(SetExact(b.freq.value, l)))
  }

  /** `Orange(i, letter)`: one more occurrence, at least that many; not at position `i`. */
  function OrangeBoard(b: Board, i: int, l: char): (r: Board)
    requires TilePre(b, i) && b.pos[i].left.Some?
    ensures r.freq.Some? && l in r.freq.value
    ensures FreqOf(r.freq.value, l).f == FreqOf(b.freq.value, l).f + 1
    ensures FreqOf(r.freq.value, l).floor && FreqOf(r.freq.value, l).exact == FreqOf(b.freq.value, l).exact
    ensures forall c :: c != l ==> FreqOf(r.freq.value, c) == FreqOf(b.freq.value, c)
    ensures |r.pos| == |b.pos| && forall j :: 0 <= j < |b.pos| && j != i ==> r.pos[j] == b.pos[j]
    ensures r.pos[i].solved == b.pos[i].solved && r.pos[i].letter == b.pos[i].letter && r.pos[i].left.Some?
    ensures forall c :: r.pos[i].Valid(c) <==> b.pos[i].Valid(c) && (b.pos[i].solved || c != l)
  {
    ClearAtEffect(b.pos, i, l);
    Board(ClearAt(b.pos, i, l), Some(SetFloor(Bump(b.freq.value, l), l)))
  }

  /** `Green(i, letter)`: one more occurrence; position `i` is solved with `letter`; `left` untouched. */
  function GreenBoard(b: Board, i: int, l: char): (r: Board)
    requires TilePre(b, i)
    ensures r.freq.Some? && l in r.freq.value
    ensures FreqOf(r.freq.value, l).f == FreqOf(b.freq.value, l).f + 1
    ensures FreqOf(r.freq.value, l).floor == FreqOf(b.freq.value, l).floor
    ensures FreqOf(r.freq.value, l).exact == FreqOf(b.freq.value, l).exact
    ensures forall c :: c != l ==> FreqOf(r.freq.value, c) == FreqOf(b.freq.value, c)
    ensures |r.pos| == |b.pos| && forall j :: 0 <= j < |b.pos| && j != i ==> r.pos[j] == b.pos[j]
    ensures r.pos[i].solved && r.pos[i].letter == l && r.pos[i].left == b.pos[i].left
    ensures forall c :: r.pos[i].Valid(c) <==> c == l
  {
    Board(b.pos[i := b.pos[i].(solved := true, letter := l)], Some(Bump(b.freq.value, l)))
  }

  /** `GreenOrange(i, letter)`: counts the letter twice (once itself, once through
      `Green`), sets `floor`, and solves position `i`. */
  function GreenOrangeBoard(b: Board, i: int, l: char): (r: Board)
    requires TilePre(b, i)
    ensures r.freq.Some? && l in r.freq.value
    ensures FreqOf(r.freq.value, l).f == FreqOf(b.freq.value, l).f + 2
    ensures FreqOf(r.freq.value, l).floor
    ensures FreqOf(r.freq.value, l).exact == FreqOf(b.freq.value, l).exact
    ensures forall c :: c != l ==> FreqOf(r.freq.value, c) == FreqOf(b.freq.value, c)
    ensures |r.pos| == |b.pos| && forall j :: 0 <= j < |b.pos| && j != i ==> r.pos[j] == b.pos[j]
    ensures r.pos[i].solved && r.pos[i].letter == l && r.pos[i].left == b.pos[i].left
  {
    GreenBoard(Board(b.pos, Some(SetFloor(Bump(b.freq.value, l), l))), i, l)
  }

  /** The board `NewProgress(size, letters)` returns. */
  function InitialBoard(size: nat, letters: seq<char>): (r: Board)
    ensures |r.pos| == size && r.freq.None?
    ensures forall i :: 0 <= i < size ==> !r.pos[i].solved && r.pos[i].left.Some?
    ensures forall i, c :: 0 <= i < size ==> (r.pos[i].Valid(c) <==> c in letters)
  {
    Board(seq(size, _ => PositionProgress(false, '\0', Some(map l | l in letters :: true))), None)
  }

  /** The board `Clone` returns: solved positions lose their `left` map. */
  function CloneBoard(b: Board): (r: Board)
    ensures |r.pos| == |b.pos| && r.freq == b.freq
    ensures forall i :: 0 <= i < |b.pos| ==>
      r.pos[i].solved == b.pos[i].solved && r.pos[i].letter == b.pos[i].letter
      && r.pos[i].left == (if b.pos[i].solved then None else b.pos[i].left)
    ensures forall i, c :: 0 <= i < |b.pos| ==> (r.pos[i].Valid(c) <==> b.pos[i].Valid(c))
  {
    Board(seq(|b.pos|, i requires 0 <= i < |b.pos| =>
      if b.pos[i].solved then b.pos[i].(left := None) else b.pos[i]), b.freq)
  }

  /** Letters proven absent this round: an exact count of zero. */
  function Absent(freq: Option<FreqMap>): set<char> {
    if freq.None? then {} else set l | l in freq.value && freq.value[l].exact && freq.value[l].f == 0
  }

  /** `left[l] = false` for every `l` in `ls`, where `left` is not nil. */
  function Forget(pp: PositionProgress, ls: set<char>): PositionProgress {
    if pp.left.None? then pp
    else pp.(left := Some(pp.left.value + map l | l in ls :: false))
  }

  /** The board after `ResetRound`. */
  function ResetBoard(b: Board): (r: Board)
    ensures |r.pos| == |b.pos| && r.freq == Some(map[])
    ensures forall i :: 0 <= i < |b.pos| ==>
      r.pos[i].solved == b.pos[i].solved && r.pos[i].letter == b.pos[i].letter
      && r.pos[i].left.Some? == b.pos[i].left.Some?
    ensures forall i, c :: 0 <= i < |b.pos| ==>
      (r.pos[i].Valid(c) <==> b.pos[i].Valid(c) && (b.pos[i].solved || c !in Absent(b.freq)))
  {
    forall i, c | 0 <= i < |b.pos| {
      ForgetValid(b.pos[i], Absent(b.freq), c);
    }
    Board(seq(|b.pos|, i requires 0 <= i < |b.pos| => Forget(b.pos[i], Absent(b.freq))), Some(map[]))
  }

  lemma ForgetValid(pp: PositionProgress, ls: set<char>, c: char)
    ensures Forget(pp, ls).solved == pp.solved && Forget(pp, ls).letter == pp.letter
    ensures Forget(pp, ls).Valid(c) <==> pp.Valid(c) && (pp.solved || c !in ls)
  {
  }

  lemma ForgetNothing(pp: PositionProgress)
    ensures Forget(pp, {}) == pp
  {
    if pp.left.Some? {
      var m := pp.left.value;
      var e: set<char> := {};
      var none: map<char, bool> := map l | l in e :: false;
      assert none == map[];
      assert m + none == m;
    }
  }

  /** Every position that is not solved has a `left` map. */
  ghost predicate OpenHaveLeft(b: Board) {
    forall i :: 0 <= i < |b.pos| && !b.pos[i].solved ==> b.pos[i].left.Some?
  }

  /** Every position has a `left` map: true of a board that was never cloned. */
  ghost predicate AllHaveLeft(b: Board) {
    forall i :: 0 <= i < |b.pos| ==> b.pos[i].left.Some?
  }

  /** Number of occurrences of `c` in `s`. */
  function Count(s: seq<char>, c: char): nat {
    if |s| == 0 then 0 else Count(s[..|s| - 1], c) + (if s[|s| - 1] == c then 1 else 0)
  }

  /** Whether a record is met by `n` occurrences: equality unless only `floor` is set. */
  predicate Meets(lf: LetterFreq, n: nat) {
    if lf.exact || !lf.floor then lf.f == n else lf.f <= n
  }

  /** `Progress.Valid`: every recorded letter occurs as its record demands; letters
      without a record are not checked. */
  predicate Consistent(freq: Option<FreqMap>, letters: seq<char>) {
    freq.None? || forall l :: l in freq.value ==> Meets(freq.value[l], Count(letters, l))
  }


  /* ---------------------------------------------------------------------
     Guess: the tiles a guess would receive against a known solution.
     --------------------------------------------------------------------- */

  /** Every character is a single byte, so Go's byte offsets are rune indexes. */
  predicate Ascii(s: string) {
    forall i :: 0 <= i < |s| ==> s[i] < 128 as char
  }

  /** What `Guess(word, solution)` needs: five single-byte letters each (the
      source writes `solLtrs[i]` into a 5-slot slice at byte offset `i`), a
      frequency map, and a `left` map wherever a letter will be cleared. */
  ghost predicate GuessPre(b: Board, word: string, sol: string) {
    |word| == 5 && |sol| == 5 && Ascii(word) && Ascii(sol) && 5 <= |b.pos| && b.freq.Some?
    && forall i :: 0 <= i < 5 && word[i] != sol[i] ==> b.pos[i].left.Some?
  }

  /** Number of positions `j < n` where guess and solution both hold `c`. */
  function Greens(word: string, sol: string, c: char, n: nat): nat
    requires n <= |word| && n <= |sol|
  {
    if n == 0 then 0
    else Greens(word, sol, c, n - 1) + (if word[n - 1] == sol[n - 1] == c then 1 else 0)
  }

  /** Number of positions `j < n` where the solution holds `c` and `pos[j]` is not solved. */
  function Unsolved(sol: string, pos: seq<PositionProgress>, c: char, n: nat): nat
    requires n <= |sol| && n <= |pos|
  {
    if n == 0 then 0
    else Unsolved(sol, pos, c, n - 1) + (if sol[n - 1] == c && !pos[n - 1].solved then 1 else 0)
  }

  /** The first loop of `Guess` over positions `0..n-1`: a matching letter is
      `Green`, any other is cleared from its position. */
  function GreenPass(b: Board, word: string, sol: string, n: nat): (r: Board)
    requires GuessPre(b, word, sol) && n <= 5
    ensures |r.pos| == |b.pos| && r.freq.Some?
    ensures forall j :: n <= j < |b.pos| ==> r.pos[j] == b.pos[j]
    ensures forall j :: 0 <= j < n && word[j] == sol[j] ==>
      r.pos[j].solved && r.pos[j].letter == word[j] && r.pos[j].left == b.pos[j].left
    ensures forall j :: 0 <= j < n && word[j] != sol[j] ==>
      r.pos[j].solved == b.pos[j].solved && r.pos[j].letter == b.pos[j].letter && r.pos[j].left.Some?
      && forall c :: r.pos[j].Valid(c) <==> b.pos[j].Valid(c) && (b.pos[j].solved || c != word[j])
    ensures forall c :: FreqOf(r.freq.value, c).f == FreqOf(b.freq.value, c).f + Greens(word, sol, c, n)
    ensures forall c :: (FreqOf(r.freq.value, c).exact == FreqOf(b.freq.value, c).exact
      && FreqOf(r.freq.value, c).floor == FreqOf(b.freq.value, c).floor)
    ensures forall c :: c in r.freq.value <==> c in b.freq.value || Greens(word, sol, c, n) > 0
  {
    if n == 0 then b
    else
      var g := GreenPass(b, word, sol, n - 1);
      var i := n - 1;
      if word[i] == sol[i] then GreenBoard(g, i, word[i])
      else
        ClearAtEffect(g.pos, i, word[i]);
        Board(ClearAt(g.pos, i, word[i]), g.freq)
  }

  /** One letter of `GreenPass`: the tile at `i` is still as it was before the pass. */
  lemma GreenPassStep(b: Board, word: string, sol: string, i: nat)
    requires GuessPre(b, word, sol) && i < 5
    ensures var g := GreenPass(b, word, sol, i);
      TilePre(g, i) && g.pos[i] == b.pos[i]
      && GreenPass(b, word, sol, i + 1) ==
        if word[i] == sol[i] then GreenBoard(g, i, word[i]) else Board(ClearAt(g.pos, i, word[i]), g.freq)
  {
  }

  /** Solution positions still listed per letter. */
  type Lists = map<char, seq<nat>>

  function ListOf(ls: Lists, c: char): seq<nat> {
    if c in ls then ls[c] else []
  }

  /** Every listed position is a valid index into a board of `n` positions. */
  predicate ListsIn(ls: Lists, n: nat) {
    forall c, k :: c in ls && 0 <= k < |ls[c]| ==> ls[c][k] < n
  }

  /** `solLtrsPos` after the first `n` letters of the solution: the positions of each letter, ascending. */
  function SolutionPositions(sol: string, n: nat): (ls: Lists)
    requires n <= |sol|
    ensures ListsIn(ls, n)
    ensures forall c, k :: c in ls && 0 <= k < |ls[c]| ==> sol[ls[c][k]] == c
  {
    if n == 0 then map[]
    else
      var m := SolutionPositions(sol, n - 1);
      m[sol[n - 1] := ListOf(m, sol[n - 1]) + [n - 1]]
  }

  /** Number of listed positions that are not solved. */
  function Open(lst: seq<nat>, pos: seq<PositionProgress>): nat
    requires forall k :: 0 <= k < |lst| ==> lst[k] < |pos|
  {
    if lst == [] then 0 else (if pos[lst[0]].solved then 0 else 1) + Open(lst[1..], pos)
  }

  /** The inner loop of `Guess`'s second pass: find the first listed position not
      yet solved; if found, the positions after it remain, otherwise none. */
  function Consume(lst: seq<nat>, pos: seq<PositionProgress>): (r: (bool, seq<nat>))
    requires forall k :: 0 <= k < |lst| ==> lst[k] < |pos|
    ensures r.0 <==> Open(lst, pos) > 0
    ensures forall k :: 0 <= k < |r.1| ==> r.1[k] in lst
    ensures Open(r.1, pos) == Open(lst, pos) - (if r.0 then 1 else 0)
  {
    if lst == [] then (false, [])
    else if !pos[lst[0]].solved then (true, lst[1..])
    else
      var r := Consume(lst[1..], pos);
      assert forall k :: 0 <= k < |r.1| ==> r.1[k] in lst by {
        forall k | 0 <= k < |r.1| ensures r.1[k] in lst {
          assert r.1[k] in lst[1..];
        }
      }
      r
  }

  /** The second loop of `Guess` over the first `n` letters of the guess: a letter
      that still finds an unsolved solution position consumes it and counts as
      orange; otherwise its count becomes exact. */
  function OrangePass(b: Board, word: string, ls: Lists, n: nat): (r: (Board, Lists))
    requires b.freq.Some? && n <= |word| && ListsIn(ls, |b.pos|)
    ensures r.0.pos == b.pos && r.0.freq.Some? && ListsIn(r.1, |b.pos|)
  {
    if n == 0 then (b, ls)
    else
      var (g, ls') := OrangePass(b, word, ls, n - 1);
      OrangeStep(g, word[n - 1], ls')
  }

  /** One letter `c` of the second pass. */
  function OrangeStep(b: Board, c: char, ls: Lists): (r: (Board, Lists))
    requires b.freq.Some? && ListsIn(ls, |b.pos|)
    ensures r.0.pos == b.pos && r.0.freq.Some? && ListsIn(r.1, |b.pos|)
  {
    var (found, rest) := Consume(ListOf(ls, c), b.pos);
    var fm := b.freq.value;
    (Board(b.pos, Some(if found then SetFloor(Bump(fm, c), c) else SetExact(fm, c))), ls[c := rest])
  }

  /** The board after `Guess(word, solution)`. */
  function GuessBoard(b: Board, word: string, sol: string): Board
    requires GuessPre(b, word, sol)
  {
    var g := GreenPass(b, word, sol, 5);
    OrangePass(g, word, SolutionPositions(sol, 5), 5).0
  }

  /* ---------------------------------------------------------------------
     What Guess records per letter.
     --------------------------------------------------------------------- */

  function Min(a: nat, b: nat): nat {
    if a <= b then a else b
  }

  /** After the second pass has seen `t` occurrences of `c`, and `u` positions
      of `c` in the solution were open at its start: each occurrence consumed
      one open position while any were left. */
  ghost predicate OrangeFacts(b: Board, r: (Board, Lists), c: char, t: nat, u: nat)
    requires b.freq.Some? && r.0.freq.Some? && ListsIn(r.1, |b.pos|)
  {
    var f0 := FreqOf(b.freq.value, c);
    var f1 := FreqOf(r.0.freq.value, c);
    Open(ListOf(r.1, c), b.pos) == u - Min(t, u)
    && f1.f == f0.f + Min(t, u)
    && f1.exact == (f0.exact || t > u)
    && f1.floor == (f0.floor || (t > 0 && u > 0))
    && (c in r.0.freq.value <==> c in b.freq.value || t > 0)
  }

  lemma OrangeStepFacts(b: Board, g: (Board, Lists), x: char, c: char, t: nat, u: nat)
    requires b.freq.Some? && g.0.freq.Some? && ListsIn(g.1, |b.pos|) && g.0.pos == b.pos
    requires OrangeFacts(b, g, c, t, u)
    ensures OrangeFacts(b, OrangeStep(g.0, x, g.1), c, t + (if x == c then 1 else 0), u)
  {
    var r := OrangeStep(g.0, x, g.1);
    if x == c {
      var (found, rest) := Consume(ListOf(g.1, c), b.pos);
      assert found <==> t < u;
      assert ListOf(r.1, c) == rest;
    } else {
      assert ListOf(r.1, c) == ListOf(g.1, c);
    }
  }

  lemma {:induction false} OrangePassFacts(b: Board, word: string, ls: Lists, n: nat, c: char)
    requires b.freq.Some? && n <= |word| && ListsIn(ls, |b.pos|)
    ensures OrangeFacts(b, OrangePass(b, word, ls, n), c, Count(word[..n], c), Open(ListOf(ls, c), b.pos))
  {
    if n > 0 {
      OrangePassFacts(b, word, ls, n - 1, c);
      assert word[..n][..n - 1] == word[..n - 1];
      OrangeStepFacts(b, OrangePass(b, word, ls, n - 1), word[n - 1], c,
        Count(word[..n - 1], c), Open(ListOf(ls, c), b.pos));
    }
  }

  lemma {:induction false} OpenAppend(lst: seq<nat>, x: nat, pos: seq<PositionProgress>)
    requires forall k :: 0 <= k < |lst| ==> lst[k] < |pos|
    requires x < |pos|
    ensures Open(lst + [x], pos) == Open(lst, pos) + (if pos[x].solved then 0 else 1)
  {
    if lst != [] {
      assert (lst + [x])[1..] == lst[1..] + [x];
      OpenAppend(lst[1..], x, pos);
    }
  }

  /** At the start of the second pass, the open positions listed for `c` are
      the solution's positions of `c` that the first pass left unsolved. */
  lemma {:induction false} OpenSolutionPositions(sol: string, pos: seq<PositionProgress>, c: char, n: nat)
    requires n <= |sol| && n <= |pos|
    ensures Open(ListOf(SolutionPositions(sol, n), c), pos) == Unsolved(sol, pos, c, n)
  {
    if n > 0 {
      OpenSolutionPositions(sol, pos, c, n - 1);
      var m := SolutionPositions(sol, n - 1);
      if sol[n - 1] == c {
        OpenAppend(ListOf(m, c), n - 1, pos);
      }
    }
  }

  lemma {:induction false} GreensAtMostCount(word: string, sol: string, c: char, n: nat)
    requires n <= |word| && n <= |sol|
    ensures Greens(word, sol, c, n) <= Count(word[..n], c)
  {
    if n > 0 {
      GreensAtMostCount(word, sol, c, n - 1);
      assert word[..n][..n - 1] == word[..n - 1];
    }
  }

  /** The count `Guess` records for a letter `c` of the guess: its green
      positions, plus one per occurrence in the guess (green ones included)
      while solution positions of `c` left unsolved by the green pass remain.
      The count becomes exact when the guess has more occurrences than such
      positions, and a floor when both are non-zero. */
  lemma GuessFreq(b: Board, word: string, sol: string, c: char)
    requires GuessPre(b, word, sol)
    ensures var u := Unsolved(sol, GreenPass(b, word, sol, 5).pos, c, 5);
      var t := Count(word, c);
      var f0 := FreqOf(b.freq.value, c);
      var r := GuessBoard(b, word, sol);
      r.freq.Some?
      && FreqOf(r.freq.value, c).f == f0.f + Greens(word, sol, c, 5) + Min(t, u)
      && FreqOf(r.freq.value, c).exact == (f0.exact || t > u)
      && FreqOf(r.freq.value, c).floor == (f0.floor || (t > 0 && u > 0))
      && (c in r.freq.value <==> c in b.freq.value || t > 0)
  {
    var g := GreenPass(b, word, sol, 5);
    OrangeOnSolution(g, word, sol, c);
    GreensAtMostCount(word, sol, c, 5);
    assert word[..5] == word;
  }

  /** The second pass of `Guess` against the solution's own position lists. */
  lemma OrangeOnSolution(g: Board, word: string, sol: string, c: char)
    requires g.freq.Some? && |word| == 5 && |sol| == 5 && 5 <= |g.pos|
    ensures var ls := SolutionPositions(sol, 5);
      ListsIn(ls, |g.pos|)
      && var r := OrangePass(g, word, ls, 5).0;
      var u := Unsolved(sol, g.pos, c, 5);
      var t := Count(word, c);
      var fg := FreqOf(g.freq.value, c);
      r.freq.Some?
      && FreqOf(r.freq.value, c).f == fg.f + Min(t, u)
      && FreqOf(r.freq.value, c).exact == (fg.exact || t > u)
      && FreqOf(r.freq.value, c).floor == (fg.floor || (t > 0 && u > 0))
      && (c in r.freq.value <==> c in g.freq.value || t > 0)
  {
    OrangePassFacts(g, word, SolutionPositions(sol, 5), 5, c);
    OpenSolutionPositions(sol, g.pos, c, 5);
    assert word[..5] == word;
  }

  lemma {:induction false} CountPositive(s: seq<char>, i: nat)
    requires i < |s|
    ensures Count(s, s[i]) > 0
  {
    if i < |s| - 1 {
      assert s[..|s| - 1][i] == s[i];
      CountPositive(s[..|s| - 1], i);
    }
  }

  lemma {:induction false} GreensSelf(s: string, c: char, n: nat)
    requires n <= |s|
    ensures Greens(s, s, c, n) == Count(s[..n], c)
  {
    if n > 0 {
      GreensSelf(s, c, n - 1);
      assert s[..n][..n - 1] == s[..n - 1];
    }
  }

  lemma {:induction false} UnsolvedNone(sol: string, pos: seq<PositionProgress>, c: char, n: nat)
    requires n <= |sol| && n <= |pos|
    requires forall j :: 0 <= j < n ==> pos[j].solved || sol[j] != c
    ensures Unsolved(sol, pos, c, n) == 0
  {
    if n > 0 {
      UnsolvedNone(sol, pos, c, n - 1);
    }
  }

  lemma {:induction false} GreensNone(word: string, sol: string, c: char, n: nat)
    requires n <= |word| && n <= |sol|
    requires forall j :: 0 <= j < n ==> sol[j] != c
    ensures Greens(word, sol, c, n) == 0
  {
    if n > 0 {
      GreensNone(word, sol, c, n - 1);
    }
  }

  /** The solution's occurrences of `c` are the green ones and the unsolved
      ones, when exactly the green positions are solved. */
  lemma {:induction false} SplitCount(word: string, sol: string, pos: seq<PositionProgress>, c: char, n: nat)
    requires n <= |word| && n <= |sol| && n <= |pos|
    requires forall j :: 0 <= j < n ==> (pos[j].solved <==> word[j] == sol[j])
    ensures Count(sol[..n], c) == Greens(word, sol, c, n) + Unsolved(sol, pos, c, n)
  {
    if n > 0 {
      SplitCount(word, sol, pos, c, n - 1);
      assert sol[..n][..n - 1] == sol[..n - 1];
    }
  }

  lemma {:induction false} CountZero(s: seq<char>, c: char, j: nat)
    requires Count(s, c) == 0 && j < |s|
    ensures s[j] != c
  {
    if s[j] == c {
      CountPositive(s, j);
    }
  }

  /** `Guess(s, s)` solves all five positions with the letters of `s`, and
      every letter of `s` gets an exact count raised by its number of occurrences. */
  lemma GuessSelf(b: Board, s: string, c: char)
    requires GuessPre(b, s, s)
    ensures var r := GuessBoard(b, s, s);
      (forall j :: 0 <= j < 5 ==> r.pos[j].solved && r.pos[j].letter == s[j])
      && FreqOf(r.freq.value, c).f == FreqOf(b.freq.value, c).f + Count(s, c)
      && FreqOf(r.freq.value, c).exact == (FreqOf(b.freq.value, c).exact || Count(s, c) > 0)
      && FreqOf(r.freq.value, c).floor == FreqOf(b.freq.value, c).floor
  {
    GuessFreq(b, s, s, c);
    GreensSelf(s, c, 5);
    assert s[..5] == s;
    UnsolvedNone(s, GreenPass(b, s, s, 5).pos, c, 5);
  }

  /** After any `Guess`, every letter of the guess has a record with `exact` or `floor` set. */
  lemma GuessMarksLetters(b: Board, word: string, sol: string, j: nat)
    requires GuessPre(b, word, sol) && j < 5
    ensures var r := GuessBoard(b, word, sol);
      word[j] in r.freq.value && (r.freq.value[word[j]].exact || r.freq.value[word[j]].floor)
  {
    GuessFreq(b, word, sol, word[j]);
    CountPositive(word, j);
  }

  /** A letter that is not in the solution keeps its count and becomes exact:
      after a `ResetRound`, a letter of the guess absent from the solution is
      recorded as occurring exactly zero times. */
  lemma GuessAbsentLetter(b: Board, word: string, sol: string, c: char)
    requires GuessPre(b, word, sol) && Count(sol, c) == 0
    ensures var r := GuessBoard(b, word, sol);
      FreqOf(r.freq.value, c).f == FreqOf(b.freq.value, c).f
      && FreqOf(r.freq.value, c).exact == (FreqOf(b.freq.value, c).exact || Count(word, c) > 0)
      && FreqOf(r.freq.value, c).floor == FreqOf(b.freq.value, c).floor
    ensures b.freq == Some(map[]) && Count(word, c) > 0 ==>
      GuessBoard(b, word, sol).freq.value[c] == LetterFreq(0, true, false)
  {
    GuessFreq(b, word, sol, c);
    forall j | 0 <= j < 5 ensures sol[j] != c {
      CountZero(sol, c, j);
    }
    GreensNone(word, sol, c, 5);
    UnsolvedNone(sol, GreenPass(b, word, sol, 5).pos, c, 5);
  }

  /** A green occurrence is counted twice when the solution has a second, open
      occurrence of the same letter: guessing "abcde" against "aafgh" records
      at least two a's, although the guess shows only one. */
  lemma GuessCountsGreenAgain(b: Board)
    requires GuessPre(b, "abcde", "aafgh") && b.freq == Some(map[]) && !b.pos[1].solved
    ensures FreqOf(GuessBoard(b, "abcde", "aafgh").freq.value, 'a') == LetterFreq(2, false, true)
  {
    var word, sol := "abcde", "aafgh";
    GuessFreq(b, word, sol, 'a');
    var g := GreenPass(b, word, sol, 5);
    assert g.pos[0].solved && !g.pos[1].solved;
    UnsolvedOneA(g.pos);
    assert Greens(word, sol, 'a', 5) == 1;
    CountOneA();
  }

  lemma UnsolvedOneA(pos: seq<PositionProgress>)
    requires 5 <= |pos| && pos[0].solved && !pos[1].solved
    ensures Unsolved("aafgh", pos, 'a', 5) == 1
  {
    var sol := "aafgh";
    assert Unsolved(sol, pos, 'a', 1) == 0;
    assert Unsolved(sol, pos, 'a', 2) == 1;
    assert Unsolved(sol, pos, 'a', 3) == 1;
    assert Unsolved(sol, pos, 'a', 4) == 1;
  }

  lemma CountOneA()
    ensures Count("abcde", 'a') == 1
  {
    var w := "abcde";
    assert w[..4] == "abcd" && "abcd"[..3] == "abc" && "abc"[..2] == "ab" && "ab"[..1] == "a";
    assert Count("a", 'a') == 1;
    assert Count("ab", 'a') == 1;
    assert Count("abc", 'a') == 1;
    assert Count("abcd", 'a') == 1;
  }

  /** Whether `WordsLeft` counts the five-letter key `k`: each position accepts
      its letter and the frequency record is met. */
  ghost predicate Admits(b: Board, k: string) {
    |k| == 5 && 5 <= |b.pos|
    && b.pos[0].Valid(k[0]) && b.pos[1].Valid(k[1]) && b.pos[2].Valid(k[2])
    && b.pos[3].Valid(k[3]) && b.pos[4].Valid(k[4])
    && Consistent(b.freq, k)
  }

  /** Two keys the board admits agree on every solved position. */
  lemma AdmitsAgree(b: Board, k: string, k': string)
    requires Admits(b, k) && Admits(b, k')
    ensures forall i :: 0 <= i < 5 && b.pos[i].solved ==> k[i] == k'[i]
  {
    forall i | 0 <= i < 5 && b.pos[i].solved ensures k[i] == k'[i] {
      assert b.pos[i].Valid(k[i]) && b.pos[i].Valid(k'[i]);
    }
  }

  /** The board a guess is scored on: a clone of the current one, after `ResetRound`. */
  function Simulation(b: Board): Board {
    ResetBoard(CloneBoard(b))
  }

  /** Simulating a round never rules out its own solution: if the current board
      admits `sol`, and `word` agrees with `sol` on every solved position, then
      `Guess(word, sol)` on a reset clone can be played and still admits `sol`. */
  lemma SimulationAdmitsSolution(b: Board, word: string, sol: string)
    requires Admits(b, sol) && OpenHaveLeft(b)
    requires |word| == 5 && Ascii(word) && Ascii(sol)
    requires forall i :: 0 <= i < 5 && b.pos[i].solved ==> word[i] == sol[i]
    ensures GuessPre(Simulation(b), word, sol)
    ensures Admits(GuessBoard(Simulation(b), word, sol), sol)
  {
    SimulationPre(b, word, sol);
    var s := Simulation(b);
    GuessKeepsSolution(s, word, sol);
    var r := GuessBoard(s, word, sol);
    forall l | l in r.freq.value ensures Meets(r.freq.value[l], Count(sol, l)) {
      GuessMeets(s, word, sol, l);
    }
  }

  /** The reset clone of a board that admits `sol` still accepts each letter of
      `sol` at its position, and `Guess(word, sol)` can be played on it. */
  lemma SimulationPre(b: Board, word: string, sol: string)
    requires Admits(b, sol) && OpenHaveLeft(b)
    requires |word| == 5 && Ascii(word) && Ascii(sol)
    requires forall i :: 0 <= i < 5 && b.pos[i].solved ==> word[i] == sol[i]
    ensures forall i :: 0 <= i < 5 ==> Simulation(b).pos[i].Valid(sol[i])
    ensures GuessPre(Simulation(b), word, sol)
  {
    var s := Simulation(b);
    forall i | 0 <= i < 5 ensures s.pos[i].Valid(sol[i]) {
      SimulationPosition(b, sol, i);
    }
    forall i | 0 <= i < 5 && word[i] != sol[i] ensures s.pos[i].left.Some? {
      assert !b.pos[i].solved;
    }
  }

  /** A letter of an admitted solution is not proven absent, so the reset keeps it. */
  lemma SimulationPosition(b: Board, sol: string, i: nat)
    requires Admits(b, sol) && i < 5
    ensures Simulation(b).pos[i].Valid(sol[i])
  {
    var c := CloneBoard(b);
    assert c.pos[i].Valid(sol[i]);
    CountPositive(sol, i);
    assert sol[i] !in Absent(c.freq) by {
      if b.freq.Some? && sol[i] in b.freq.value {
        assert Meets(b.freq.value[sol[i]], Count(sol, sol[i]));
      }
    }
  }

  /** `Guess(word, sol)` keeps every letter of `sol` acceptable at its position. */
  lemma GuessKeepsSolution(s: Board, word: string, sol: string)
    requires GuessPre(s, word, sol)
    requires forall i :: 0 <= i < 5 ==> s.pos[i].Valid(sol[i])
    ensures forall i :: 0 <= i < 5 ==> GuessBoard(s, word, sol).pos[i].Valid(sol[i])
  {
  }

  /** A record that `Guess(word, sol)` leaves on a board with an empty frequency map is met by `sol`. */
  lemma GuessMeets(s: Board, word: string, sol: string, l: char)
    requires GuessPre(s, word, sol) && s.freq == Some(map[])
    requires forall i :: 0 <= i < 5 ==> s.pos[i].solved ==> word[i] == sol[i]
    ensures var r := GuessBoard(s, word, sol);
      l in r.freq.value ==> Meets(r.freq.value[l], Count(sol, l))
  {
    var g := GreenPass(s, word, sol, 5);
    GuessFreq(s, word, sol, l);
    SplitCount(word, sol, g.pos, l, 5);
    assert sol[..5] == sol;
  }

  /* ---------------------------------------------------------------------
     WordsLeft: the trie words the board still admits.
     --------------------------------------------------------------------- */

  /** The keys of the trie the board admits. */
  ghost function Matches(d: Dict.Dictionary, b: Board): set<string> {
    set k | k in Dict.Leaves(d) && Admits(b, k)
  }

  /** The keys of `S` whose entry is not marked used. */
  ghost function NotUsed(d: Dict.Dictionary, S: set<string>): set<string> {
    set k | k in S && |k| == 5 && Dict.Lookup(d, k).Some? && !Dict.Lookup(d, k).value.used
  }

  /** The admitted keys that start with `q`. */
  ghost function Prefixed(d: Dict.Dictionary, b: Board, q: string): set<string> {
    set k | k in Matches(d, b) && |k| == 5 && |q| <= 5 && k[..|q|] == q
  }

  /** The admitted keys that start with `q` followed by a letter of `done`. */
  ghost function Under(d: Dict.Dictionary, b: Board, q: string, done: set<char>): set<string>
    requires |q| < 5
  {
    set k | k in Prefixed(d, b, q) && |k| == 5 && k[|q|] in done
  }

  /** The list holds, in order, the words filed under the keys of `found` (or
      is empty when no list was asked for). */
  ghost predicate Listed(d: Dict.Dictionary, found: seq<string>, list: bool, wl: seq<string>) {
    if list then
      |wl| == |found|
      && forall i :: 0 <= i < |found| ==>
        |found[i]| == 5 && Dict.Lookup(d, found[i]).Some? && wl[i] == Dict.Lookup(d, found[i]).value.word
    else wl == []
  }

  /** The counters and the list of a walk that has met exactly the keys of `S`,
      each once, in the order `found`. */
  ghost predicate Tally(d: Dict.Dictionary, S: set<string>, found: seq<string>,
                        counter: int, counterNotUsed: int, list: bool, wl: seq<string>) {
    (forall k :: k in found <==> k in S) && |found| == |S|
    && counter == |S| && counterNotUsed == |NotUsed(d, S)|
    && Listed(d, found, list, wl)
  }

  lemma TallyJoin(d: Dict.Dictionary, S1: set<string>, f1: seq<string>, c1: int, u1: int, w1: seq<string>,
                  S2: set<string>, f2: seq<string>, c2: int, u2: int, w2: seq<string>, list: bool)
    requires Tally(d, S1, f1, c1, u1, list, w1) && Tally(d, S2, f2, c2, u2, list, w2) && S1 !! S2
    ensures Tally(d, S1 + S2, f1 + f2, c1 + c2, u1 + u2, list, w1 + w2)
  {
    assert NotUsed(d, S1 + S2) == NotUsed(d, S1) + NotUsed(d, S2);
    assert NotUsed(d, S1) !! NotUsed(d, S2);
    if list {
      forall i | 0 <= i < |f1 + f2|
        ensures |(f1 + f2)[i]| == 5 && Dict.Lookup(d, (f1 + f2)[i]).Some?
          && (w1 + w2)[i] == Dict.Lookup(d, (f1 + f2)[i]).value.word
      {
        if i >= |f1| {
          assert (f1 + f2)[i] == f2[i - |f1|];
        }
      }
    }
  }

  /** Adding the next letter `x` at depth `|q|` adds the admitted keys under `q + [x]`. */
  lemma UnderStep(d: Dict.Dictionary, b: Board, q: string, done: set<char>, x: char)
    requires |q| < 5 && x !in done
    ensures Under(d, b, q, done + {x}) == Under(d, b, q, done) + Prefixed(d, b, q + [x])
    ensures Under(d, b, q, done) !! Prefixed(d, b, q + [x])
  {
    forall k | k in Prefixed(d, b, q + [x]) ensures k in Prefixed(d, b, q) && k[|q|] == x {
      assert k[..|q|] == k[..|q| + 1][..|q|];
    }
    forall k | k in Under(d, b, q, done + {x}) && k[|q|] == x ensures k in Prefixed(d, b, q + [x]) {
      assert k[..|q| + 1] == k[..|q|] + [k[|q|]];
    }
  }

  lemma UnderNothing(d: Dict.Dictionary, b: Board, q: string)
    requires |q| < 5
    ensures Under(d, b, q, {}) == {}
  {
  }

  /** A letter the position `|q|` rejects admits no key below it. */
  lemma RejectedLetter(d: Dict.Dictionary, b: Board, q: string, x: char)
    requires |q| < 5 && 5 <= |b.pos| && !b.pos[|q|].Valid(x)
    ensures Prefixed(d, b, q + [x]) == {}
  {
    PrefixedAccepted(d, b, q, x);
  }

  lemma PrefixedAccepted(d: Dict.Dictionary, b: Board, q: string, x: char)
    requires |q| < 5
    ensures forall k :: k in Prefixed(d, b, q + [x]) ==> 5 <= |b.pos| && b.pos[|q|].Valid(x)
  {
    forall k | k in Prefixed(d, b, q + [x]) ensures 5 <= |b.pos| && b.pos[|q|].Valid(x) {
      assert k[|q|] == k[..|q| + 1][|q|];
    }
  }

  /** A key the board admits and the trie holds as not used is counted as not used. */
  lemma UnusedCounted(d: Dict.Dictionary, b: Board, w: string)
    requires Admits(b, w) && Dict.Lookup(d, w).Some? && !Dict.Lookup(d, w).value.used
    ensures w in NotUsed(d, Matches(d, b)) && |NotUsed(d, Matches(d, b))| >= 1
  {
    Dict.LeavesAreLookups(d, w);
    assert w in Matches(d, b);
    SubsetCard({w}, NotUsed(d, Matches(d, b)));
  }

  /** A set of one element that holds `x` is `{x}`. */
  lemma Singleton<T>(S: set<T>, x: T)
    requires x in S && |S| == 1
    ensures S == {x}
  {
    assert |S - {x}| == 0;
    assert S == (S - {x}) + {x};
  }

  lemma SubsetCard<T>(A: set<T>, B: set<T>)
    requires A <= B
    ensures |A| <= |B|
  {
    assert B == A + (B - A);
  }

  /** At the last level a letter gives its one key, when the board admits it. */
  lemma LastLetter(d: Dict.Dictionary, b: Board, q: string, x: char)
    requires |q| == 4 && q[0] in d && q[1] in d[q[0]] && q[2] in d[q[0]][q[1]]
      && q[3] in d[q[0]][q[1]][q[2]] && x in d[q[0]][q[1]][q[2]][q[3]]
    ensures Dict.Lookup(d, q + [x]) == Some(d[q[0]][q[1]][q[2]][q[3]][x])
    ensures Prefixed(d, b, q + [x]) == if Admits(b, q + [x]) then {q + [x]} else {}
  {
    var k := q + [x];
    Dict.LeavesAreLookups(d, k);
    assert k[..5] == k;
    forall k' | k' in Prefixed(d, b, k) ensures k' == k {
      assert k' == k'[..5];
    }
  }

  /** Below a level of the trie reached by `q`, every admitted key starting with
      `q` continues with a letter of that level. */
  lemma UnderAll(d: Dict.Dictionary, b: Board, q: string, keys: set<char>)
    requires |q| < 5
    requires forall k :: |k| == 5 && Dict.Lookup(d, k).Some? && k[..|q|] == q ==> k[|q|] in keys
    ensures Under(d, b, q, keys) == Prefixed(d, b, q)
  {
    forall k | k in Prefixed(d, b, q) ensures k[|q|] in keys {
      Dict.LeavesAreLookups(d, k);
    }
  }

  /** The first level reaches every admitted key. */
  lemma UnderTop(d: Dict.Dictionary, b: Board)
    ensures Under(d, b, [], d.Keys) == Matches(d, b)
  {
    forall k | |k| == 5 && Dict.Lookup(d, k).Some? && k[..0] == [] ensures k[0] in d.Keys {
    }
    UnderAll(d, b, [], d.Keys);
    forall k | k in Matches(d, b) ensures |k| == 5 {
      Dict.LeavesAreLookups(d, k);
    }
  }

  /** Every stored key below the prefix `q` continues with a key of the level `w1`. */
  lemma NextLetters2(d: Dict.Dictionary, q: string, w1: Dict.Level2)
    requires |q| == 1 && q[0] in d && d[q[0]] == w1
    ensures forall k :: |k| == 5 && Dict.Lookup(d, k).Some? && k[..1] == q ==> k[1] in w1.Keys
  {
    forall k | |k| == 5 && Dict.Lookup(d, k).Some? && k[..1] == q ensures k[1] in w1.Keys {
      assert k[0] == q[0];
    }
  }

  /** Every stored key below the prefix `q` continues with a key of the level `w2`. */
  lemma NextLetters3(d: Dict.Dictionary, q: string, w2: Dict.Level3)
    requires |q| == 2 && q[0] in d && q[1] in d[q[0]] && d[q[0]][q[1]] == w2
    ensures forall k :: |k| == 5 && Dict.Lookup(d, k).Some? && k[..2] == q ==> k[2] in w2.Keys
  {
    forall k | |k| == 5 && Dict.Lookup(d, k).Some? && k[..2] == q ensures k[2] in w2.Keys {
      assert k[0] == q[0] && k[1] == q[1];
    }
  }

  /** Every stored key below the prefix `q` continues with a key of the level `w3`. */
  lemma NextLetters4(d: Dict.Dictionary, q: string, w3: Dict.Level4)
    requires |q| == 3 && q[0] in d && q[1] in d[q[0]] && q[2] in d[q[0]][q[1]] && d[q[0]][q[1]][q[2]] == w3
    ensures forall k :: |k| == 5 && Dict.Lookup(d, k).Some? && k[..3] == q ==> k[3] in w3.Keys
  {
    forall k | |k| == 5 && Dict.Lookup(d, k).Some? && k[..3] == q ensures k[3] in w3.Keys {
      assert k[0] == q[0] && k[1] == q[1] && k[2] == q[2];
    }
  }

  /** Every stored key below the prefix `q` continues with a key of the level `w4`. */
  lemma NextLetters5(d: Dict.Dictionary, q: string, w4: Dict.Level5)
    requires |q| == 4 && q[0] in d && q[1] in d[q[0]] && q[2] in d[q[0]][q[1]] && q[3] in d[q[0]][q[1]][q[2]] && d[q[0]][q[1]][q[2]][q[3]] == w4
    ensures forall k :: |k| == 5 && Dict.Lookup(d, k).Some? && k[..4] == q ==> k[4] in w4.Keys
  {
    forall k | |k| == 5 && Dict.Lookup(d, k).Some? && k[..4] == q ensures k[4] in w4.Keys {
      assert k[0] == q[0] && k[1] == q[1] && k[2] == q[2] && k[3] == q[3];
    }
  }

  /** Moving one key from the keys still to visit to the keys visited. */
  lemma KeysStep<K>(keys: set<K>, done: set<K>, x: K)
    requires x in keys && keys !! done
    ensures (keys - {x}) !! (done + {x}) && (keys - {x}) + (done + {x}) == keys + done
  {
  }

  /** Counting one admitted leaf `k` filed as `w`, as the innermost loop does. */
  lemma TallyLeaf(d: Dict.Dictionary, S: set<string>, found: seq<string>, counter: int, counterNotUsed: int,
                  list: bool, wl: seq<string>, k: string, w: Dict.DictionaryWord)
    requires Tally(d, S, found, counter, counterNotUsed, list, wl) && k !in S
    requires |k| == 5 && Dict.Lookup(d, k) == Some(w)
    ensures Tally(d, S + {k}, found + [k], counter + 1, counterNotUsed + (if w.used then 0 else 1),
                  list, if list then wl + [w.word] else wl)
  {
    assert NotUsed(d, {k}) == if w.used then {} else {k};
    TallyJoin(d, S, found, counter, counterNotUsed, wl, {k}, [k], 1, if w.used then 0 else 1,
      if list then [w.word] else [], list);
  }

  /** One letter `x` of a level whose sub-walk met the admitted keys below `q + [x]`. */
  lemma TallyStep(d: Dict.Dictionary, b: Board, q: string, done: set<char>, x: char,
                  found: seq<string>, counter: int, counterNotUsed: int, wl: seq<string>,
                  f: seq<string>, c: int, u: int, w: seq<string>, list: bool)
    requires |q| < 5 && x !in done
    requires Tally(d, Under(d, b, q, done), found, counter, counterNotUsed, list, wl)
    requires Tally(d, Prefixed(d, b, q + [x]), f, c, u, list, w)
    ensures Tally(d, Under(d, b, q, done + {x}), found + f, counter + c, counterNotUsed + u, list, wl + w)
  {
    UnderStep(d, b, q, done, x);
    TallyJoin(d, Under(d, b, q, done), found, counter, counterNotUsed, wl,
      Prefixed(d, b, q + [x]), f, c, u, w, list);
  }

  /** One letter `x` of a level that position `|q|` rejects: nothing is counted. */
  lemma TallySkip(d: Dict.Dictionary, b: Board, q: string, done: set<char>, x: char,
                  found: seq<string>, counter: int, counterNotUsed: int, wl: seq<string>, list: bool)
    requires |q| < 5 && x !in done && 5 <= |b.pos| && !b.pos[|q|].Valid(x)
    requires Tally(d, Under(d, b, q, done), found, counter, counterNotUsed, list, wl)
    ensures Tally(d, Under(d, b, q, done + {x}), found, counter, counterNotUsed, list, wl)
  {
    UnderStep(d, b, q, done, x);
    RejectedLetter(d, b, q, x);
    assert Under(d, b, q, done + {x}) == Under(d, b, q, done);
  }

  /** One letter `x` of the innermost level, filed as `w`: counted exactly when the board admits the key. */
  lemma TallyLast(d: Dict.Dictionary, b: Board, q: string, done: set<char>, x: char,
                  found: seq<string>, counter: int, counterNotUsed: int, wl: seq<string>, list: bool,
                  w: Dict.DictionaryWord)
    requires |q| == 4 && x !in done
    requires q[0] in d && q[1] in d[q[0]] && q[2] in d[q[0]][q[1]] && q[3] in d[q[0]][q[1]][q[2]]
      && x in d[q[0]][q[1]][q[2]][q[3]] && d[q[0]][q[1]][q[2]][q[3]][x] == w
    requires Tally(d, Under(d, b, q, done), found, counter, counterNotUsed, list, wl)
    requires 5 <= |b.pos| && b.pos[0].Valid(q[0]) && b.pos[1].Valid(q[1]) && b.pos[2].Valid(q[2]) && b.pos[3].Valid(q[3])
    ensures b.pos[4].Valid(x) && Consistent(b.freq, q + [x]) ==>
      Tally(d, Under(d, b, q, done + {x}), found + [q + [x]], counter + 1,
            counterNotUsed + (if w.used then 0 else 1), list, if list then wl + [w.word] else wl)
    ensures !(b.pos[4].Valid(x) && Consistent(b.freq, q + [x])) ==>
      Tally(d, Under(d, b, q, done + {x}), found, counter, counterNotUsed, list, wl)
  {
    AdmitsLast(b, q, x);
    UnderStep(d, b, q, done, x);
    LastLetter(d, b, q, x);
    if Admits(b, q + [x]) {
      TallyLeaf(d, Under(d, b, q, done), found, counter, counterNotUsed, list, wl, q + [x], w);
    } else {
      assert Under(d, b, q, done + {x}) == Under(d, b, q, done);
    }
  }

  /** With the first four letters accepted, a key is admitted when the last
      position accepts its letter and the frequency record is met. */
  lemma AdmitsLast(b: Board, q: string, x: char)
    requires 5 <= |b.pos| && |q| == 4
    requires b.pos[0].Valid(q[0]) && b.pos[1].Valid(q[1]) && b.pos[2].Valid(q[2]) && b.pos[3].Valid(q[3])
    ensures Admits(b, q + [x]) <==> b.pos[4].Valid(x) && Consistent(b.freq, q + [x])
  {
    var k := q + [x];
    assert k[0] == q[0] && k[1] == q[1] && k[2] == q[2] && k[3] == q[3] && k[4] == x;
  }

  /** A fresh five-position board, once reset, admits exactly the trie keys spelled
      with the given letters: with an empty record and every letter allowed,
      `WordsLeft` counts every word of the trie. */
  lemma FreshBoardMatches(d: Dict.Dictionary, letters: seq<char>)
    ensures Matches(d, ResetBoard(InitialBoard(5, letters)))
      == set k | k in Dict.Leaves(d) && |k| == 5 && forall i :: 0 <= i < 5 ==> k[i] in letters
  {
    var b := ResetBoard(InitialBoard(5, letters));
    forall k | k in Dict.Leaves(d) ensures |k| == 5 {
      Dict.LeavesAreLookups(d, k);
    }
    forall k | |k| == 5 ensures Admits(b, k) <==> forall i :: 0 <= i < 5 ==> k[i] in letters {
      assert b.freq == Some(map[]);
    }
  }

  /** After `Guess(s, s)` on a reset board, the only key left is `s` itself (if the trie has it). */
  lemma GuessSelfMatches(d: Dict.Dictionary, b: Board, s: string)
    requires GuessPre(b, s, s) && b.freq == Some(map[])
    ensures Matches(d, GuessBoard(b, s, s)) == Dict.Leaves(d) * {s}
  {
    var r := GuessBoard(b, s, s);
    GuessSelf(b, s, s[0]);
    forall k | k in Matches(d, r) ensures k == s {
      assert k[0] == s[0] && k[1] == s[1] && k[2] == s[2] && k[3] == s[3] && k[4] == s[4];
    }
    forall c | c in r.freq.value ensures Meets(r.freq.value[c], Count(s, c)) {
      GuessSelf(b, s, c);
    }
    assert Admits(r, s);
  }

  class Progress {
    var pos: seq<PositionProgress>
    var freq: Option<FreqMap>

    function State(): Board
      reads this
    {
      Board(pos, freq)
    }

    /** `NewProgress(size, letters)`: every position open to every given letter; `freq` nil. */
    constructor NewProgress(size: nat, letters: seq<char>)
      ensures State() == InitialBoard(size, letters)
    {
      var ps: seq<PositionProgress> := [];
      for i := 0 to size
        invariant ps == InitialBoard(i, letters).pos
      {
        var left: map<char, bool> := map[];
        for j := 0 to |letters|
          invariant left == map l | l in letters[..j] :: true
        {
          left := left[letters[j] := true];
          assert letters[..j + 1] == letters[..j] + [letters[j]];
        }
        assert letters[..|letters|] == letters;
        ps := ps + [PositionProgress(false, '\0', Some(left))];
      }
      pos := ps;
      freq := None;
    }

    /** `Clone`: a fresh object; open positions get their own copy of `left`. */
    method Clone() returns (p1: Progress)
      ensures fresh(p1) && p1.State() == CloneBoard(State())
    {
      var ps: seq<PositionProgress> := [];
      for i := 0 to |pos|
        invariant |ps| == i
        invariant forall j :: 0 <= j < i ==> ps[j] == CloneBoard(State()).pos[j]
      {
        var pp := pos[i];
        if !pos[i].solved {
          pp := pp.(left := pos[i].left);
        } else {
          pp := pp.(left := None);
        }
        ps := ps + [pp];
      }
      p1 := new Progress.FromParts(ps, freq);
    }

    /** Builds an object from a board value (the struct literal in `Clone`). */
    constructor FromParts(ps: seq<PositionProgress>, fm: Option<FreqMap>)
      ensures pos == ps && freq == fm
    {
      pos := ps;
      freq := fm;
    }

    /** `ResetRound`: letters with an exact count of zero are removed from every
        `left` map, then `freq` becomes a new empty map. */
    method ResetRound()
      modifies this
      ensures State() == ResetBoard(old(State()))
    {
      ghost var gone: set<char> := {};
      forall i | 0 <= i < |pos| {
        ForgetNothing(pos[i]);
      }
      if freq.Some? {
        var fm := freq.value;
        var todo := fm.Keys;
        while todo != {}
          invariant todo <= fm.Keys && freq == old(freq)
          invariant gone == set l | l in fm.Keys - todo && fm[l].exact && fm[l].f == 0
          invariant |pos| == |old(pos)|
          invariant forall i :: 0 <= i < |pos| ==> pos[i] == Forget(old(pos)[i], gone)
          decreases todo
        {
          var l :| l in todo;
          if fm[l].exact && fm[l].f == 0 {
            for i := 0 to |pos|
              invariant |pos| == |old(pos)| && freq == old(freq)
              invariant forall j :: 0 <= j < i ==> pos[j] == Forget(old(pos)[j], gone + {l})
              invariant forall j :: i <= j < |pos| ==> pos[j] == Forget(old(pos)[j], gone)
            {
              if pos[i].left.Some? {
                pos := pos[i := pos[i].(left := Some(pos[i].left.value[l := false]))];
                ForgetOneMore(old(pos)[i], gone, l);
              }
            }
            gone := gone + {l};
          }
          todo := todo - {l};
        }
        assert gone == Absent(old(freq));
      }
      freq := Some(map[]);
    }

    /** `IncFreq(letter)`. */
    method IncFreq(letter: char)
      requires freq.Some?
      modifies this
      ensures pos == old(pos) && freq == Some(Bump(old(freq).value, letter))
    {
      var fm := freq.value;
      var lf := NoFreq;
      if letter in fm {
        lf := fm[letter];
      }
      freq := Some(fm[letter := lf.(f := lf.f + 1)]);
    }

    /** `Grey(i, letter)`. */
    method Grey(i: int, letter: char)
      requires TilePre(State(), i) && pos[i].left.Some?
      modifies this
      ensures State() == GreyBoard(old(State()), i, letter)
    {
      var fm := freq.value;
      var lf := NoFreq;
      if letter in fm {
        lf := fm[letter];
      }
      freq := Some(fm[letter := lf.(exact := true)]);
      pos := pos[i := pos[i].(left := Some(pos[i].left.value[letter := false]))];
    }

    /** `Orange(i, letter)`. */
    method Orange(i: int, letter: char)
      requires TilePre(State(), i) && pos[i].left.Some?
      modifies this
      ensures State() == OrangeBoard(old(State()), i, letter)
    {
      IncFreq(letter);
      freq := Some(freq.value[letter := freq.value[letter].(floor := true)]);
      pos := pos[i := pos[i].(left := Some(pos[i].left.value[letter := false]))];
    }

    /** `GreenOrange(i, letter)`. */
    method GreenOrange(i: int, letter: char)
      requires TilePre(State(), i)
      modifies this
      ensures State() == GreenOrangeBoard(old(State()), i, letter)
    {
      IncFreq(letter);
      freq := Some(freq.value[letter := freq.value[letter].(floor := true)]);
      Green(i, letter);
    }

    /** `Green(i, letter)`. */
    method Green(i: int, letter: char)
      requires TilePre(State(), i)
      modifies this
      ensures State() == GreenBoard(old(State()), i, letter)
    {
      IncFreq(letter);
      pos := pos[i := pos[i].(solved := true, letter := letter)];
    }


    /** `Guess(word, solution)`: marks the tiles `word` would get against `solution`. */
    method Guess(word: string, solution: string)
      requires GuessPre(State(), word, solution)
      modifies this
      ensures State() == GuessBoard(old(State()), word, solution)
    {
      var solLtrs, solLtrsPos := SolutionLetters(solution);
      GreenLoop(word, solution, solLtrs);
      OrangeLoop(word, solution, solLtrsPos);
    }

    /** `Guess`'s first loop: a letter matching the solution is `Green`, any other is cleared. */
    method GreenLoop(word: string, solution: string, solLtrs: seq<char>)
      requires GuessPre(State(), word, solution) && solLtrs == solution
      modifies this
      ensures State() == GreenPass(old(State()), word, solution, 5)
    {
      for i := 0 to |word|
        invariant State() == GreenPass(old(State()), word, solution, i)
      {
        GreenPassStep(old(State()), word, solution, i);
        var r := word[i];
        if r == solLtrs[i] {
          Green(i, r);
        } else {
          pos := ClearAt(pos, i, r);
        }
      }
    }

    /** `Guess`'s second loop, over the letters of the guess in order. */
    method OrangeLoop(word: string, solution: string, solLtrsPos: Lists)
      requires |word| == 5 && |solution| == 5 && 5 <= |pos| && freq.Some?
      requires solLtrsPos == SolutionPositions(solution, 5)
      modifies this
      ensures State() == OrangePass(old(State()), word, SolutionPositions(solution, 5), 5).0
    {
      var ls := solLtrsPos;
      for n := 0 to |word|
        invariant (State(), ls) == OrangePass(old(State()), word, SolutionPositions(solution, 5), n)
      {
        ls := OrangeLetter(word[n], ls);
      }
    }

    /** The body of `Guess`'s second loop for the letter `r`. */
    method OrangeLetter(r: char, solLtrsPos: Lists) returns (rest: Lists)
      requires freq.Some? && ListsIn(solLtrsPos, |pos|)
      modifies this
      ensures (State(), rest) == OrangeStep(old(State()), r, solLtrsPos)
    {
      var lst := ListOf(solLtrsPos, r);
      var oranzova, j := FirstOpen(lst);
      if j + 1 < |lst| {
        rest := solLtrsPos[r := lst[j + 1..]];
      } else {
        rest := solLtrsPos[r := []];
      }
      if oranzova {
        IncFreq(r);
        freq := Some(freq.value[r := freq.value[r].(floor := true)]);
      } else {
        var fm := freq.value;
        var lf := NoFreq;
        if r in fm {
          lf := fm[r];
        }
        freq := Some(fm[r := lf.(exact := true)]);
      }
    }

    /** The scan `for j, i = range lst`: stops at the first position not solved;
        otherwise `j` is left at the last index (0 for an empty list). */
    method FirstOpen(lst: seq<nat>) returns (oranzova: bool, j: nat)
      requires forall k :: 0 <= k < |lst| ==> lst[k] < |pos|
      ensures oranzova ==> j < |lst|
      ensures Consume(lst, pos) == (oranzova, if oranzova then lst[j + 1..] else [])
      ensures !oranzova ==> j + 1 >= |lst|
    {
      j := 0;
      oranzova := false;
      var k := 0;
      while k < |lst|
        invariant k <= |lst| && (k == 0 ==> j == 0) && (0 < k ==> j == k - 1)
        invariant Consume(lst, pos) == Consume(lst[k..], pos)
      {
        j := k;
        if !pos[lst[k]].solved {
          oranzova := true;
          return;
        }
        assert lst[k..][1..] == lst[k + 1..];
        k := k + 1;
      }
    }


    /** `WordsLeft(words, list)`: counts the trie words the board admits, and those
        not yet used as a solution, listing the words when `list` is set.  The
        list follows the trie's (unspecified) map order, recorded as `found`. */
    method WordsLeft(words: Dict.Dictionary, list: bool)
      returns (counter: int, counterNotUsed: int, wordsLeft: seq<string>, ghost found: seq<string>)
      requires 5 <= |pos|
      ensures Tally(words, Matches(words, State()), found, counter, counterNotUsed, list, wordsLeft)
      ensures 0 <= counterNotUsed <= counter
    {
      counter, counterNotUsed, wordsLeft, found := 0, 0, [], [];
      var keys := words.Keys;
      ghost var done: set<char> := {};
      UnderNothing(words, State(), []);
      while keys != {}
        invariant keys !! done && keys + done == words.Keys
        invariant Tally(words, Under(words, State(), [], done), found, counter, counterNotUsed, list, wordsLeft)
        decreases keys
      {
        var l1 :| l1 in keys;
        if pos[0].Valid(l1) {
          var c, u, wl, f := WordsAt2(words, [] + [l1], words[l1], list);
          TallyStep(words, State(), [], done, l1, found, counter, counterNotUsed, wordsLeft, f, c, u, wl, list);
          counter, counterNotUsed, wordsLeft, found := counter + c, counterNotUsed + u, wordsLeft + wl, found + f;
        } else {
          TallySkip(words, State(), [], done, l1, found, counter, counterNotUsed, wordsLeft, list);
        }
        KeysStep(keys, done, l1);
        keys := keys - {l1};
        done := done + {l1};
      }
      UnderTop(words, State());
      SubsetCard(NotUsed(words, Matches(words, State())), Matches(words, State()));
    }

    /** The loop over `l2` below `q == [l1]`. */
    method WordsAt2(words: Dict.Dictionary, q: string, w1: Dict.Level2, list: bool)
      returns (counter: int, counterNotUsed: int, wordsLeft: seq<string>, ghost found: seq<string>)
      requires 5 <= |pos| && |q| == 1 && q[0] in words && words[q[0]] == w1
      requires pos[0].Valid(q[0])
      ensures Tally(words, Prefixed(words, State(), q), found, counter, counterNotUsed, list, wordsLeft)
    {
      counter, counterNotUsed, wordsLeft, found := 0, 0, [], [];
      var keys := w1.Keys;
      ghost var done: set<char> := {};
      UnderNothing(words, State(), q);
      while keys != {}
        invariant keys !! done && keys + done == w1.Keys
        invariant Tally(words, Under(words, State(), q, done), found, counter, counterNotUsed, list, wordsLeft)
        decreases keys
      {
        var l2 :| l2 in keys;
        if pos[1].Valid(l2) {
          var c, u, wl, f := WordsAt3(words, q + [l2], w1[l2], list);
          TallyStep(words, State(), q, done, l2, found, counter, counterNotUsed, wordsLeft, f, c, u, wl, list);
          counter, counterNotUsed, wordsLeft, found := counter + c, counterNotUsed + u, wordsLeft + wl, found + f;
        } else {
          TallySkip(words, State(), q, done, l2, found, counter, counterNotUsed, wordsLeft, list);
        }
        KeysStep(keys, done, l2);
        keys := keys - {l2};
        done := done + {l2};
      }
      NextLetters2(words, q, w1);
      UnderAll(words, State(), q, w1.Keys);
    }

    /** The loop over `l3` below `q == [l1, l2]`. */
    method WordsAt3(words: Dict.Dictionary, q: string, w2: Dict.Level3, list: bool)
      returns (counter: int, counterNotUsed: int, wordsLeft: seq<string>, ghost found: seq<string>)
      requires 5 <= |pos| && |q| == 2 && q[0] in words && q[1] in words[q[0]] && words[q[0]][q[1]] == w2
      requires pos[0].Valid(q[0]) && pos[1].Valid(q[1])
      ensures Tally(words, Prefixed(words, State(), q), found, counter, counterNotUsed, list, wordsLeft)
    {
      counter, counterNotUsed, wordsLeft, found := 0, 0, [], [];
      var keys := w2.Keys;
      ghost var done: set<char> := {};
      UnderNothing(words, State(), q);
      while keys != {}
        invariant keys !! done && keys + done == w2.Keys
        invariant Tally(words, Under(words, State(), q, done), found, counter, counterNotUsed, list, wordsLeft)
        decreases keys
      {
        var l3 :| l3 in keys;
        if pos[2].Valid(l3) {
          var c, u, wl, f := WordsAt4(words, q + [l3], w2[l3], list);
          TallyStep(words, State(), q, done, l3, found, counter, counterNotUsed, wordsLeft, f, c, u, wl, list);
          counter, counterNotUsed, wordsLeft, found := counter + c, counterNotUsed + u, wordsLeft + wl, found + f;
        } else {
          TallySkip(words, State(), q, done, l3, found, counter, counterNotUsed, wordsLeft, list);
        }
        KeysStep(keys, done, l3);
        keys := keys - {l3};
        done := done + {l3};
      }
      NextLetters3(words, q, w2);
      UnderAll(words, State(), q, w2.Keys);
    }

    /** The loop over `l4` below `q == [l1, l2, l3]`. */
    method WordsAt4(words: Dict.Dictionary, q: string, w3: Dict.Level4, list: bool)
      returns (counter: int, counterNotUsed: int, wordsLeft: seq<string>, ghost found: seq<string>)
      requires 5 <= |pos| && |q| == 3 && q[0] in words && q[1] in words[q[0]] && q[2] in words[q[0]][q[1]]
        && words[q[0]][q[1]][q[2]] == w3
      requires pos[0].Valid(q[0]) && pos[1].Valid(q[1]) && pos[2].Valid(q[2])
      ensures Tally(words, Prefixed(words, State(), q), found, counter, counterNotUsed, list, wordsLeft)
    {
      counter, counterNotUsed, wordsLeft, found := 0, 0, [], [];
      var keys := w3.Keys;
      ghost var done: set<char> := {};
      UnderNothing(words, State(), q);
      while keys != {}
        invariant keys !! done && keys + done == w3.Keys
        invariant Tally(words, Under(words, State(), q, done), found, counter, counterNotUsed, list, wordsLeft)
        decreases keys
      {
        var l4 :| l4 in keys;
        if pos[3].Valid(l4) {
          var c, u, wl, f := WordsAt5(words, q + [l4], w3[l4], list);
          TallyStep(words, State(), q, done, l4, found, counter, counterNotUsed, wordsLeft, f, c, u, wl, list);
          counter, counterNotUsed, wordsLeft, found := counter + c, counterNotUsed + u, wordsLeft + wl, found + f;
        } else {
          TallySkip(words, State(), q, done, l4, found, counter, counterNotUsed, wordsLeft, list);
        }
        KeysStep(keys, done, l4);
        keys := keys - {l4};
        done := done + {l4};
      }
      NextLetters4(words, q, w3);
      UnderAll(words, State(), q, w3.Keys);
    }

    /** The innermost loop over `l5` below `q == [l1, l2, l3, l4]`. */
    method WordsAt5(words: Dict.Dictionary, q: string, w4: Dict.Level5, list: bool)
      returns (counter: int, counterNotUsed: int, wordsLeft: seq<string>, ghost found: seq<string>)
      requires 5 <= |pos| && |q| == 4 && q[0] in words && q[1] in words[q[0]] && q[2] in words[q[0]][q[1]]
        && q[3] in words[q[0]][q[1]][q[2]] && words[q[0]][q[1]][q[2]][q[3]] == w4
      requires pos[0].Valid(q[0]) && pos[1].Valid(q[1]) && pos[2].Valid(q[2]) && pos[3].Valid(q[3])
      ensures Tally(words, Prefixed(words, State(), q), found, counter, counterNotUsed, list, wordsLeft)
    {
      counter, counterNotUsed, wordsLeft, found := 0, 0, [], [];
      var keys := w4.Keys;
      ghost var done: set<char> := {};
      UnderNothing(words, State(), q);
      while keys != {}
        invariant keys !! done && keys + done == w4.Keys
        invariant Tally(words, Under(words, State(), q, done), found, counter, counterNotUsed, list, wordsLeft)
        decreases keys
      {
        var l5 :| l5 in keys;
        var w5 := w4[l5];
        TallyLast(words, State(), q, done, l5, found, counter, counterNotUsed, wordsLeft, list, w5);
        if pos[4].Valid(l5) {
          if Valid(q + [l5]) {
            counter := counter + 1;
            if !w5.used {
              counterNotUsed := counterNotUsed + 1;
            }
            if list {
              wordsLeft := wordsLeft + [w5.word];
            }
            found := found + [q + [l5]];
          }
        }
        KeysStep(keys, done, l5);
        keys := keys - {l5};
        done := done + {l5};
      }
      NextLetters5(words, q, w4);
      UnderAll(words, State(), q, w4.Keys);
    }

    /** `Progress.Valid(letters...)`. */
    predicate Valid(letters: seq<char>)
      reads this
    {
      Consistent(freq, letters)
    }
  }

  /** The first loop of `Guess`: `solLtrs` and `solLtrsPos` from the solution. */
  method SolutionLetters(solution: string) returns (solLtrs: seq<char>, solLtrsPos: Lists)
    requires |solution| == 5
    ensures solLtrs == solution && solLtrsPos == SolutionPositions(solution, 5)
  {
    solLtrs := seq(5, _ => '\0');
    solLtrsPos := map[];
    for i := 0 to |solution|
      invariant |solLtrs| == 5
      invariant forall k :: 0 <= k < i ==> solLtrs[k] == solution[k]
      invariant solLtrsPos == SolutionPositions(solution, i)
    {
      var r := solution[i];
      solLtrs := solLtrs[i := r];
      solLtrsPos := solLtrsPos[r := ListOf(solLtrsPos, r) + [i]];
    }
  }

  lemma ForgetOneMore(pp: PositionProgress, gone: set<char>, l: char)
    requires pp.left.Some?
    ensures Forget(pp, gone + {l}) == Forget(pp, gone).(left := Some(Forget(pp, gone).left.value[l := false]))
  {
    var m := pp.left.value;
    var a := m + map x | x in gone + {l} :: false;
    var b := (m + map x | x in gone :: false)[l := false];
    assert a.Keys == b.Keys;
    assert forall x :: x in a ==> a[x] == b[x];
    assert a == b;
  }
}
