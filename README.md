# Wordle solver constraint engine, in Dafny

This project models the core of the Go program `wordle-solver`, an assistant
for a Czech five-letter Wordle, and proves properties of the model.

- **Diacritics** (`dict/diacritics.go`): the letter-folding table `Conv` and
  `StripDiacritic`.
- **Dict** (`dict/dict.go`): the five-level trie `Dictionary` that
  `LoadDictionary` builds from the lines of a word list. The first line filed
  under a key wins, and `Used` is set for the words in the history.
- **Progress** (`progress/progress.go`): the board state `Progress`.
  - It is modelled as a class whose fields `pos` and `freq` the methods update
    in place: `NewProgress`, `Clone`, `ResetRound`, `IncFreq`, `Grey`,
    `Orange`, `GreenOrange`, `Green`, `Guess` and `WordsLeft`.
  - Each method is proved against a function on the board value
    (`State() == GuessBoard(old(State()), word, solution)` and so on).
  - The properties are lemmas about those functions: what `Guess` records per
    letter, that a simulated round never rules out its own solution, and that
    `WordsLeft` counts exactly the trie words the board admits.
- **Odds** (`odds/odds.go`): `CalculateSkill`, which ranks a list sorted by
  weight and turns each rank into a percentage.
- **Solver** (`main.go`):
  - `CalculateOdds` simulates a guess against every remaining solution, on a
    reset clone of the board.
  - `AppendTip` turns a stored histogram into a luck figure.
  - The round loop of `main` reads a guess and its marks from the input,
    applies the marks and counts the words left.
- **FirstPass** (`first/main.go`): the offline pass that builds the luck
  histograms and skill percentages the solver loads. It has its own
  `CalculateOdds` and `AppendTip`, and ranks guesses inline.
- **Presmycky** (`presmycky/main.go`): the anagram search. For every history
  word it lists the dictionary words that are a rearrangement of its letters
  moving every letter. The model proves that the regular-expression filter
  plus the letter-count comparison finds exactly those words.

Go maps become Dafny `map`s. A nil map, or a nil `*LuckStat` or `*Skill`, becomes `None` of
`Wrappers.Option`. A `map[int]int` histogram is `Histogram.Hist`, and its
total `SumValues` does not depend on the order a loop visits the keys in.

The model follows the code where it departs from standard Wordle scoring.
`Guess` (`progress/progress.go:111-157`) gives a guessed letter a count of its
greens plus `min(t, u)`. Here `t` is the number of occurrences in the guess,
green ones included, and `u` is the number of solution positions of the
letter left unsolved by the green pass. Standard Wordle scoring counts the
greens plus `min(k, u)`, where `k` counts only the occurrences that are not
green. The comment at `progress/progress.go:139` says a solution position
that served an orange mark is dropped so that it is not used again, but the
second loop runs over every rune of the guess, green ones included, so one
green letter can be counted twice: `Progress.GuessCountsGreenAgain` shows
"abcde" against "aafgh" recording at least two a's. The count is still met
by the solution (`Progress.GuessMeets`), so the solver stays sound.

## Model

| member | source | states |
|---|---|---|
| Diacritics.Fold | dict/diacritics.go:53 | `Conv[r]`: a key folds to a base letter a-z, a base letter to itself, any other rune to rune 0 |
| Diacritics.ConvKeys | dict/diacritics.go:6-48 | `Conv` has exactly 41 keys: the 26 letters a-z and the 15 Czech variants |
| Diacritics.StripDiacritic | dict/diacritics.go:51-57 | one output rune per input rune, each the fold of that rune |
| Diacritics.FoldIdempotent | dict/diacritics.go:6-48 | folding a folded rune changes nothing: values of `Conv` are keys mapped to themselves, rune 0 is no key |
| Diacritics.StripIdempotent | dict/diacritics.go:51-57 | `StripDiacritic` applied twice equals applied once |
| Diacritics.StripBase | dict/diacritics.go:51-57 | a string of letters a-z is left unchanged |
| Dict.Key | dict/dict.go:34-43 | the five decoded runes, `RuneError` past the end; a line of five or more runes is keyed by its first five |
| Dict.FileLine | dict/dict.go:45-60 | the loop body creates each missing level and stores the line only when its key is empty |
| Dict.LoadDictionary | dict/dict.go:20-64 | the trie built from the lines read, with no empty level |
| Dict.InsertKeepsLevelsNonEmpty | dict/dict.go:45-60 | inserting a line never leaves an empty level |
| Dict.InsertLineLookup | dict/dict.go:57-60 | inserting a line changes only its own key, and only when that key was empty |
| Dict.InsertLineLeaves | dict/dict.go:45-60 | inserting a line adds exactly its key to the stored keys |
| Dict.BuildLeaves | dict/dict.go:31-61 | the stored keys are exactly the five-rune keys of the lines read |
| Dict.BuildFirstWins | dict/dict.go:57-60 | a key holds the first line filed under it, marked used exactly when that line is in the history |
| Dict.BuildAbsent | dict/dict.go:31-61 | a key that no line is filed under holds nothing |
| Dict.BuildStoresLines | dict/dict.go:57-60 | every stored word is a line read, filed under its own key, used exactly when in the history |
| Progress.InitialBoard | progress/progress.go:36-47 | `size` open positions that accept exactly the given letters, and a nil frequency map |
| Progress.Progress.NewProgress | progress/progress.go:36-47 | the new object's state is `InitialBoard(size, letters)` |
| Progress.CloneBoard | progress/progress.go:49-63 | same frequency map; every position accepts the same runes; solved positions drop their `left` map |
| Progress.Progress.Clone | progress/progress.go:49-63 | a fresh object whose state is `CloneBoard` of the original |
| Progress.ResetBoard | progress/progress.go:65-76 | empty frequency map; each open position stops accepting exactly the letters with an exact count of zero |
| Progress.Progress.ResetRound | progress/progress.go:65-76 | the new state is `ResetBoard` of the old |
| Progress.ForgetValid | progress/progress.go:66-74 | clearing letters from an open position removes exactly those letters from what it accepts |
| Progress.Progress.IncFreq | progress/progress.go:78-83 | the record of the letter, created if missing, counts one more; positions unchanged |
| Progress.GreyBoard | progress/progress.go:85-91 | the letter's record becomes exact, other records unchanged; position `i` stops accepting the letter |
| Progress.Progress.Grey | progress/progress.go:85-91 | the new state is `GreyBoard` of the old |
| Progress.OrangeBoard | progress/progress.go:93-97 | one more occurrence as a floor; position `i` stops accepting the letter; nothing else changes |
| Progress.Progress.Orange | progress/progress.go:93-97 | the new state is `OrangeBoard` of the old |
| Progress.GreenOrangeBoard | progress/progress.go:99-103 | two more occurrences as a floor; position `i` solved with the letter |
| Progress.Progress.GreenOrange | progress/progress.go:99-103 | the new state is `GreenOrangeBoard` of the old |
| Progress.GreenBoard | progress/progress.go:105-109 | one more occurrence; position `i` solved and accepting only the letter; nothing else changes |
| Progress.Progress.Green | progress/progress.go:105-109 | the new state is `GreenBoard` of the old |
| Progress.SolutionLetters | progress/progress.go:112-117 | `solLtrs` is the solution; `solLtrsPos` lists each letter's positions in order |
| Progress.SolutionPositions | progress/progress.go:113-117 | every listed position is a valid index holding the letter it is listed under |
| Progress.OpenSolutionPositions | progress/progress.go:113-117 | the open positions listed for a letter are its unsolved occurrences in the solution |
| Progress.GreenPass | progress/progress.go:119-125 | a matching letter solves its position and counts once more; any other is cleared from its position |
| Progress.Progress.GreenLoop | progress/progress.go:119-125 | the first loop of `Guess` yields `GreenPass` |
| Progress.Consume | progress/progress.go:132-144 | finds a position exactly when an open one is listed; the rest lists one open position fewer |
| Progress.Progress.FirstOpen | progress/progress.go:132-144 | the scan and the slicing after it yield `Consume` |
| Progress.Progress.OrangeLetter | progress/progress.go:127-155 | one letter of the second loop yields `OrangeStep` |
| Progress.Progress.OrangeLoop | progress/progress.go:127-155 | the second loop of `Guess` yields `OrangePass` |
| Progress.OrangePassFacts | progress/progress.go:127-155 | after the second loop a letter is counted `min(occurrences, open positions)` more times, exact iff occurrences exceed them |
| Progress.Progress.Guess | progress/progress.go:111-157 | the new state is `GuessBoard` of the old |
| Progress.GuessFreq | progress/progress.go:111-157 | a letter's count rises by its greens plus `min(t, u)`; exact iff `t > u`; floor iff `t > 0 && u > 0` |
| Progress.GuessSelf | progress/progress.go:111-157 | guessing the solution solves every position and gives each letter its exact count |
| Progress.GuessMarksLetters | progress/progress.go:146-154 | every letter of the guess ends with an exact or floor record |
| Progress.GuessAbsentLetter | progress/progress.go:149-154 | a letter absent from the solution keeps its count and becomes exact; after a reset, exactly zero |
| Progress.GuessCountsGreenAgain | progress/progress.go:127-155 | "abcde" against "aafgh" records `a` twice as a floor: the green `a` is counted again |
| Progress.GuessMeets | progress/progress.go:111-157 | after a guess on a reset board, every record is met by the solution's own letter counts |
| Progress.GuessKeepsSolution | progress/progress.go:111-157 | a guess never stops a position accepting the solution's letter there |
| Progress.SimulationAdmitsSolution | progress/progress.go:111-157 | a guess simulated on the reset clone of a board that admits a solution still admits it |
| Progress.AdmitsAgree | progress/progress.go:21-29 | two keys a board admits agree on every solved position |
| Progress.AdmitsLast | progress/progress.go:193-194 | with four letters accepted, a key is admitted iff the fifth position accepts its letter and `Progress.Valid` holds |
| Progress.TallyLast | progress/progress.go:192-204 | one leaf is counted, and added to the list, exactly when the board admits its key |
| Progress.Progress.WordsAt5 | progress/progress.go:192-204 | the innermost loop counts the admitted keys under a four-letter prefix |
| Progress.Progress.WordsAt4 | progress/progress.go:190-206 | the fourth loop counts the admitted keys under a three-letter prefix |
| Progress.Progress.WordsAt3 | progress/progress.go:188-208 | the third loop counts the admitted keys under a two-letter prefix |
| Progress.Progress.WordsAt2 | progress/progress.go:186-210 | the second loop counts the admitted keys under a one-letter prefix |
| Progress.Progress.WordsLeft | progress/progress.go:179-215 | `counter` is the number of trie words the board admits, `counterNotUsed` of those not used, the list those words; `0 <= counterNotUsed <= counter` |
| Progress.UnderTop | progress/progress.go:184-212 | walking every letter of the first level reaches every admitted key |
| Progress.FreshBoardMatches | progress/progress.go:179-215 | a fresh reset board admits exactly the trie words spelled with the given letters |
| Progress.GuessSelfMatches | progress/progress.go:179-215 | after guessing the solution on a reset board, the only word left is the solution |
| Odds.LessIsStrict | odds/odds.go:21 | `Less` is irreflexive, transitive and asymmetric |
| Odds.Relative | odds/odds.go:44-47 | the percentage lies in [0, 100]; 0 when all weights are equal or for the worst rank, 100 for the best |
| Odds.RankBounds | odds/odds.go:33-40 | ranks start at 0, never fall along the list and stay within `maxSk` |
| Odds.ScanTracksLast | odds/odds.go:33-40 | on a sorted list the running weight is the last weight seen |
| Odds.RankStep | odds/odds.go:33-40 | on a sorted list the rank rises by one exactly at a strictly larger weight |
| Odds.RankCountsWeights | odds/odds.go:33-42 | on a sorted list the rank of entry `n - 1` is the number of distinct weights so far minus one |
| Odds.DifficultyCountsWeights | odds/odds.go:42 | on a sorted list `maxSk` is the number of distinct weights minus one |
| Odds.RelativeMonotone | odds/odds.go:44-47 | a better rank never gets a lower percentage |
| Odds.EarlierIsBetter | odds/odds.go:23-53 | an earlier entry gets at least the percentage of a later one |
| Odds.RankWords | odds/odds.go:25-42 | the first loop stores each word with its rank, and `maxSk` is the last rank |
| Odds.SkillTableStep | odds/odds.go:43-50 | one stored entry has a rank within `maxSk` and is stored under its stripped word |
| Odds.SkillTableKeys | odds/odds.go:43-50 | the map's keys are the stripped words of the entries |
| Odds.SkillTableLastWins | odds/odds.go:43-50 | each key holds the skill of the last entry stored under it |
| Odds.SkillTableValues | odds/odds.go:43-50 | every skill has difficulty `maxSk` and a percentage in [0, 100] |
| Odds.CalculateSkill | odds/odds.go:23-53 | the returned map is the table of all entries keyed by stripped word |
| Histogram.SumInc | main.go:111-112 | one more in a bucket raises the total by one |
| Histogram.SumRemove | main.go:147-156 | the total does not depend on which bucket is taken first |
| Histogram.SumSplit | main.go:147-156 | the buckets at most a limit and those above it share the total |
| Histogram.SumPositive | main.go:110-115 | with positive counts, each bucket is at most the total, and the total is zero only for the empty histogram |
| Solver.AddKeys | main.go:110-115 | a solution outside the history adds its own bucket; one in the history adds none |
| Solver.ScoreTotals | main.go:83-116 | every solution counted once; those outside the history counted in `Sum` and the histogram, whose total is `Sum` |
| Solver.ScoreBucket | main.go:110-115 | each solution outside the history is in the bucket of its unused count |
| Solver.GuessInBucketZero | main.go:86 | a solution equal to the stripped guess lands in bucket 0 |
| Solver.PanicSticks | main.go:102-104 | once the loop panics, later solutions change nothing |
| Solver.ScoreNoPanic | main.go:102-104 | no panic when every other solution outside the history leaves an unused word |
| Solver.SolutionSimulable | main.go:86-90 | a guess the board admits can be played against any admitted solution, which survives the simulation |
| Solver.SolutionSurvives | main.go:86-104 | simulating an unused admitted solution leaves at least one unused word |
| Solver.NoPanic | main.go:69-119 | on single-byte candidates from the board, `CalculateOdds` never panics |
| Solver.Simulate | main.go:87-101 | clone, reset, guess and count give the survivors of the simulated board |
| Solver.CalculateOdds | main.go:69-119 | the totals, or the panic, of the loop over all solutions |
| Solver.TalliedWellFormed | main.go:81-116 | the luck statistic has positive buckets totalling `Sum` |
| Solver.BucketsShare | main.go:147-156 | `sumBetter + sumWorse` is the total, both non-negative |
| Solver.RatioBounds | main.go:160 | `100 - 100 * b / s` lies in [0, 100], and is 0 exactly when `b == s` |
| Solver.LuckRange | main.go:143-163 | on a built statistic the luck is never a division by zero; it is the sentinel only when no solution would leave more words, otherwise a percentage in [0, 100] |
| Solver.Buckets | main.go:144-156 | the loop's `sumBetter`, `sumWorse` and `countBetter` over the buckets in any order |
| Solver.AppendTip | main.go:129-167 | appends exactly the tip for the word, keeping the earlier tips |
| Solver.Tile | main.go:271-283 | a mark succeeds exactly when it is one of the four marks, and keeps every `left` map |
| Solver.Marked | main.go:264-285 | the marks of a round succeed exactly when all five are valid marks |
| Solver.Dispatch | main.go:271-283 | the `switch` applies the board update of the mark, or reports an invalid mark |
| Solver.SkipLine | main.go:261 | the position just after the next newline, or the end of the input |
| Solver.ReadRound | main.go:254-286 | a round that reads its five runes of guess and five of marks moves forward |
| Solver.MarksExit | main.go:264-282 | marks read one at a time: an invalid mark iff a character that is not a mark comes before the input ends; a read failure iff the input ends first; neither iff all five are marks |
| Solver.RoundExit | main.go:253-282 | a read failure iff the input ends within the guess, or within the marks before any invalid one; an invalid mark iff some mark present is not one; neither iff a guess and five valid marks are read |
| Solver.ApplyMarks | main.go:264-285 | stops exactly as reading the marks does; after five valid marks, the board after them and the guess without diacritics |
| Solver.WordsLeftAfter | main.go:290-295 | the counters of `WordsLeft`, forced to zero when the only word left is the guess |
| Solver.ForcedZero | main.go:292-295 | when one word is left the list holds exactly it, so the forced zero happens exactly when that word is the guess |
| Solver.PlayRound | main.go:249-297 | ends exactly as `RoundExit` says; otherwise the marks applied to the reset board, the guess folded, and the round's counters |
| Solver.RoundCountsRange | main.go:290-295 | a round's counters satisfy `0 <= counterNotUsed <= counter` |
| Solver.RoundReport | main.go:288-297 | what a round reports is a five-rune word with at most as many unused words left as words left |
| Solver.Tips | main.go:299 | one tip per report, with the report's word and counters |
| Solver.TipRound | main.go:249-299 | ends as `RoundExit` says; otherwise the board of the round and exactly the tip of the round's report appended |
| Solver.PlayGame | main.go:248-303 | the tips are those of the reports of `Game`, each round read where the one before stopped, from the board before it, with the luck and skill maps given (see Left out); the ending is `Game`'s, and a normal end leaves `Game`'s board |
| Solver.GameShape | main.go:248-303 | from any round on, a game has at most six reports; only the last may leave no word; a normal end is six rounds or a round that leaves no word |
| Solver.TipsShaped | main.go:299 | the tips of reports shaped like a game's are at most six, each with `leftNotUsed <= left`, only the last with no word left |
| Solver.GameTips | main.go:248-303 | at most six tips, each with `leftNotUsed <= left`; only the last may have no word left; a normal end is six rounds or a solved one |
| FirstPass.ScoreTotals | first/main.go:106-134 | solutions outside the history are counted once in `count`, `Sum` and the histogram; history solutions not at all |
| FirstPass.ScoreBucket | first/main.go:130 | each solution outside the history is in the bucket of its own counter |
| FirstPass.GuessInBucketZero | first/main.go:113 | a solution equal to the guess and outside the history lands in bucket 0 |
| FirstPass.TalliedWellFormed | first/main.go:104-134 | the statistic is well formed and counts the solutions outside the history |
| FirstPass.CalculateOdds | first/main.go:91-137 | the totals of the loop over all solutions |
| FirstPass.LuckRange | first/main.go:154-162 | division by zero exactly for an empty histogram; otherwise a percentage in [0, 100], 0 iff no solution leaves more words, 100 iff none leaves as few |
| FirstPass.BetterGrows | first/main.go:156-160 | raising the limit never lowers `sumBetter` |
| FirstPass.LuckFalls | first/main.go:156-161 | the more words the player has left, the lower the luck |
| FirstPass.SumBetter | first/main.go:155-160 | the loop sums the buckets at most the limit, in any order |
| FirstPass.AppendTip | first/main.go:147-167 | appends exactly the tip for the word, keeping the earlier tips |
| FirstPass.TipShape | first/main.go:154-164 | luck exactly for a word with a histogram; a skill only then and only if one is stored |
| FirstPass.AgreesWithOdds | first/main.go:228-253 | the inline ranking gives the same keys and percentages as `CalculateSkill`, keyed by the raw word |
| FirstPass.SkillValues | first/main.go:245-253 | every stored percentage lies in [0, 100], and a word holds the percentage of its last entry |
| FirstPass.Skills | first/main.go:228-253 | the ranking block of `main` builds the skill table of the whole sorted list |
| Presmycky.AnagramsMembers | presmycky/main.go:113-130 | a dictionary word is found iff it is a derangement of the history word |
| Presmycky.PrintedSound | presmycky/main.go:72-131 | every printed line names a history word by index and a dictionary derangement of it, never the word itself |
| Presmycky.PrintedComplete | presmycky/main.go:72-131 | every pair of a history word and a dictionary derangement of it is printed |
| Presmycky.NotItself | presmycky/main.go:88-92 | a derangement differs from the word it deranges |
| Presmycky.MatchIsDerangement | presmycky/main.go:113-127 | the expression match together with equal letter counts is exactly a derangement |
| Presmycky.PositionsExact | presmycky/main.go:81 | the positions listed for a letter are exactly its positions among the first five |
| Presmycky.Tables | presmycky/main.go:78-86 | the letter counts, the zeros, the position lists and every letter allowed everywhere |
| Presmycky.FullRowOf | presmycky/main.go:82-85 | the row of a position allows every letter of the word |
| Presmycky.ForbidLetter | presmycky/main.go:89-91 | the letter is forbidden at each of its own positions, nothing else changes |
| Presmycky.Forbid | presmycky/main.go:88-92 | position `i` allows every letter of the word except `w[i]` |
| Presmycky.Parts | presmycky/main.go:94-102 | the five character classes are the letters of the word other than the one standing there |
| Presmycky.Tally | presmycky/main.go:115-118 | the copy of the zeros plus the letter counts of the dictionary word |
| Presmycky.SameCounts | presmycky/main.go:119-126 | `ok` iff every tallied letter occurs as often as in the history word |
| Presmycky.CountsDecide | presmycky/main.go:115-126 | the count comparison holds iff the two words have the same letters with the same multiplicities |
| Presmycky.Filter | presmycky/main.go:73-131 | the words found for one history word are its derangements, in dictionary order |
| Presmycky.Search | presmycky/main.go:72-131 | the printed lines, history word by history word |

## Left out

- I/O: reading the word lists (`LoadDictionary` scanning a file, `LoadHistory`), gob encoding and decoding of the luck and skill files, printing (`PrintResuts`, `fmt.Printf`), and the signal handler of `main.go`. The dictionary is given as a sequence of lines, the history as a set, the player's input as a string, and the printed lines as a returned sequence.
- `LoadHistory`'s NFD normalisation and removal of combining marks (`dict/dict.go:66-85`, `presmycky/main.go:20-39`): Unicode normalisation is not modelled; the history is given already normalised.
- `bufio.Scanner`'s limit on line length and its read errors.
- Solver.SkipLine: skips the whole rest of the line. `bufio.Reader.ReadLine` (main.go:261 and main.go:286) consumes at most the reader's 4096-byte buffer of a longer line, and the rest of that line is then read as the next runes; inputs with such lines are not modelled.
- main.go:305-330: the block that, after a round leaving between 1 and 999 words, weighs every word left with `CalculateOdds`, stores each word's luck in `luck` (main.go:315), sorts the two weighted lists with `sort.Sort` and recomputes `skillHuman` and `skillRobot` (main.go:319, :322). `CalculateOdds` and `CalculateSkill` themselves are modelled. `sort.Sort` is not modelled: `CalculateSkill` and `FirstPass.Skills` take the sorted list as input (the sort's order is `Odds.Less`, proved a strict order).
- first/main.go:206-226: the loop calling `CalculateOdds` for every word, and the sort. first/main.go:170 also pre-fills the list of all words with 2000 empty strings, which the model does not reproduce; `FirstPass.CalculateOdds` takes the list as given.
- Solver.CalculateOdds: returns the integer totals instead of the float64 means `sum / count` and `sumNotUsed / countNotUsed`, because floating point is not modelled; the means follow from the totals.
- FirstPass.CalculateOdds: returns the integer totals instead of the float64 mean `sum / count`, for the same reason.
- Solver.LuckOf and FirstPass.LuckOf: the luck is an exact real `100 - 100 * b / s`, not a rounded float64; a division by zero (infinity or NaN in Go) is `DivisionByZero`.
- `Clone` shares the `freq` map with the original in Go; the model copies the value. Every caller runs `ResetRound` on the clone first, which replaces the map, so the sharing is never observed.
- Go's map iteration order: loops over maps visit the keys in an arbitrary order chosen by `:|`, and the proofs hold for every order. In `presmycky/main.go:96-102` the order of letters inside a character class is that order; the classes are modelled as sets.
- `regexp.MustCompile` and `Match`: the expression `^[..][..][..][..][..]$` is modelled as `Presmycky.Match` over five letter sets.
- Solver.PlayGame: keeps `luck`, `skillRobot` and `skillHuman` as given for every round. The source replaces them after each round that leaves between 1 and 999 words (main.go:305-330), and `AppendTip` (main.go:299) reads the new maps in the next round. So the model's tip for round 1, and for every round after one that left 1000 words or more, is the source's; a later tip is the one the maps given would produce.
- Presmycky.Search: requires each history word to be `Eligible` (at least five runes, the first five `Presmycky.Plain`, not all five equal). The source indexes bytes and builds the expression from them. For a word with a multi-byte rune the byte offsets differ from rune indexes. Inside a character class of Go's `regexp`, every single-byte character stands for itself except `-` between two characters (a range), `]` (the end of the class), a leading `^` (a negation), `\` (an escape) and `[` followed by `:` (a named class); the source lists the letters in map order, so where these land is not fixed, and `Plain` excludes all five. When all five letters are equal a character class is empty and `MustCompile` panics. Those cases are not modelled.
- Solver.NoPanic: `Solver.Candidates` requires every solution to be single-byte (`Progress.Ascii`), and `Progress.GuessPre` requires the same of both words of `Guess`. The source does not: `CalculateOdds` passes the raw dictionary words, diacritics included, as solutions (`wordsLeft` at main.go:312, the list words at first/main.go:117). `Guess` ranges over the solution by byte offset, so a two-byte rune among its first four runes makes `solLtrs[i]` index past 4 (progress/progress.go:114-115) and `Guess` panics. Those inputs are not modelled.
- `NewProgress` in `main.go:244` is called with the trie where `progress/progress.go:36` expects a letter list, and `WordsLeft` is called without the trie in `main.go:101` and `main.go:290`; the model passes the letters to `NewProgress` and the trie to `WordsLeft` explicitly.
- `makeString` (`main.go:121-127`) is the identity on a sequence of runes.
