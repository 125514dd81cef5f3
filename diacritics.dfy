/**
  The letter-folding table of dict/diacritics.go: `Conv` maps each of the
  26 base letters to itself and each of 15 Czech diacritic variants to its
  base letter; `StripDiacritic` folds a string rune by rune.
*/
module Diacritics {

  const FirstHalf: set<char> := {'a', 'b', 'c', 'd', 'e', 'f', 'g', 'h', 'i', 'j', 'k', 'l', 'm'}
  const SecondHalf: set<char> := {'n', 'o', 'p', 'q', 'r', 's', 't', 'u', 'v', 'w', 'x', 'y', 'z'}

  /** The 26 base letters a-z. */
  const BaseLetters: set<char> := FirstHalf + SecondHalf

  const Acute: set<char> := {'á', 'é', 'í', 'ó', 'ú', 'ý'}
  const Caron: set<char> := {'č', 'ď', 'ě', 'ň', 'ř', 'š', 'ť', 'ž'}

  /** The 15 diacritic variants that `Conv` folds: six with an acute accent,
      eight with a caron and `ů`. */
  const Variants: set<char> := Acute + Caron + {'ů'}

  /** The entry of `Conv` for one of its keys. */
  function ConvEntry(r: char): char {
    if 'a' <= r <= 'z' then r else
    match r
    case 'á' => 'a'  // a with acute
    case 'č' => 'c'  // c with caron
    case 'ď' => 'd'  // d with caron
    case 'é' => 'e'  // e with acute
    case 'ě' => 'e'  // e with caron
    case 'í' => 'i'  // i with acute
    case 'ň' => 'n'  // n with caron
    case 'ó' => 'o'  // o with acute
    case 'ř' => 'r'  // r with caron
    case 'š' => 's'  // s with caron
    case 'ť' => 't'  // t with caron
    case 'ú' => 'u'  // u with acute
    case 'ů' => 'u'  // u with ring
    case 'ý' => 'y'  // y with acute
    case 'ž' => 'z'  // z with caron
    case _ => r
  }

  /** The constant table `Conv`: every base letter and every variant, nothing else. */
  const Conv: map<char, char> := map r | r in BaseLetters + Variants :: ConvEntry(r)

  /** A base letter a-z. */
  predicate IsBase(c: char) { 'a' <= c <= 'z' }

  /** Go's `Conv[r]`: a missing key reads as the map's zero value, rune 0. */
  function Fold(r: char): (c: char)
    ensures r in Conv ==> IsBase(c)
    ensures r !in Conv ==> c == '\0'
    ensures IsBase(r) ==> c == r
  {
    FoldFacts(r);
    if r in Conv then Conv[r] else '\0'
  }

  lemma BaseLettersRange()
    ensures forall c :: c in BaseLetters <==> IsBase(c)
  {
  }

  lemma VariantsFoldToBase()
    ensures forall r :: r in Variants ==> IsBase(ConvEntry(r))
  {
  }

  /** The value `Conv` holds for `r`, if any, is a base letter, and a base
      letter is a key that `Conv` maps to itself. */
  lemma FoldFacts(r: char)
    ensures r in Conv ==> IsBase(Conv[r])
    ensures IsBase(r) ==> r in Conv && Conv[r] == r
  {
    if r in Conv {
      EntryIsBase(r);
    }
    if IsBase(r) {
      BaseInConv(r);
    }
  }

  lemma BaseInConv(c: char)
    requires IsBase(c)
    ensures c in BaseLetters && c in Conv && Conv[c] == c
  {
    BaseLettersRange();
  }

  lemma EntryIsBase(r: char)
    requires r in BaseLetters + Variants
    ensures IsBase(ConvEntry(r))
  {
    if r in Variants {
      VariantsFoldToBase();
    } else {
      BaseLettersRange();
    }
  }

  lemma FirstHalfCount() ensures |FirstHalf| == 13 { }
  lemma SecondHalfCount() ensures |SecondHalf| == 13 { }
  lemma HalvesDisjoint() ensures FirstHalf !! SecondHalf { }

  lemma BaseLettersCount()
    ensures |BaseLetters| == 26
  {
    FirstHalfCount();
    SecondHalfCount();
    HalvesDisjoint();
  }

  lemma AcuteCount() ensures |Acute| == 6 { }
  lemma CaronCount() ensures |Caron| == 8 { }

  lemma VariantsCount()
    ensures |Variants| == 15
  {
    AcuteCount();
    CaronCount();
    assert Acute !! Caron;
    assert |Acute + Caron| == 14;
    assert 'ů' !in Acute + Caron;
  }

  lemma BaseAndVariantsDisjoint()
    ensures BaseLetters !! Variants
  {
    BaseLettersUpToZ();
    VariantsAboveZ();
  }

  lemma BaseLettersUpToZ()
    ensures forall c :: c in BaseLetters ==> c <= 'z'
  {
  }

  lemma BaseLettersFromA()
    ensures forall c :: c in BaseLetters ==> 'a' <= c
  {
  }

  lemma VariantsAboveZ()
    ensures forall r :: r in Variants ==> r > 'z'
  {
  }

  /** `Conv` has exactly 41 keys: the 26 base letters and the 15 variants. */
  lemma ConvKeys()
    ensures Conv.Keys == BaseLetters + Variants
    ensures |Conv| == 41
  {
    BaseLettersCount();
    VariantsCount();
    BaseAndVariantsDisjoint();
    assert Conv.Keys == BaseLetters + Variants;
    assert |BaseLetters + Variants| == |BaseLetters| + |Variants|;
  }

  /** `StripDiacritic`: one output rune per input rune. */
  function StripDiacritic(w: string): (s: string)
    ensures |s| == |w|
    ensures forall i :: 0 <= i < |w| ==> s[i] == Fold(w[i])
  {
    seq(|w|, i requires 0 <= i < |w| => Fold(w[i]))
  }

  /** Folding twice is folding once: `Conv` is idempotent, and rune 0 is not a key. */
  lemma FoldIdempotent(r: char)
    ensures Fold(Fold(r)) == Fold(r)
  {
    if r !in Conv {
      NulNotInConv();
    }
  }

  lemma NulNotInConv()
    ensures '\0' !in Conv
  {
    BaseLettersFromA();
    VariantsAboveZ();
  }

  /** `StripDiacritic` is idempotent on every string. */
  lemma StripIdempotent(w: string)
    ensures StripDiacritic(StripDiacritic(w)) == StripDiacritic(w)
  {
    forall i | 0 <= i < |w| ensures Fold(Fold(w[i])) == Fold(w[i]) {
      FoldIdempotent(w[i]);
    }
  }

  /** A string of base letters is left as it is. */
  lemma StripBase(w: string)
    requires forall i :: 0 <= i < |w| ==> IsBase(w[i])
    ensures StripDiacritic(w) == w
  {
  }
}
