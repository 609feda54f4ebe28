/**
 * The name `saveDeck` sends with a deck: the trimmed input, refused when
 * longer than 8 UTF-16 code units, replaced when empty by two random
 * lower-case letters and two random digits. The four random choices
 * `Math.floor(Math.random() * n)` are parameters.
 */
module DeckName {
  import opened Js

  datatype NameResult = TooLong | Name(name: string)

  const MaxNameLength: nat := 8

  predicate IsLowerLetter(c: char) {
    'a' <= c <= 'z'
  }

  /** What the name rule promises of a generated name. */
  predicate GeneratedShape(name: string) {
    |name| == 4 && IsLowerLetter(name[0]) && IsLowerLetter(name[1]) &&
    name[2] in AsciiDigits && name[3] in AsciiDigits
  }

  /** The name drawn for an empty input. */
  function DrawnName(letterDraws: seq<nat>, digitDraws: seq<nat>): string
    requires |letterDraws| == 2 && forall i :: 0 <= i < 2 ==> letterDraws[i] < |LowerLetters|
    requires |digitDraws| == 2 && forall i :: 0 <= i < 2 ==> digitDraws[i] < |DigitChars|
  {
    [LowerLetters[letterDraws[0]], LowerLetters[letterDraws[1]],
     DigitChars[digitDraws[0]], DigitChars[digitDraws[1]]]
  }

  /** `saveDeck`'s name rule. `letterDraws` and `digitDraws` are the two
      random indices into `letters` and the two into `numbers`. */
  method ResolveDeckName(input: string, letterDraws: seq<nat>, digitDraws: seq<nat>) returns (r: NameResult)
    requires |letterDraws| == 2 && forall i :: 0 <= i < 2 ==> letterDraws[i] < |LowerLetters|
    requires |digitDraws| == 2 && forall i :: 0 <= i < 2 ==> digitDraws[i] < |DigitChars|
    ensures r.TooLong? <==> Utf16Length(Trim(input)) > MaxNameLength
    ensures r.Name? && Trim(input) != "" ==> r.name == Trim(input)
    ensures r.Name? && Trim(input) == "" ==> r.name == DrawnName(letterDraws, digitDraws)
  {
    var deckName := Trim(input);
    if Utf16Length(deckName) > MaxNameLength {
      return TooLong;
    }
    if deckName == "" {
      deckName := DrawName(letterDraws, digitDraws);
    }
    r := Name(deckName);
  }

  /** The two loops that build a name for an empty input: two letters
      from `letters`, then two digits from `numbers`. */
  method DrawName(letterDraws: seq<nat>, digitDraws: seq<nat>) returns (deckName: string)
    requires |letterDraws| == 2 && forall i :: 0 <= i < 2 ==> letterDraws[i] < |LowerLetters|
    requires |digitDraws| == 2 && forall i :: 0 <= i < 2 ==> digitDraws[i] < |DigitChars|
    ensures deckName == DrawnName(letterDraws, digitDraws)
  {
    var letters := LowerLetters;
    var numbers := DigitChars;
    deckName := "";
    for i := 0 to 2
      invariant |deckName| == i
      invariant forall j :: 0 <= j < i ==> deckName[j] == letters[letterDraws[j]]
    {
      deckName := deckName + [letters[letterDraws[i]]];
    }
    for i := 0 to 2
      invariant |deckName| == 2 + i
      invariant forall j :: 0 <= j < 2 ==> deckName[j] == letters[letterDraws[j]]
      invariant forall j :: 0 <= j < i ==> deckName[2 + j] == numbers[digitDraws[j]]
    {
      deckName := deckName + [numbers[digitDraws[i]]];
    }
  }

  /** A drawn name is two lower-case letters followed by two digits. */
  lemma DrawnNameShape(letterDraws: seq<nat>, digitDraws: seq<nat>)
    requires |letterDraws| == 2 && forall i :: 0 <= i < 2 ==> letterDraws[i] < |LowerLetters|
    requires |digitDraws| == 2 && forall i :: 0 <= i < 2 ==> digitDraws[i] < |DigitChars|
    ensures GeneratedShape(DrawnName(letterDraws, digitDraws))
  {
    LettersAreLower(letterDraws[0]);
    LettersAreLower(letterDraws[1]);
    DigitCharsAreDigits(digitDraws[0]);
    DigitCharsAreDigits(digitDraws[1]);
  }

  lemma LettersAreLower(i: nat)
    requires i < |LowerLetters|
    ensures IsLowerLetter(LowerLetters[i])
  {
  }

  lemma DigitCharsAreDigits(i: nat)
    requires i < |DigitChars|
    ensures DigitChars[i] in AsciiDigits
  {
  }

  /** A trimmed name of at most 8 code units has at most 8 characters,
      whatever plane they come from. */
  lemma AcceptedNameShort(input: string)
    requires Utf16Length(Trim(input)) <= MaxNameLength
    ensures |Trim(input)| <= MaxNameLength
  {
  }
}
