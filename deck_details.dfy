/**
 * The shared-deck page: the deck is sorted in place by required energy,
 * colour first in the order 黃, 藍, 紅, 綠, 無 and then by the energy's
 * number, and the copy button hands the deck to the card page of the
 * first card's series.
 */
module DeckDetails {
  import opened Js
  import opened Cards

  const ColourOrder: seq<string> := ["黃", "藍", "紅", "綠", "無"]
  const UnknownColour: int := 99

  datatype EnergyKey = EnergyKey(colourIndex: int, number: nat)

  /** The key order of the comparator: colour index, then number. */
  predicate KeyLess(x: EnergyKey, y: EnergyKey) {
    x.colourIndex < y.colourIndex || (x.colourIndex == y.colourIndex && x.number < y.number)
  }

  predicate KeyLe(x: EnergyKey, y: EnergyKey) {
    !KeyLess(y, x)
  }

  /** `card.details?.["必要エナジー"] || ''`. */
  function EnergyText(c: Card): string {
    if "必要エナジー" in c.details then c.details["必要エナジー"] else ""
  }

  /** The energy's colour: digits and `-` removed, `無` when nothing is left. */
  function EnergyColour(val: string): (colour: string)
    ensures colour != ""
    ensures RemoveChars(val, AsciiDigits + {'-'}) != "" ==> colour == RemoveChars(val, AsciiDigits + {'-'})
    ensures RemoveChars(val, AsciiDigits + {'-'}) == "" ==> colour == "無"
  {
    var rest := RemoveChars(val, AsciiDigits + {'-'});
    if rest == "" then "無" else rest
  }

  /** `parseInt` of the energy's digits, 0 when it has none. */
  function EnergyNumber(val: string): nat {
    var digits := KeepChars(val, AsciiDigits);
    if digits == "" then 0 else DigitsValue(digits)
  }

  /** `colorOrder.indexOf(colour)`, 99 when absent. */
  function ColourIndex(colour: string): (i: int)
    ensures i == UnknownColour || (0 <= i < |ColourOrder| && ColourOrder[i] == colour)
    ensures i == UnknownColour <==> colour !in ColourOrder
    ensures 0 <= i < |ColourOrder| ==> forall j :: 0 <= j < i ==> ColourOrder[j] != colour
  {
    var i := FindIndex(ColourOrder, (s: string) => s == colour);
    if i == -1 then UnknownColour else i
  }

  /** `getEnergySortKey`. */
  function EnergySortKey(c: Card): (k: EnergyKey)
    ensures k.colourIndex in {0, 1, 2, 3, 4, UnknownColour}
  {
    var val := EnergyText(c);
    EnergyKey(ColourIndex(EnergyColour(val)), EnergyNumber(val))
  }

  // ---------------------------------------------------------------------
  // The stable sort

  predicate SortedBy(s: seq<Card>, key: Card -> EnergyKey) {
    forall p, q :: 0 <= p < q < |s| ==> KeyLe(key(s[p]), key(s[q]))
  }

  /** Stability: the entries of each key keep their relative order. */
  ghost predicate SameOrderPerKey(s: seq<Card>, t: seq<Card>, key: Card -> EnergyKey) {
    forall k :: WithKey(s, key, k) == WithKey(t, key, k)
  }

  /** `deck.sort(comparator)`: a stable sort by `key`, here by insertion
      with adjacent swaps that only ever swap entries of different keys. */
  method SortBy(a: array<Card>, key: Card -> EnergyKey)
    modifies a
    ensures SortedBy(a[..], key)
    ensures multiset(a[..]) == multiset(old(a[..]))
    ensures SameOrderPerKey(a[..], old(a[..]), key)
  {
    if a.Length == 0 {
      return;
    }
    for i := 1 to a.Length
      invariant SortedBy(a[..i], key)
      invariant multiset(a[..]) == multiset(old(a[..]))
      invariant SameOrderPerKey(a[..], old(a[..]), key)
    {
      Insert(a, key, i);
    }
    assert a[..a.Length] == a[..];
  }

  /** One pass of the insertion sort: the entry at `i` moves left past the
      larger entries of the sorted prefix. */
  method Insert(a: array<Card>, key: Card -> EnergyKey, i: nat)
    requires 0 < i < a.Length && SortedBy(a[..i], key)
    modifies a
    ensures SortedBy(a[..i + 1], key)
    ensures multiset(a[..]) == multiset(old(a[..]))
    ensures forall k :: WithKey(a[..], key, k) == WithKey(old(a[..]), key, k)
  {
    var j := i;
    while j > 0 && KeyLess(key(a[j]), key(a[j - 1]))
      invariant 0 <= j <= i
      invariant InsertionState(a[..], key, i, j)
      invariant multiset(a[..]) == multiset(old(a[..]))
      invariant forall k :: WithKey(a[..], key, k) == WithKey(old(a[..]), key, k)
      decreases j
    {
      ghost var before := a[..];
      a[j - 1], a[j] := a[j], a[j - 1];
      SwapStep(before, key, i, j, a[..]);
      j := j - 1;
    }
    InsertionDone(a[..], key, i, j);
  }

  /** The inner loop's state: `a[..i + 1]` is sorted except that the entry
      at `j` is still moving left past larger entries. */
  ghost predicate InsertionState(s: seq<Card>, key: Card -> EnergyKey, i: nat, j: nat) {
    j <= i < |s| &&
    (forall p, q :: 0 <= p < q <= i && p != j && q != j ==> KeyLe(key(s[p]), key(s[q]))) &&
    (forall q :: j < q <= i ==> KeyLess(key(s[j]), key(s[q])))
  }

  lemma SwapStep(s: seq<Card>, key: Card -> EnergyKey, i: nat, j: nat, t: seq<Card>)
    requires 0 < j && InsertionState(s, key, i, j) && KeyLess(key(s[j]), key(s[j - 1]))
    requires t == s[j - 1 := s[j]][j := s[j - 1]]
    ensures InsertionState(t, key, i, j - 1)
    ensures multiset(t) == multiset(s)
    ensures forall k :: WithKey(t, key, k) == WithKey(s, key, k)
  {
    SwapStepSorted(s, key, i, j, t);
    SwapStepContents(s, key, j, t);
  }

  lemma SwapStepSorted(s: seq<Card>, key: Card -> EnergyKey, i: nat, j: nat, t: seq<Card>)
    requires 0 < j && InsertionState(s, key, i, j) && KeyLess(key(s[j]), key(s[j - 1]))
    requires t == s[j - 1 := s[j]][j := s[j - 1]]
    ensures InsertionState(t, key, i, j - 1)
  {
    forall q | j - 1 < q <= i ensures KeyLess(key(t[j - 1]), key(t[q])) {
      if q != j {
        assert KeyLe(key(s[j - 1]), key(s[q]));
      }
    }
  }

  lemma SwapStepContents(s: seq<Card>, key: Card -> EnergyKey, j: nat, t: seq<Card>)
    requires 0 < j < |s| && key(s[j]) != key(s[j - 1])
    requires t == s[j - 1 := s[j]][j := s[j - 1]]
    ensures multiset(t) == multiset(s)
    ensures forall k :: WithKey(t, key, k) == WithKey(s, key, k)
  {
    assert t == s[..j - 1] + [s[j], s[j - 1]] + s[j + 1..];
    assert s == s[..j - 1] + [s[j - 1], s[j]] + s[j + 1..];
    SwapKeepsOrderPerKey(s[..j - 1], s[j - 1], s[j], s[j + 1..], key);
  }

  lemma InsertionDone(s: seq<Card>, key: Card -> EnergyKey, i: nat, j: nat)
    requires InsertionState(s, key, i, j)
    requires j == 0 || !KeyLess(key(s[j]), key(s[j - 1]))
    ensures SortedBy(s[..i + 1], key)
  {
    var t := s[..i + 1];
    forall p, q | 0 <= p < q < |t| ensures KeyLe(key(t[p]), key(t[q])) {
      if p == j {
        assert KeyLess(key(s[j]), key(s[q]));
      } else if q == j {
        assert KeyLe(key(s[p]), key(s[j - 1]));
      }
    }
  }

  /** Swapping two neighbours of different keys keeps every key's order. */
  lemma SwapKeepsOrderPerKey(p: seq<Card>, x: Card, y: Card, q: seq<Card>, key: Card -> EnergyKey)
    requires key(x) != key(y)
    ensures forall k :: WithKey(p + [y, x] + q, key, k) == WithKey(p + [x, y] + q, key, k)
  {
    forall k ensures WithKey(p + [y, x] + q, key, k) == WithKey(p + [x, y] + q, key, k) {
      SwapOneKey(p, x, y, q, key, k);
    }
  }

  lemma SwapOneKey(p: seq<Card>, x: Card, y: Card, q: seq<Card>, key: Card -> EnergyKey, k: EnergyKey)
    requires key(x) != key(y)
    ensures WithKey(p + [y, x] + q, key, k) == WithKey(p + [x, y] + q, key, k)
  {
    WithKeyAppend(p + [y, x], q, key, k);
    WithKeyAppend(p + [x, y], q, key, k);
    WithKeyAppend(p, [y, x], key, k);
    WithKeyAppend(p, [x, y], key, k);
    WithKeyPair(y, x, key, k);
    WithKeyPair(x, y, key, k);
  }

  lemma WithKeyPair(x: Card, y: Card, key: Card -> EnergyKey, k: EnergyKey)
    ensures WithKey([x, y], key, k) == (if key(x) == k then [x] else []) + (if key(y) == k then [y] else [])
  {
    assert [x, y][..1] == [x];
    assert [x][..0] == [];
    assert WithKey([x], key, k) == WithKey([], key, k) + (if key(x) == k then [x] else []);
  }

  /** The page's sort of the deck by `getEnergySortKey`. */
  method SortDeck(a: array<Card>)
    modifies a
    ensures SortedBy(a[..], EnergySortKey)
    ensures multiset(a[..]) == multiset(old(a[..]))
    ensures SameOrderPerKey(a[..], old(a[..]), EnergySortKey)
  {
    SortBy(a, EnergySortKey);
  }

  // ---------------------------------------------------------------------
  // Properties of the key

  /** An energy without colour letters, or a missing one, sorts as `無`. */
  lemma NoColourIsNone(c: Card)
    requires forall i :: 0 <= i < |EnergyText(c)| ==> EnergyText(c)[i] in AsciiDigits || EnergyText(c)[i] == '-'
    ensures EnergySortKey(c).colourIndex == 4
  {
    RemoveCharsAllOf(EnergyText(c), AsciiDigits + {'-'});
  }

  /** A colour and a number written as `<colour><digits>` give that
      colour's place in the order and the number. */
  lemma KeyOfColourAndNumber(c: Card, ci: nat, n: nat)
    requires ci < |ColourOrder|
    requires EnergyText(c) == ColourOrder[ci] + NatToString(n)
    ensures EnergySortKey(c) == EnergyKey(ci, n)
  {
    var val := EnergyText(c);
    var colour := ColourOrder[ci];
    assert |colour| == 1 && colour[0] !in AsciiDigits + {'-'} by {
      assert colour in ["黃", "藍", "紅", "綠", "無"];
    }
    var ds := NatToString(n);
    assert val == [colour[0]] + ds;
    RemoveCharsAllOf(ds, AsciiDigits + {'-'});
    assert val[1..] == ds;
    assert RemoveChars(val, AsciiDigits + {'-'}) == colour;
    KeepCharsAllOf(ds, AsciiDigits);
    assert KeepChars(val, AsciiDigits) == ds;
    DigitsValueOfNatToString(n);
    ColourOrderDistinct(ci);
  }

  lemma ColourOrderDistinct(ci: nat)
    requires ci < |ColourOrder|
    ensures ColourIndex(ColourOrder[ci]) == ci
  {
  }

  // ---------------------------------------------------------------------
  // The copy button

  datatype CopyAction = NoCopy | Copy(stored: seq<Card>, series: string)

  /** The copy button's guard: no `data-deck`, an empty deck or a first
      card without a series does nothing; otherwise the whole deck is
      stored and the page goes to the first card's series. */
  function CopyDeck(data: Option<seq<Card>>): (r: CopyAction)
    ensures r.NoCopy? <==> data.None? || |data.value| == 0 || !data.value[0].series.Truthy()
    ensures r.Copy? ==> r.stored == data.value && r.series == data.value[0].series.s && r.series != ""
  {
    if data.None? then NoCopy
    else if |data.value| == 0 || !data.value[0].series.Truthy() then NoCopy
    else Copy(data.value, data.value[0].series.s)
  }
}
