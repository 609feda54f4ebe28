/**
 * `applyFilters` of the card page: each card element is shown exactly when
 * it passes five set-membership criteria (rarity, colour, energy, AP and
 * type). A filter set that is empty or contains "" does not filter.
 */
module CardFilter {
  import opened Js

  /** The `data-*` attributes a card element carries; `Null` is an
      attribute `getAttribute` does not find. */
  datatype CardElement = CardElement(
    rarity: JsString,
    cardType: JsString,
    color: JsString,
    energy: JsString,
    ap: JsString,
    cardNumber: JsString)

  /** The page's `filters` object: one set of selected values per kind. */
  datatype Filters = Filters(
    rarity: set<string>,
    color: set<string>,
    energy: set<string>,
    ap: set<string>,
    cardType: set<string>)

  predicate Unfiltered(f: set<string>) {
    f == {} || "" in f
  }

  predicate NoFiltersApplied(f: Filters) {
    Unfiltered(f.rarity) && Unfiltered(f.color) && Unfiltered(f.energy) &&
    Unfiltered(f.ap) && Unfiltered(f.cardType)
  }

  /** One colour prefix `綠-`, `黃-`, `紅-` or `藍-` at the start removed. */
  function StripColourPrefix(s: string): (r: string)
    ensures |s| >= 2 && s[1] == '-' && s[0] in {'綠', '黃', '紅', '藍'} ==> r == s[2..]
    ensures !(|s| >= 2 && s[1] == '-' && s[0] in {'綠', '黃', '紅', '藍'}) ==> r == s
  {
    if |s| >= 2 && s[1] == '-' && s[0] in {'綠', '黃', '紅', '藍'} then s[2..] else s
  }

  /** The colour as the filter compares it: prefix, digits and `+` removed. */
  function NormalizeColour(color: string): string {
    RemoveChars(RemoveChars(StripColourPrefix(color), AsciiDigits), {'+'})
  }

  predicate MatchesRarityValue(c: CardElement, r: string) {
    if r == "AP" then Contains(c.cardNumber.OrElse(""), "AP")
    else c.rarity.Truthy() && StartsWith(c.rarity.s, r)
  }

  predicate MatchesRarity(f: Filters, c: CardElement) {
    Unfiltered(f.rarity) || exists r :: r in f.rarity && MatchesRarityValue(c, r)
  }

  predicate MatchesColour(f: Filters, c: CardElement)
    requires c.color.Text?
  {
    Unfiltered(f.color) || (if NormalizeColour(c.color.s) == "" then "無" else NormalizeColour(c.color.s)) in f.color
  }

  predicate MatchesEnergy(f: Filters, c: CardElement) {
    Unfiltered(f.energy) || (c.energy != Text("null") && c.energy.Text? && c.energy.s in f.energy)
  }

  /** `parseInt` of a missing attribute reads the text "null", i.e. `NaN`. */
  predicate MatchesAP(f: Filters, c: CardElement) {
    Unfiltered(f.ap) || ParseIntText(c.ap.Template()) in f.ap
  }

  predicate MatchesType(f: Filters, c: CardElement) {
    var number := c.cardNumber.OrElse("");
    Unfiltered(f.cardType) || c.cardType.OrElse("") in f.cardType ||
    ("預組" in f.cardType && Contains(number, "ST")) ||
    ("補充包" in f.cardType && Contains(number, "BT"))
  }

  predicate Matches(f: Filters, c: CardElement)
    requires c.color.Text?
  {
    MatchesRarity(f, c) && MatchesColour(f, c) && MatchesEnergy(f, c) &&
    MatchesAP(f, c) && MatchesType(f, c)
  }

  /** The index of the first card without a `data-color`, or `|cards|`:
      `cardColor.replace` throws there and the `forEach` stops. */
  function FirstWithoutColour(cards: seq<CardElement>): (k: nat)
    ensures k <= |cards|
    ensures forall i :: 0 <= i < k ==> cards[i].color.Text?
    ensures k < |cards| ==> !cards[k].color.Text?
  {
    var i := FindIndex(cards, (c: CardElement) => !c.color.Text?);
    if i < 0 then |cards| else i
  }

  /**
   * `applyFilters` over the card elements, `shown[i]` being whether card
   * `i` has display `block`. With no filter every card is shown. Otherwise
   * each card gets its verdict in turn until one without a colour throws;
   * `threw` reports that, and the cards from there on keep their display.
   */
  method ApplyFilters(f: Filters, cards: seq<CardElement>, shown: array<bool>) returns (threw: bool)
    requires shown.Length == |cards|
    modifies shown
    ensures NoFiltersApplied(f) ==> !threw && forall i :: 0 <= i < |cards| ==> shown[i]
    ensures !NoFiltersApplied(f) ==>
      var k := FirstWithoutColour(cards);
      (threw <==> k < |cards|) &&
      (forall i :: 0 <= i < k ==> shown[i] == Matches(f, cards[i])) &&
      (forall i :: k <= i < |cards| ==> shown[i] == old(shown[i]))
  {
    if NoFiltersApplied(f) {
      for i := 0 to |cards|
        invariant forall j :: 0 <= j < i ==> shown[j]
      {
        shown[i] := true;
      }
      return false;
    }
    var k := FirstWithoutColour(cards);
    for i := 0 to k
      invariant forall j :: 0 <= j < i ==> shown[j] == Matches(f, cards[j])
      invariant forall j :: i <= j < |cards| ==> shown[j] == old(shown[j])
    {
      shown[i] := Matches(f, cards[i]);
    }
    threw := k < |cards|;
  }

  // ---------------------------------------------------------------------
  // Properties of the criteria

  /** The early return agrees with the criteria: with no filter applied,
      every card with a colour passes all five. */
  lemma NoFiltersMatchAll(f: Filters, c: CardElement)
    requires NoFiltersApplied(f) && c.color.Text?
    ensures Matches(f, c)
  {
  }

  /** The rarity value "AP" selects by card number, not by rarity. */
  lemma RarityAP(f: Filters, c: CardElement)
    requires f.rarity == {"AP"}
    ensures MatchesRarity(f, c) <==> Contains(c.cardNumber.OrElse(""), "AP")
  {
    if Contains(c.cardNumber.OrElse(""), "AP") {
      assert MatchesRarityValue(c, "AP");
    }
  }

  /** Any other rarity value selects by prefix of the card's rarity, and a
      card without a rarity never passes. */
  lemma RarityPrefix(f: Filters, c: CardElement)
    requires !Unfiltered(f.rarity) && "AP" !in f.rarity
    ensures MatchesRarity(f, c) <==>
      c.rarity.Truthy() && exists r :: r in f.rarity && StartsWith(c.rarity.s, r)
  {
    if MatchesRarity(f, c) {
      var r :| r in f.rarity && MatchesRarityValue(c, r);
    }
    if c.rarity.Truthy() && exists r :: r in f.rarity && StartsWith(c.rarity.s, r) {
      var r :| r in f.rarity && StartsWith(c.rarity.s, r);
      assert MatchesRarityValue(c, r);
    }
  }

  /** The normalised colour holds no digit and no `+`. */
  lemma NormalizeColourClean(color: string)
    ensures forall i :: 0 <= i < |NormalizeColour(color)| ==>
      NormalizeColour(color)[i] !in AsciiDigits && NormalizeColour(color)[i] != '+'
  {
    var once := RemoveChars(StripColourPrefix(color), AsciiDigits);
    var r := RemoveChars(once, {'+'});
    assert forall i :: 0 <= i < |once| ==> once[i] !in AsciiDigits;
    RemoveCharsSubsequence(once, {'+'});
  }

  /** Removing characters keeps only characters of the input. */
  lemma {:induction false} RemoveCharsSubsequence(s: string, cs: set<char>)
    ensures forall i :: 0 <= i < |RemoveChars(s, cs)| ==> RemoveChars(s, cs)[i] in s
    decreases |s|
  {
    if s != [] {
      RemoveCharsSubsequence(s[1..], cs);
      var rest := RemoveChars(s[1..], cs);
      assert forall i :: 0 <= i < |rest| ==> rest[i] in s;
    }
  }

  /** A one-colour prefix followed by digits and `+` only leaves no colour,
      which the filter reads as `無`. */
  lemma PrefixAndCostIsColourless(f: Filters, c: CardElement, p: char, cost: string)
    requires p in {'綠', '黃', '紅', '藍'}
    requires forall i :: 0 <= i < |cost| ==> cost[i] in AsciiDigits || cost[i] == '+'
    requires c.color == Text([p, '-'] + cost)
    ensures MatchesColour(f, c) <==> Unfiltered(f.color) || "無" in f.color
  {
    assert StripColourPrefix([p, '-'] + cost) == cost;
    var once := RemoveChars(cost, AsciiDigits);
    RemoveCharsSubsequence(cost, AsciiDigits);
    assert forall i :: 0 <= i < |once| ==> once[i] == '+';
    RemoveCharsAllOf(once, {'+'});
  }

  /** An energy attribute that is missing or the text "null" never passes
      an energy filter. */
  lemma EnergyNull(f: Filters, c: CardElement)
    requires !Unfiltered(f.energy) && (c.energy == Null || c.energy == Text("null"))
    ensures !MatchesEnergy(f, c)
  {
  }

  /** An AP attribute written as a decimal numeral passes exactly when
      that numeral is selected; a missing one reads as `NaN`. */
  lemma APNumeral(f: Filters, c: CardElement, n: nat)
    requires c.ap == Text(NatToString(n))
    ensures MatchesAP(f, c) <==> Unfiltered(f.ap) || NatToString(n) in f.ap
  {
    ParseIntTextOfNumeral(n);
  }

  lemma APMissing(f: Filters, c: CardElement)
    requires c.ap == Null
    ensures MatchesAP(f, c) <==> Unfiltered(f.ap) || "NaN" in f.ap
  {
    assert c.ap.Template() == "null";
    ParseIntTextOfWord("null");
  }
}
