/**
 * The browser's own copy of the deck on the card page: the "+" and "-"
 * buttons of a deck entry call `addToDeckFromDeck` and `removeOneFromDeck`
 * with the entry's `card_number` and `rare`, which change the `deck`
 * array in place before the server is told.
 */
module ClientDeck {
  import opened Js
  import opened Cards

  /** `null` and the text "null" stand for a missing rarity, `無資料`;
      `undefined` is left as it is. */
  function NormalizeRare(cardRare: JsString): (r: JsString)
    ensures cardRare == Null || cardRare == Text("null") ==> r == Text("無資料")
    ensures cardRare != Null && cardRare != Text("null") ==> r == cardRare
  {
    if cardRare == Null || cardRare == Text("null") then Text("無資料") else cardRare
  }

  /** The lookup both handlers use: the same card number, and the card's
      rarity, with a falsy one read as `無資料`, equal to the normalised one. */
  predicate LookupMatches(c: Card, cardNumber: JsString, normalizedRare: JsString) {
    c.cardNumber == cardNumber && Text(c.rare.OrElse("無資料")) == normalizedRare
  }

  function FirstLookup(s: seq<Card>, cardNumber: JsString, normalizedRare: JsString): (r: int)
    ensures -1 <= r < |s|
    ensures r == -1 <==> forall j :: 0 <= j < |s| ==> !LookupMatches(s[j], cardNumber, normalizedRare)
    ensures 0 <= r ==>
      LookupMatches(s[r], cardNumber, normalizedRare) &&
      forall j :: 0 <= j < r ==> !LookupMatches(s[j], cardNumber, normalizedRare)
  {
    FindIndex(s, (c: Card) => LookupMatches(c, cardNumber, normalizedRare))
  }

  /** The deck after `removeOneFromDeck(cardNumber, cardRare)`. */
  function RemovedOne(deck: seq<Card>, cardNumber: JsString, cardRare: JsString): seq<Card> {
    var i := FirstLookup(deck, cardNumber, NormalizeRare(cardRare));
    if i == -1 then deck
    else if deck[i].number > 1 then deck[i := deck[i].(number := deck[i].number - 1)]
    else RemoveAt(deck, i)
  }

  /** The existing-entry test of `addToDeckFromDeck`: raw `===` on both
      fields, without the normalisation of the lookup. */
  predicate SameRaw(item: Card, card: Card) {
    item.cardNumber == card.cardNumber && item.rare == card.rare
  }

  function FirstSameRaw(deck: seq<Card>, card: Card): (r: int)
    ensures -1 <= r < |deck|
    ensures r == -1 <==> forall j :: 0 <= j < |deck| ==> !SameRaw(deck[j], card)
    ensures 0 <= r ==> SameRaw(deck[r], card) && forall j :: 0 <= j < r ==> !SameRaw(deck[j], card)
  {
    FindIndex(deck, (c: Card) => SameRaw(c, card))
  }

  /** The entry `addToDeckFromDeck` pushes for a catalogue card. */
  function Pushed(card: Card): Card {
    card.(rare := Text(card.rare.OrElse("無資料")), number := 1)
  }

  /** The deck after `addToDeckFromDeck` with the catalogue card `card`. */
  function AddedCard(deck: seq<Card>, card: Card): seq<Card> {
    var j := FirstSameRaw(deck, card);
    if j >= 0 then deck[j := deck[j].(number := deck[j].number + 1)] else deck + [Pushed(card)]
  }

  /** The deck after `addToDeckFromDeck(cardNumber, cardRare)`; a card the
      catalogue does not have changes nothing. */
  function AddedFromDeck(catalogue: seq<Card>, deck: seq<Card>, cardNumber: JsString, cardRare: JsString): seq<Card> {
    var k := FirstLookup(catalogue, cardNumber, NormalizeRare(cardRare));
    if k == -1 then deck else AddedCard(deck, catalogue[k])
  }

  /** The card page's deck state, with the page's card catalogue. */
  class DeckBuilder {
    var deck: seq<Card>
    const catalogue: seq<Card>

    constructor (catalogue: seq<Card>, deck: seq<Card>)
      ensures this.catalogue == catalogue && this.deck == deck
    {
      this.catalogue := catalogue;
      this.deck := deck;
    }

    /** `removeOneFromDeck`. */
    method RemoveOne(cardNumber: JsString, cardRare: JsString)
      modifies this
      ensures deck == RemovedOne(old(deck), cardNumber, cardRare)
    {
      var normalizedRare := if cardRare == Null || cardRare == Text("null") then Text("無資料") else cardRare;
      var cardIndex := FirstLookup(deck, cardNumber, normalizedRare);
      if cardIndex == -1 {
        return;
      }
      var cardToRemove := deck[cardIndex];
      if cardToRemove.number > 1 {
        deck := deck[cardIndex := cardToRemove.(number := cardToRemove.number - 1)];
      } else {
        deck := deck[..cardIndex] + deck[cardIndex + 1..];
      }
    }

    /** `addToDeckFromDeck`; `found` is whether the catalogue had the card. */
    method AddFromDeck(cardNumber: JsString, cardRare: JsString) returns (found: bool)
      modifies this
      ensures found <==> FirstLookup(catalogue, cardNumber, NormalizeRare(cardRare)) >= 0
      ensures deck == AddedFromDeck(catalogue, old(deck), cardNumber, cardRare)
    {
      var normalizedRare := if cardRare == Null || cardRare == Text("null") then Text("無資料") else cardRare;
      var k := FirstLookup(catalogue, cardNumber, normalizedRare);
      if k == -1 {
        return false;
      }
      var card := catalogue[k];
      var j := FirstSameRaw(deck, card);
      if j >= 0 {
        deck := deck[j := deck[j].(number := deck[j].number + 1)];
      } else {
        deck := deck + [card.(rare := Text(card.rare.OrElse("無資料")), number := 1)];
      }
      found := true;
    }
  }

  // ---------------------------------------------------------------------
  // removeOneFromDeck

  /** Without a match the deck stays as it is. */
  lemma RemovedOneNoMatch(deck: seq<Card>, cardNumber: JsString, cardRare: JsString)
    requires forall j :: 0 <= j < |deck| ==> !LookupMatches(deck[j], cardNumber, NormalizeRare(cardRare))
    ensures RemovedOne(deck, cardNumber, cardRare) == deck
  {
  }

  /** On a match, the first matching entry loses one copy or, with one copy
      or fewer, is spliced out; every other entry keeps its place. */
  lemma RemovedOneMatch(deck: seq<Card>, cardNumber: JsString, cardRare: JsString)
    requires FirstLookup(deck, cardNumber, NormalizeRare(cardRare)) >= 0
    ensures var i := FirstLookup(deck, cardNumber, NormalizeRare(cardRare));
      var r := RemovedOne(deck, cardNumber, cardRare);
      (deck[i].number > 1 ==>
         |r| == |deck| && r[i].number == deck[i].number - 1 &&
         r[i] == deck[i].(number := r[i].number) &&
         forall j :: 0 <= j < |deck| && j != i ==> r[j] == deck[j]) &&
      (deck[i].number <= 1 ==> r == deck[..i] + deck[i + 1..])
  {
  }

  /** A removal that finds its entry lowers the card count by exactly one. */
  lemma RemovedOneTotal(deck: seq<Card>, cardNumber: JsString, cardRare: JsString)
    requires AllPositive(deck)
    requires FirstLookup(deck, cardNumber, NormalizeRare(cardRare)) >= 0
    ensures TotalCount(RemovedOne(deck, cardNumber, cardRare)) == TotalCount(deck) - 1
  {
    var i := FirstLookup(deck, cardNumber, NormalizeRare(cardRare));
    if deck[i].number > 1 {
      TotalCountUpdate(deck, i, deck[i].(number := deck[i].number - 1));
    } else {
      TotalCountRemoveAt(deck, i);
    }
  }

  /** An `undefined` or empty rarity is not normalised, and no entry's
      rarity reads as it, so such a removal never finds an entry. */
  lemma RemovedOneFalsyRare(deck: seq<Card>, cardNumber: JsString, cardRare: JsString)
    requires cardRare == Undefined || cardRare == Text("")
    ensures RemovedOne(deck, cardNumber, cardRare) == deck
  {
    assert forall j :: 0 <= j < |deck| ==> Text(deck[j].rare.OrElse("無資料")) != cardRare;
  }

  // ---------------------------------------------------------------------
  // addToDeckFromDeck

  /** A card the catalogue lacks changes nothing. */
  lemma AddedFromDeckNotFound(catalogue: seq<Card>, deck: seq<Card>, cardNumber: JsString, cardRare: JsString)
    requires forall k :: 0 <= k < |catalogue| ==> !LookupMatches(catalogue[k], cardNumber, NormalizeRare(cardRare))
    ensures AddedFromDeck(catalogue, deck, cardNumber, cardRare) == deck
  {
  }

  /** An entry equal on both raw fields gains one copy, and nothing else
      changes; otherwise one entry with `number` 1 and a truthy rarity is
      appended. */
  lemma AddedCardShape(deck: seq<Card>, card: Card)
    ensures var r := AddedCard(deck, card);
      var j := FirstSameRaw(deck, card);
      (j >= 0 ==>
         |r| == |deck| && r[j] == deck[j].(number := deck[j].number + 1) &&
         forall i :: 0 <= i < |deck| && i != j ==> r[i] == deck[i]) &&
      (j < 0 ==>
         |r| == |deck| + 1 && r[..|deck|] == deck &&
         r[|deck|] == card.(rare := Text(card.rare.OrElse("無資料")), number := 1) &&
         r[|deck|].rare.Truthy() && (card.rare.Truthy() ==> r[|deck|].rare == card.rare))
  {
    if FirstSameRaw(deck, card) < 0 {
      assert (deck + [Pushed(card)])[..|deck|] == deck;
    }
  }

  lemma AddedCardTotal(deck: seq<Card>, card: Card)
    ensures TotalCount(AddedCard(deck, card)) == TotalCount(deck) + 1
  {
    var j := FirstSameRaw(deck, card);
    if j >= 0 {
      TotalCountUpdate(deck, j, deck[j].(number := deck[j].number + 1));
    } else {
      TotalCountPush(deck, Pushed(card));
    }
  }

  /** An add of a catalogue card raises the card count by exactly one. */
  lemma AddedFromDeckTotal(catalogue: seq<Card>, deck: seq<Card>, cardNumber: JsString, cardRare: JsString)
    requires FirstLookup(catalogue, cardNumber, NormalizeRare(cardRare)) >= 0
    ensures TotalCount(AddedFromDeck(catalogue, deck, cardNumber, cardRare)) == TotalCount(deck) + 1
  {
    AddedCardTotal(deck, catalogue[FirstLookup(catalogue, cardNumber, NormalizeRare(cardRare))]);
  }

  predicate RaresTruthy(deck: seq<Card>) {
    forall i :: 0 <= i < |deck| ==> deck[i].rare.Truthy()
  }

  /** A catalogue card without a rarity never equals the `無資料` entry that
      was pushed for it, so while the deck's rarities are all truthy each
      add of it appends another entry. */
  lemma AddedCardFalsyRareAppends(deck: seq<Card>, card: Card)
    requires RaresTruthy(deck) && !card.rare.Truthy()
    ensures AddedCard(deck, card) == deck + [Pushed(card)]
    ensures RaresTruthy(AddedCard(deck, card))
  {
    assert forall j :: 0 <= j < |deck| ==> !SameRaw(deck[j], card);
  }

  /** Adding a rarity-less catalogue card twice leaves two separate
      entries of it, each with one copy. */
  lemma AddedFromDeckTwiceFalsyRare(catalogue: seq<Card>, deck: seq<Card>, cardNumber: JsString, cardRare: JsString)
    requires RaresTruthy(deck)
    requires FirstLookup(catalogue, cardNumber, NormalizeRare(cardRare)) >= 0
    requires !catalogue[FirstLookup(catalogue, cardNumber, NormalizeRare(cardRare))].rare.Truthy()
    ensures var card := catalogue[FirstLookup(catalogue, cardNumber, NormalizeRare(cardRare))];
      var once := AddedFromDeck(catalogue, deck, cardNumber, cardRare);
      AddedFromDeck(catalogue, once, cardNumber, cardRare) == deck + [Pushed(card), Pushed(card)]
  {
    var card := catalogue[FirstLookup(catalogue, cardNumber, NormalizeRare(cardRare))];
    AddedCardFalsyRareAppends(deck, card);
    AddedCardFalsyRareAppends(deck + [Pushed(card)], card);
  }

  /** "+" then "-" on a card the deck does not hold yet leaves the deck as
      it was: the appended entry is the first one the removal finds. */
  lemma AddThenRemoveRestores(catalogue: seq<Card>, deck: seq<Card>, cardNumber: JsString, cardRare: JsString)
    requires FirstLookup(catalogue, cardNumber, NormalizeRare(cardRare)) >= 0
    requires forall j :: 0 <= j < |deck| ==> !LookupMatches(deck[j], cardNumber, NormalizeRare(cardRare))
    ensures RemovedOne(AddedFromDeck(catalogue, deck, cardNumber, cardRare), cardNumber, cardRare) == deck
  {
    var nr := NormalizeRare(cardRare);
    var card := catalogue[FirstLookup(catalogue, cardNumber, nr)];
    assert forall j :: 0 <= j < |deck| ==> !SameRaw(deck[j], card);
    var added := deck + [Pushed(card)];
    assert AddedFromDeck(catalogue, deck, cardNumber, cardRare) == added;
    assert LookupMatches(added[|deck|], cardNumber, nr);
    assert FirstLookup(added, cardNumber, nr) == |deck|;
    assert RemoveAt(added, |deck|) == deck;
  }
}
