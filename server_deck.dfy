/**
 * The server's temporary deck (the deck document of an anonymous user that
 * has no `deckName` yet) and the three request handlers that change it:
 * entering a series page, `POST /deck/add` and `POST /deck/remove`. The
 * database is replaced by one field holding the document's card list, or
 * `None` when the user has no temporary deck.
 */
module ServerDeck {
  import opened Js
  import opened Cards

  /** One card of a request body as the browser sends it; any field may be
      absent. `number` is `None` when absent. */
  datatype CardItem = CardItem(
    cardNumber: JsString,
    rare: JsString,
    imageUrl: JsString,
    cardName: JsString,
    series: JsString,
    details: Details,
    money: JsString,
    number: Option<int>)

  datatype Status = Ok | BadRequest | NotFound

  /** `cardItem.number || 1`: an absent or zero count adds one copy. */
  function Increment(item: CardItem): (n: int)
    ensures n != 0
    ensures item.number.Some? && item.number.value != 0 ==> n == item.number.value
    ensures item.number.None? || item.number == Some(0) ==> n == 1
  {
    match item.number
    case Some(k) => if k != 0 then k else 1
    case None => 1
  }

  /** The lookup of the add handler: same card number and same rarity, by `===`. */
  predicate SameKey(c: Card, item: CardItem) {
    c.cardNumber == item.cardNumber && c.rare == item.rare
  }

  function FirstSameKey(deck: seq<Card>, item: CardItem): (r: int)
    ensures -1 <= r < |deck|
    ensures r == -1 <==> forall j :: 0 <= j < |deck| ==> !SameKey(deck[j], item)
    ensures 0 <= r ==> SameKey(deck[r], item) && forall j :: 0 <= j < r ==> !SameKey(deck[j], item)
  {
    FindIndex(deck, (c: Card) => SameKey(c, item))
  }

  /** The entry the add handler pushes for a card it has not seen: the
      item's key and details, its count `number || 1`, and each of image,
      name, series and price kept when truthy and defaulted otherwise. */
  function NewEntry(item: CardItem): (c: Card)
    ensures SameKey(c, item)
    ensures c.details == item.details && c.number == Increment(item)
    ensures c.imageUrl == Text(item.imageUrl.OrElse("/images/default-card.png"))
    ensures c.cardName == Text(item.cardName.OrElse("無名稱"))
    ensures c.series == Text(item.series.OrElse("未知系列"))
    ensures c.money == Text(item.money.OrElse("0 円"))
    ensures item.imageUrl.Truthy() ==> c.imageUrl == item.imageUrl
    ensures item.cardName.Truthy() ==> c.cardName == item.cardName
    ensures item.series.Truthy() ==> c.series == item.series
    ensures item.money.Truthy() ==> c.money == item.money
    ensures c.imageUrl.Truthy() && c.cardName.Truthy() && c.series.Truthy() && c.money.Truthy()
  {
    Card(
      item.cardNumber,
      item.rare,
      Text(item.imageUrl.OrElse("/images/default-card.png")),
      Text(item.cardName.OrElse("無名稱")),
      Text(item.series.OrElse("未知系列")),
      item.details,
      Text(item.money.OrElse("0 円")),
      Increment(item))
  }

  /** One iteration of the add handler's `forEach`. */
  function AddOne(deck: seq<Card>, item: CardItem): seq<Card> {
    var i := FirstSameKey(deck, item);
    if i >= 0 then deck[i := deck[i].(number := deck[i].number + Increment(item))]
    else deck + [NewEntry(item)]
  }

  /** The whole `forEach`: the items are added one after another, each
      seeing the entries the earlier ones created. */
  function AddAll(deck: seq<Card>, items: seq<CardItem>): seq<Card>
    decreases |items|
  {
    if items == [] then deck
    else AddOne(AddAll(deck, items[..|items| - 1]), items[|items| - 1])
  }

  /** The sum of the increments of a list of items. */
  function IncrementSum(items: seq<CardItem>): int
    decreases |items|
  {
    if items == [] then 0 else IncrementSum(items[..|items| - 1]) + Increment(items[|items| - 1])
  }

  /** The `cards` field of an add request: absent (or falsy), present but
      not an array, or an array of items. */
  datatype CardsField = Missing | NotAnArray | CardList(items: seq<CardItem>)

  datatype AddRequest = AddRequest(cards: CardsField, card: Option<CardItem>)

  /** `(!cards || !Array.isArray(cards)) && !card`. */
  predicate AddRejected(req: AddRequest) {
    !req.cards.CardList? && req.card.None?
  }

  /** `Array.isArray(cards) ? cards : card ? [card] : []`. */
  function ItemsToAdd(req: AddRequest): (items: seq<CardItem>)
    ensures req.cards.CardList? ==> items == req.cards.items
    ensures !req.cards.CardList? && req.card.Some? ==> items == [req.card.value]
    ensures AddRejected(req) ==> items == []
  {
    if req.cards.CardList? then req.cards.items
    else if req.card.Some? then [req.card.value]
    else []
  }

  datatype RemoveRequest = RemoveRequest(card: Option<CardItem>)

  /** `!card || !card.card_number`. */
  predicate RemoveRejected(req: RemoveRequest) {
    req.card.None? || !req.card.value.cardNumber.Truthy()
  }

  const CardKindKey: string := "カード種類"

  /** Action-point cards, whose `カード種類` detail is `アクションポイント` or `行動卡`. */
  predicate IsActionPoint(item: CardItem) {
    CardKindKey in item.details &&
    (item.details[CardKindKey] == "アクションポイント" || item.details[CardKindKey] == "行動卡")
  }

  /** The lookup of the remove handler: action-point cards match on the
      card number alone; other cards also need equal rarities, or a falsy
      rarity on either side. */
  predicate RemoveMatches(c: Card, item: CardItem) {
    if IsActionPoint(item) then c.cardNumber == item.cardNumber
    else c.cardNumber == item.cardNumber && (c.rare == item.rare || !c.rare.Truthy() || !item.rare.Truthy())
  }

  function FirstRemoveMatch(deck: seq<Card>, item: CardItem): (r: int)
    ensures -1 <= r < |deck|
    ensures r == -1 <==> forall j :: 0 <= j < |deck| ==> !RemoveMatches(deck[j], item)
    ensures 0 <= r ==> RemoveMatches(deck[r], item) && forall j :: 0 <= j < r ==> !RemoveMatches(deck[j], item)
  {
    FindIndex(deck, (c: Card) => RemoveMatches(c, item))
  }

  /** `number -= 1`, then `splice(i, 1)` when the number is no longer positive. */
  function DecrementAt(deck: seq<Card>, i: nat): (r: seq<Card>)
    requires i < |deck|
    ensures deck[i].number - 1 <= 0 ==> r == deck[..i] + deck[i + 1..]
    ensures deck[i].number - 1 > 0 ==>
      r == deck[..i] + [deck[i].(number := deck[i].number - 1)] + deck[i + 1..]
  {
    var n := deck[i].number - 1;
    if n <= 0 then RemoveAt(deck, i) else deck[i := deck[i].(number := n)]
  }

  /** The remove handler on a deck that exists: the first match loses one
      copy; no match leaves the deck as it is (and answers 404). */
  function RemoveFrom(deck: seq<Card>, item: CardItem): seq<Card> {
    var i := FirstRemoveMatch(deck, item);
    if i < 0 then deck else DecrementAt(deck, i)
  }

  /** The series the cards of a deck belong to, `new Set(cards.map(c => c.series))`. */
  function DeckSeries(cards: seq<Card>): set<JsString> {
    set c | c in cards :: c.series
  }

  /** Entering `/cards/:series` deletes the temporary deck when it is not
      empty and its set of series is not exactly the requested one. */
  predicate ResetOnEnter(temp: Option<seq<Card>>, series: string) {
    temp.Some? && |temp.value| > 0 &&
    (|DeckSeries(temp.value)| != 1 || Text(series) !in DeckSeries(temp.value))
  }

  /** No two entries share a card number and a rarity. */
  predicate KeysDistinct(deck: seq<Card>) {
    forall i, j :: 0 <= i < j < |deck| ==>
      deck[i].cardNumber != deck[j].cardNumber || deck[i].rare != deck[j].rare
  }

  /** The `forEach` of the add handler over the items, on the entries of
      the temporary deck. */
  method AddItems(deck: seq<Card>, toAdd: seq<CardItem>) returns (cards: seq<Card>)
    ensures cards == AddAll(deck, toAdd)
  {
    cards := deck;
    for k := 0 to |toAdd|
      invariant cards == AddAll(deck, toAdd[..k])
    {
      var item := toAdd[k];
      assert toAdd[..k + 1][..k] == toAdd[..k] && toAdd[..k + 1][k] == item;
      var i := FirstSameKey(cards, item);
      if i >= 0 {
        cards := cards[i := cards[i].(number := cards[i].number + Increment(item))];
      } else {
        cards := cards + [NewEntry(item)];
      }
    }
    assert toAdd[..|toAdd|] == toAdd;
  }

  class TempDeckStore {
    /** The card list of the user's temporary deck document, if there is one. */
    var temp: Option<seq<Card>>

    constructor (initial: Option<seq<Card>>)
      ensures temp == initial
    {
      temp := initial;
    }

    /** The check at the start of `GET /cards/:series`. */
    method EnterSeries(series: string)
      modifies this
      ensures temp == if ResetOnEnter(old(temp), series) then None else old(temp)
    {
      if temp.Some? && |temp.value| > 0 {
        var seriesSet := set c | c in temp.value :: c.series;
        if |seriesSet| != 1 || Text(series) !in seriesSet {
          temp := None;
        }
      }
    }

    /** `POST /deck/add`. A missing temporary deck is created empty first. */
    method Add(req: AddRequest) returns (status: Status)
      modifies this
      ensures status == if AddRejected(req) then BadRequest else Ok
      ensures AddRejected(req) ==> temp == old(temp)
      ensures !AddRejected(req) ==> temp == Some(AddAll(old(temp).GetOr([]), ItemsToAdd(req)))
    {
      if (!req.cards.CardList?) && req.card.None? {
        return BadRequest;
      }
      var cards := if temp.Some? then temp.value else [];
      var toAdd := if req.cards.CardList? then req.cards.items
                   else if req.card.Some? then [req.card.value] else [];
      cards := AddItems(cards, toAdd);
      temp := Some(cards);
      status := Ok;
    }

    /** `POST /deck/remove`. */
    method Remove(req: RemoveRequest) returns (status: Status)
      modifies this
      ensures RemoveRejected(req) ==> status == BadRequest && temp == old(temp)
      ensures !RemoveRejected(req) && old(temp).None? ==> status == NotFound && temp == old(temp)
      ensures !RemoveRejected(req) && old(temp).Some? ==>
        var i := FirstRemoveMatch(old(temp).value, req.card.value);
        (i == -1 ==> status == NotFound && temp == old(temp)) &&
        (i >= 0 ==> status == Ok && temp == Some(DecrementAt(old(temp).value, i)))
    {
      if req.card.None? || !req.card.value.cardNumber.Truthy() {
        return BadRequest;
      }
      if temp.None? {
        return NotFound;
      }
      var cards := temp.value;
      var i := FirstRemoveMatch(cards, req.card.value);
      if i == -1 {
        return NotFound;
      }
      var entry := cards[i].(number := cards[i].number - 1);
      cards := cards[i := entry];
      if entry.number <= 0 {
        cards := RemoveAt(cards, i);
      }
      temp := Some(cards);
      status := Ok;
    }
  }

  // ---------------------------------------------------------------------
  // Properties of the add handler

  /** Adding a card whose key is present changes only the first entry with
      that key, whose count grows by `item.number || 1`. */
  lemma AddOneExisting(deck: seq<Card>, item: CardItem, j: nat)
    requires j < |deck| && SameKey(deck[j], item)
    requires forall k :: 0 <= k < j ==> !SameKey(deck[k], item)
    ensures |AddOne(deck, item)| == |deck|
    ensures AddOne(deck, item)[j] == deck[j].(number := deck[j].number + Increment(item))
    ensures forall k :: 0 <= k < |deck| && k != j ==> AddOne(deck, item)[k] == deck[k]
  {
  }

  /** Adding a card with a new key appends exactly one entry, with the
      defaults of the handler, and keeps every earlier entry. */
  lemma AddOneNew(deck: seq<Card>, item: CardItem)
    requires forall k :: 0 <= k < |deck| ==> !SameKey(deck[k], item)
    ensures AddOne(deck, item) == deck + [NewEntry(item)]
    ensures NewEntry(item).number == Increment(item)
    ensures NewEntry(item).imageUrl == Text(item.imageUrl.OrElse("/images/default-card.png"))
    ensures NewEntry(item).cardName == Text(item.cardName.OrElse("無名稱"))
    ensures NewEntry(item).series == Text(item.series.OrElse("未知系列"))
    ensures NewEntry(item).money == Text(item.money.OrElse("0 円"))
    ensures NewEntry(item).details == item.details
  {
  }

  /** Each added item raises the deck's card count by its increment. */
  lemma {:induction false} AddOneTotal(deck: seq<Card>, item: CardItem)
    ensures TotalCount(AddOne(deck, item)) == TotalCount(deck) + Increment(item)
  {
    var i := FirstSameKey(deck, item);
    if i >= 0 {
      TotalCountUpdate(deck, i, deck[i].(number := deck[i].number + Increment(item)));
    } else {
      TotalCountPush(deck, NewEntry(item));
    }
  }

  lemma {:induction false} AddAllTotal(deck: seq<Card>, items: seq<CardItem>)
    ensures TotalCount(AddAll(deck, items)) == TotalCount(deck) + IncrementSum(items)
    decreases |items|
  {
    if items != [] {
      AddAllTotal(deck, items[..|items| - 1]);
      AddOneTotal(AddAll(deck, items[..|items| - 1]), items[|items| - 1]);
    }
  }

  /** The add handler never creates a second entry for a key. */
  lemma {:induction false} AddOneKeepsKeysDistinct(deck: seq<Card>, item: CardItem)
    requires KeysDistinct(deck)
    ensures KeysDistinct(AddOne(deck, item))
  {
    var i := FirstSameKey(deck, item);
    var r := AddOne(deck, item);
    if i >= 0 {
      assert |r| == |deck|;
      assert forall k :: 0 <= k < |r| ==> r[k].cardNumber == deck[k].cardNumber && r[k].rare == deck[k].rare;
    } else {
      assert r == deck + [NewEntry(item)];
      forall a, b | 0 <= a < b < |r|
        ensures r[a].cardNumber != r[b].cardNumber || r[a].rare != r[b].rare
      {
        if b == |deck| {
          assert !SameKey(deck[a], item);
        }
      }
    }
  }

  lemma {:induction false} AddAllKeepsKeysDistinct(deck: seq<Card>, items: seq<CardItem>)
    requires KeysDistinct(deck)
    ensures KeysDistinct(AddAll(deck, items))
    decreases |items|
  {
    if items != [] {
      AddAllKeepsKeysDistinct(deck, items[..|items| - 1]);
      AddOneKeepsKeysDistinct(AddAll(deck, items[..|items| - 1]), items[|items| - 1]);
    }
  }

  /** Positive counts stay positive while every item adds at least one copy. */
  lemma {:induction false} AddAllKeepsPositive(deck: seq<Card>, items: seq<CardItem>)
    requires AllPositive(deck)
    requires forall k :: 0 <= k < |items| ==> Increment(items[k]) >= 1
    ensures AllPositive(AddAll(deck, items))
    decreases |items|
  {
    if items != [] {
      var front := items[..|items| - 1];
      AddAllKeepsPositive(deck, front);
      var d := AddAll(deck, front);
      var item := items[|items| - 1];
      assert Increment(item) >= 1;
      var i := FirstSameKey(d, item);
      if i < 0 {
        assert AddOne(d, item) == d + [NewEntry(item)];
      }
    }
  }

  // ---------------------------------------------------------------------
  // Properties of the remove handler

  /** Removal lowers the first match's count by one and keeps every other
      entry in its place; the match leaves only when its count reaches 0. */
  lemma RemoveFromFirstMatch(deck: seq<Card>, item: CardItem)
    requires FirstRemoveMatch(deck, item) >= 0
    ensures var i := FirstRemoveMatch(deck, item);
      var r := RemoveFrom(deck, item);
      (deck[i].number <= 1 ==> r == deck[..i] + deck[i + 1..]) &&
      (deck[i].number > 1 ==> r == deck[..i] + [deck[i].(number := deck[i].number - 1)] + deck[i + 1..])
  {
  }

  /** With no match the deck stays exactly as it was. */
  lemma RemoveFromNoMatch(deck: seq<Card>, item: CardItem)
    requires forall k :: 0 <= k < |deck| ==> !RemoveMatches(deck[k], item)
    ensures RemoveFrom(deck, item) == deck
  {
  }

  /** A successful removal of a card held at least once lowers the deck's
      card count by exactly one. */
  lemma {:induction false} RemoveFromTotal(deck: seq<Card>, item: CardItem)
    requires FirstRemoveMatch(deck, item) >= 0
    requires deck[FirstRemoveMatch(deck, item)].number >= 1
    ensures TotalCount(RemoveFrom(deck, item)) == TotalCount(deck) - 1
  {
    var i := FirstRemoveMatch(deck, item);
    if deck[i].number - 1 <= 0 {
      TotalCountRemoveAt(deck, i);
    } else {
      TotalCountUpdate(deck, i, deck[i].(number := deck[i].number - 1));
    }
  }

  lemma {:induction false} RemoveFromKeepsInvariants(deck: seq<Card>, item: CardItem)
    requires KeysDistinct(deck) && AllPositive(deck)
    ensures KeysDistinct(RemoveFrom(deck, item)) && AllPositive(RemoveFrom(deck, item))
  {
    var i := FirstRemoveMatch(deck, item);
    if i >= 0 {
      var r := RemoveFrom(deck, item);
      if deck[i].number - 1 <= 0 {
        assert r == RemoveAt(deck, i);
        forall a, b | 0 <= a < b < |r|
          ensures r[a].cardNumber != r[b].cardNumber || r[a].rare != r[b].rare
        {
          var a' := if a < i then a else a + 1;
          var b' := if b < i then b else b + 1;
          assert r[a] == deck[a'] && r[b] == deck[b'] && a' < b';
        }
      }
    }
  }

  /** Adding one copy of a card and then removing it restores the deck,
      provided the remove lookup lands on the entry that the add lookup
      found (or both find nothing) and that entry held at least one copy. */
  lemma {:induction false} AddThenRemoveRestores(deck: seq<Card>, item: CardItem)
    requires Increment(item) == 1
    requires FirstRemoveMatch(deck, item) == FirstSameKey(deck, item)
    requires FirstSameKey(deck, item) >= 0 ==> deck[FirstSameKey(deck, item)].number >= 1
    ensures RemoveFrom(AddOne(deck, item), item) == deck
  {
    if FirstSameKey(deck, item) < 0 {
      AddNewThenRemove(deck, item);
    } else {
      AddExistingThenRemove(deck, item, FirstSameKey(deck, item));
    }
  }

  lemma AddNewThenRemove(deck: seq<Card>, item: CardItem)
    requires Increment(item) == 1
    requires FirstRemoveMatch(deck, item) == -1
    requires FirstSameKey(deck, item) == -1
    ensures RemoveFrom(AddOne(deck, item), item) == deck
  {
    var added := deck + [NewEntry(item)];
    assert AddOne(deck, item) == added;
    assert RemoveMatches(added[|deck|], item);
    assert forall j :: 0 <= j < |deck| ==> added[j] == deck[j];
    var k := FirstRemoveMatch(added, item);
    assert k == |deck|;
    assert added[..|deck|] == deck;
  }

  lemma AddExistingThenRemove(deck: seq<Card>, item: CardItem, i: nat)
    requires Increment(item) == 1
    requires i < |deck| && deck[i].number >= 1
    requires FirstRemoveMatch(deck, item) == i
    requires FirstSameKey(deck, item) == i
    ensures RemoveFrom(AddOne(deck, item), item) == deck
  {
    var added := deck[i := deck[i].(number := deck[i].number + 1)];
    assert AddOne(deck, item) == added;
    assert RemoveMatches(added[i], item);
    assert forall j :: 0 <= j < i ==> added[j] == deck[j];
    var k := FirstRemoveMatch(added, item);
    assert k == i;
    assert added[i := added[i].(number := deck[i].number)] == deck;
  }

  // ---------------------------------------------------------------------
  // Property of the series check

  /** The temporary deck is deleted exactly when it holds a card of
      another series (a card that is not of the requested series). */
  lemma {:induction false} ResetOnEnterIff(temp: Option<seq<Card>>, series: string)
    ensures ResetOnEnter(temp, series) <==>
      temp.Some? && exists c :: c in temp.value && c.series != Text(series)
  {
    if temp.Some? {
      var s := DeckSeries(temp.value);
      var x := Text(series);
      if exists c :: c in temp.value && c.series != x {
        var c :| c in temp.value && c.series != x;
        assert c.series in s;
        if x in s {
          assert (s - {x}) - {c.series} == s - {x, c.series};
          assert |s - {x}| == |s| - 1 && c.series in s - {x};
        }
      } else if |temp.value| > 0 {
        assert temp.value[0] in temp.value;
        assert s == {x};
      }
    }
  }
}
