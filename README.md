# Card site deck bookkeeping, in Dafny

This project models the deck bookkeeping of a trading-card web site and
proves properties of that model. The site has an Express server, `pa.js`,
and browser scripts under `scripts/`. A visitor builds a deck on a series
page, then saves, shares and copies it.

The model covers these parts:

- **The server's temporary deck** (module `ServerDeck`). This is the deck
  document of an anonymous user that holds no `deckName` yet. It covers:
  - `POST /deck/add`, which raises the count of an entry with the same card
    number and rarity, or pushes a new entry with default fields;
  - `POST /deck/remove`, which lowers the count of the first matching
    entry and splices it out at zero;
  - the reset on entering a series page, which deletes a temporary deck
    that holds cards of another series.

  The document store is replaced by one field of class `TempDeckStore`.
- **`mergeDeck`** (module `MergeDeck`). It folds equal cards into one entry
  per `${card_number}-${rare}` key. The `forEach` that fills `cardMap` and
  the `for … in` that reads it back are methods, proved equal to a
  functional merge. The order of the read-back is insertion order, because
  every key contains `-` and so is never an array index.
- **`escapeHtml`** (module `Escape`). It is the five chained
  `replace(/c/g, …)` calls. It is proved equal to escaping each character
  on its own, free of markup, and invertible.
- **The card page** (modules `CardFilter`, `ClientDeck`, `DeckCount`,
  `DeckName`):
  - `applyFilters` over the card elements, as an in-place update of an
    array of display flags;
  - the `+` and `-` buttons of a deck entry (`addToDeckFromDeck` and
    `removeOneFromDeck`), on class `DeckBuilder`;
  - the card count of `updateDeckDisplay` in both display modes;
  - the deck-name rule of `saveDeck`.
- **The shared-deck page** (module `DeckDetails`). It sorts the deck in
  place by `getEnergySortKey`; the sort is stable and is a permutation. It
  also models the guard of the copy button.
- **The usage page's slide show** (module `Slider`). It has `goTo`, the
  prev, next and dot buttons, and the touch swipe.

Two shared modules support the rest:

- `Js` models the JavaScript semantics the core relies on:
  - `undefined`, `null` and strings with `===` and truthiness;
  - `||` with a string fallback and template-literal conversion;
  - `findIndex`;
  - `%` with truncating division;
  - the character-class `replace` patterns;
  - `trim`, UTF-16 `length`, and `parseInt` followed by `toString`.
- `Cards` holds the deck entry record and the card-count sum.

## Model

| member | source | states |
|---|---|---|
| Js.JsRem | scripts/use.js:15 | JavaScript `%` with a positive divisor truncates toward zero: the Euclidean remainder for a non-negative dividend, and minus the remainder of `-a` (in (-b, 0]) for a negative one |
| Js.Trim | scripts/card-details.js:295 | the result is a contiguous slice of the input with only whitespace before and after it, and it neither starts nor ends with whitespace |
| Js.Utf16Length | scripts/card-details.js:299 | `length` counts between one and two code units per character, and is 0 only for the empty string |
| Js.Utf16LengthSingle | scripts/card-details.js:299 | a character above U+FFFF counts as two code units, any other as one |
| Js.Utf16LengthAppend | scripts/card-details.js:299 | the length of a concatenation is the sum of the lengths, so `length` is the per-character count summed |
| Js.RemoveChars | scripts/card-details.js:268 | after a global character-class `replace` with '' no character of the class is left; text without one is unchanged |
| Js.RemoveCharsAppend | scripts/card-details.js:268 | the removal works per character: on a concatenation it is the removal of each part, so the other characters survive in order |
| Js.RemoveCharsSingle | scripts/card-details.js:268 | one character is dropped exactly when it is in the class |
| Js.KeepChars | scripts/card-details.js:582 | a `[^0-9]` removal keeps only characters of the class, and nothing from text without one |
| Js.KeepCharsAppend | scripts/card-details.js:582 | on a concatenation the kept characters are those of each part, in order |
| Js.KeepCharsSingle | scripts/card-details.js:582 | one character is kept exactly when it is in the class |
| Js.DigitsValueOfNatToString | scripts/deck-details.js:35 | reading back the decimal numeral `toString` writes gives the same number |
| Js.ParseIntTextOfNumeral | scripts/card-details.js:265 | `parseInt(x, 10).toString()` of a decimal numeral is the numeral itself |
| Js.ParseIntTextOfWord | scripts/card-details.js:265 | `parseInt` of text starting with a lower-case ASCII letter (such as a missing attribute read as "null") prints as `NaN` |
| Cards.TotalCountUpdate | scripts/card-details.js:733 | changing one entry's count changes the deck's total by exactly the difference |
| Cards.TotalCountRemoveAt | scripts/card-details.js:735 | `splice(i, 1)` lowers the deck's total by that entry's count, and shifts the later entries down by one |
| ServerDeck.Increment | pa.js:309 | `cardItem.number \|\| 1`: the given number when it is present and non-zero, and 1 when it is absent or 0 |
| ServerDeck.FirstSameKey | pa.js:307 | the entry the add handler finds is the first with `===` card number and rarity; -1 exactly when there is none |
| ServerDeck.NewEntry | pa.js:311-320 | a pushed entry has the item's card number, rarity and details and the count `number \|\| 1`; image, name, series and price are the item's when truthy and the defaults `/images/default-card.png`, `無名稱`, `未知系列`, `0 円` otherwise |
| ServerDeck.ItemsToAdd | pa.js:304 | an array `cards` wins over `card`; a lone `card` gives one item; a rejected request adds nothing |
| ServerDeck.FirstRemoveMatch | pa.js:349-360 | the entry the remove handler finds is the first that matches (card number only for action-point cards, otherwise also the rarity or a falsy rarity on either side); -1 exactly when none matches |
| ServerDeck.DecrementAt | pa.js:362-366 | the entry loses one copy in place, or is spliced out when its count drops to 0 or below; every other entry keeps its order |
| ServerDeck.AddItems | pa.js:306-322 | the `forEach` over the items leaves the deck that adding the items one after another gives |
| ServerDeck.TempDeckStore.constructor | pa.js:297-301 | the store starts with the user's temporary deck, if any |
| ServerDeck.TempDeckStore.EnterSeries | pa.js:246-252 | the temporary deck is deleted exactly when the reset rule holds and is otherwise untouched |
| ServerDeck.TempDeckStore.Add | pa.js:288-330 | 400 with no change when neither an array `cards` nor a `card` is given; otherwise 200, with the temporary deck (created empty if missing) holding every item added in order |
| ServerDeck.TempDeckStore.Remove | pa.js:332-376 | 400 with no change without a card number; 404 with no change when there is no deck or no match; otherwise 200, with the first match decremented or spliced out |
| ServerDeck.AddOneExisting | pa.js:307-309 | adding a present key changes only the first entry with that key, whose count grows by the increment |
| ServerDeck.AddOneNew | pa.js:310-321 | adding a new key appends exactly one entry with the handler's defaults and keeps every earlier entry |
| ServerDeck.AddOneTotal | pa.js:306-322 | one added item raises the deck's card count by its increment |
| ServerDeck.AddAllTotal | pa.js:306-322 | a whole request raises the card count by the sum of its items' increments |
| ServerDeck.AddOneKeepsKeysDistinct | pa.js:307-321 | one add never creates a second entry for a card number and rarity |
| ServerDeck.AddAllKeepsKeysDistinct | pa.js:306-322 | a whole request keeps at most one entry per card number and rarity |
| ServerDeck.AddAllKeepsPositive | pa.js:306-322 | counts stay positive while every item adds at least one copy |
| ServerDeck.RemoveFromFirstMatch | pa.js:362-366 | a removal lowers the first match by one copy, or removes it when it held one, and keeps every other entry in place |
| ServerDeck.RemoveFromNoMatch | pa.js:369-371 | with no match the deck is left exactly as it was |
| ServerDeck.RemoveFromTotal | pa.js:362-366 | a removal that finds an entry holding a copy lowers the card count by exactly one |
| ServerDeck.RemoveFromKeepsInvariants | pa.js:350-366 | removal keeps one entry per key and keeps every count positive |
| ServerDeck.AddThenRemoveRestores | pa.js:288-376 | adding one copy and then removing it restores the deck, when both handlers find the same entry (or both find none) |
| ServerDeck.AddNewThenRemove | pa.js:310-366 | a new card added once and removed once leaves the deck as it was |
| ServerDeck.AddExistingThenRemove | pa.js:307-366 | an extra copy of a held card, added and removed, leaves the deck as it was |
| ServerDeck.ResetOnEnterIff | pa.js:246-252 | the temporary deck is deleted exactly when it holds a card whose series is not the requested one |
| MergeDeck.FirstWithKey | pa.js:134-135 | the first card of a key, or -1 exactly when no card has it |
| MergeDeck.View | pa.js:142-143 | the merged list reads `cardMap` in insertion order, one entry per key |
| MergeDeck.FillCardMap | pa.js:133-140 | the first loop leaves a `cardMap` whose insertion-ordered contents are the merge of the cards |
| MergeDeck.PushValues | pa.js:142-144 | the `for … in` pushes the value of each key in insertion order |
| MergeDeck.MergeCards | pa.js:129-147 | the two loops of `mergeDeck`, for any key function, return the functional merge of the cards |
| MergeDeck.MergeDeckCards | pa.js:129-147 | `mergeDeck` with its `${card_number}-${rare}` key returns the merge, with one entry per key and counts adding up to the number of cards |
| MergeDeck.MapStepExisting | pa.js:135-136 | a repeated key's `number += 1` is the merge step on the insertion-ordered view |
| MergeDeck.MapStepNew | pa.js:137-138 | a new key's `{ ...card, number: 1 }` is the merge step that appends an entry |
| MergeDeck.MergeOneHasKey | pa.js:133-140 | after one step, the merged keys are the old ones plus the card's |
| MergeDeck.MergeOneKeepsDistinct | pa.js:133-140 | one step never duplicates a key |
| MergeDeck.MergedKeysDistinct | pa.js:129-147 | the merged deck holds each key once |
| MergeDeck.MergedHasKey | pa.js:129-147 | the merged deck has exactly the keys of the input |
| MergeDeck.MergedCounts | pa.js:133-140 | each merged entry's `number` is the number of input cards with its key |
| MergeDeck.MergedFirstCards | pa.js:138 | each merged entry is the first input card of its key, with only `number` replaced |
| MergeDeck.MergedFirstOrder | pa.js:142-143 | merged entries come in the order of the first occurrences of their keys |
| MergeDeck.MergedTotal | pa.js:129-147 | the merged counts add up to the number of input cards |
| MergeDeck.MergeKeyInjective | pa.js:134 | for card numbers without `-`, equal keys mean equal card number and rarity |
| MergeDeck.MergeKeyCollides | pa.js:134 | with `-` in a card number, or a `null` field, two different cards share one key |
| Escape.ReplaceAll | pa.js:574-578 | a global replace of a character that does not occur leaves the text unchanged |
| Escape.EscapeChar | pa.js:573-578 | each of `& < > " '` becomes an entity from `&` to `;`; every other character stays itself |
| Escape.EscapeHtmlAppend | pa.js:572-579 | escaping distributes over concatenation |
| Escape.EscapeHtmlChar | pa.js:572-579 | on one character the five passes produce just that character's entity |
| Escape.EscapeHtmlIsEscapeEach | pa.js:572-579 | the five chained passes equal escaping every character on its own |
| Escape.EscapeHtmlHasNoMarkup | pa.js:572-579 | the escaped text contains no `<`, `>`, `"` or `'` |
| Escape.EscapeHtmlPlain | pa.js:572-579 | text without the five special characters comes back unchanged |
| Escape.UnescapeStep | pa.js:573-578 | reading an entity back gives its character, whatever follows it |
| Escape.EscapeHtmlRoundTrip | pa.js:572-579 | unescaping the output gives back the input, because `&` is replaced first |
| CardFilter.StripColourPrefix | scripts/card-details.js:268 | a leading `綠-`, `黃-`, `紅-` or `藍-` is removed (once); text without one is unchanged |
| CardFilter.FirstWithoutColour | scripts/card-details.js:263-268 | the first card whose `data-color` is missing (where `replace` throws), or the number of cards |
| CardFilter.ApplyFilters | scripts/card-details.js:246-287 | with no filter every card is shown and nothing throws; otherwise each card before the first one without a colour is shown exactly when it meets all five criteria, the rest keep their display, and it throws exactly when such a card exists |
| CardFilter.NoFiltersMatchAll | scripts/card-details.js:250-285 | the early return agrees with the criteria: with no filter every card passes all five |
| CardFilter.RarityAP | scripts/card-details.js:272-275 | the rarity value "AP" selects cards by an "AP" in the card number, not by rarity |
| CardFilter.RarityPrefix | scripts/card-details.js:272-277 | any other rarity value selects by a prefix of the card's rarity, and a card without one never passes |
| CardFilter.NormalizeColourClean | scripts/card-details.js:268 | the compared colour contains no digit and no `+` |
| CardFilter.PrefixAndCostIsColourless | scripts/card-details.js:268-278 | a colour prefix followed by digits and `+` leaves an empty colour, which the filter reads as `無` |
| CardFilter.EnergyNull | scripts/card-details.js:279 | a missing energy, or the text "null", never passes an energy filter |
| CardFilter.APNumeral | scripts/card-details.js:265-280 | an AP written as a decimal numeral passes exactly when that numeral is selected |
| CardFilter.APMissing | scripts/card-details.js:265-280 | a missing AP reads as `NaN` and passes only when "NaN" is selected |
| ClientDeck.NormalizeRare | scripts/card-details.js:720 | `null` and "null" become `無資料`; every other value, `undefined` included, is kept |
| ClientDeck.FirstLookup | scripts/card-details.js:722-725 | the first entry with `===` card number whose rarity (falsy read as `無資料`) equals the normalised one; -1 exactly when none matches |
| ClientDeck.FirstSameRaw | scripts/card-details.js:808 | the first entry equal to the catalogue card on the raw card number and rarity; -1 exactly when none is |
| ClientDeck.DeckBuilder.constructor | scripts/card-details.js:719-813 | the page starts with its card catalogue and deck |
| ClientDeck.DeckBuilder.RemoveOne | scripts/card-details.js:719-736 | the deck becomes the one-copy removal of the looked-up entry |
| ClientDeck.DeckBuilder.AddFromDeck | scripts/card-details.js:799-850 | reports whether the catalogue has the card; the deck becomes the one-copy addition of that card, or stays unchanged when it is not found |
| ClientDeck.RemovedOneNoMatch | scripts/card-details.js:727-729 | without a match the deck stays as it is |
| ClientDeck.RemovedOneMatch | scripts/card-details.js:731-736 | the first match loses one copy, or is spliced out with one copy or fewer; every other entry keeps its place |
| ClientDeck.RemovedOneTotal | scripts/card-details.js:731-736 | with positive counts, a removal that finds its entry lowers the card count by one |
| ClientDeck.RemovedOneFalsyRare | scripts/card-details.js:720-725 | an `undefined` or empty rarity is not normalised, and no entry reads as it, so such a removal never finds an entry |
| ClientDeck.AddedFromDeckNotFound | scripts/card-details.js:847-850 | a card the catalogue lacks changes nothing |
| ClientDeck.AddedCardShape | scripts/card-details.js:807-813 | an entry equal on both raw fields gains one copy and nothing else changes; otherwise the catalogue card is appended with all its fields, a rarity of `無資料` when its own is falsy, and one copy |
| ClientDeck.AddedCardTotal | scripts/card-details.js:807-813 | adding a catalogue card raises the card count by one |
| ClientDeck.AddedFromDeckTotal | scripts/card-details.js:799-813 | a `+` that finds its card raises the card count by exactly one |
| ClientDeck.AddedCardFalsyRareAppends | scripts/card-details.js:808-812 | a catalogue card without a rarity never meets the `無資料` entry pushed for it, so each add appends another entry |
| ClientDeck.AddedFromDeckTwiceFalsyRare | scripts/card-details.js:799-812 | two `+` on a rarity-less card leave two separate one-copy entries |
| ClientDeck.AddThenRemoveRestores | scripts/card-details.js:719-813 | `+` then `-` on a card the deck does not hold leaves the deck as it was |
| DeckCount.EnergyGroupKey | scripts/card-details.js:582-583 | a card without an energy detail (or an empty one) is in group `無`; otherwise its group is the digits of the energy, or "0" when it has none |
| DeckCount.CountInOrder | scripts/card-details.js:647-679 | the original-order count is the sum of `number` over the deck |
| DeckCount.GroupEntries | scripts/card-details.js:579-589 | `groupMap` has one list per group, holding that group's entries in deck order, and its keys are each group once |
| DeckCount.GroupLookup | scripts/card-details.js:599 | every group the sort lists is in `groupMap`, holding exactly its entries |
| DeckCount.CountByGroups | scripts/card-details.js:597-643 | the energy-order count, over any listing of the groups, is the deck's card count |
| DeckCount.DeckCardCount | scripts/card-details.js:577-679 | both display modes show the same card count, the sum of `number` over the deck |
| DeckCount.ListsGroupsPush | scripts/card-details.js:584-585 | one more entry adds its group to the listing only when the group is new |
| DeckCount.GroupTotalPush | scripts/card-details.js:598-641 | one more entry adds its count to the group total exactly when its group is listed |
| DeckCount.GroupTotalIsTotal | scripts/card-details.js:597-643 | the groups partition the deck: over distinct keys that cover every entry, the group counts sum to the card count |
| DeckName.ResolveDeckName | scripts/card-details.js:295-314 | refused exactly when the trimmed name is longer than 8 UTF-16 code units; otherwise the trimmed name, or when that is empty, the drawn name |
| DeckName.DrawName | scripts/card-details.js:305-313 | the two loops build the two drawn letters followed by the two drawn digits |
| DeckName.DrawnNameShape | scripts/card-details.js:304-314 | a generated name is two lower-case ASCII letters followed by two ASCII digits |
| DeckName.AcceptedNameShort | scripts/card-details.js:299 | an accepted name has at most 8 characters, whatever plane they come from |
| DeckDetails.EnergyColour | scripts/deck-details.js:34 | the colour is the energy with its digits and `-` removed, and `無` when nothing is left |
| DeckDetails.ColourIndex | scripts/deck-details.js:36-37 | the first position of the colour in `colorOrder`, and 99 exactly when it is not listed |
| DeckDetails.EnergySortKey | scripts/deck-details.js:32-38 | the colour part of the key is one of the five positions or 99 |
| DeckDetails.Insert | scripts/deck-details.js:39-44 | one insertion step extends the sorted prefix by one entry, permutes the deck and keeps each key's entries in order |
| DeckDetails.SortBy | scripts/deck-details.js:39-44 | the deck ends sorted by colour index and then number, is a permutation of the old deck, and keeps the relative order of entries with equal keys, as the stable `Array.prototype.sort` does |
| DeckDetails.SortDeck | scripts/deck-details.js:39-44 | the shared deck is sorted by `getEnergySortKey`, as a permutation, stably |
| DeckDetails.SwapKeepsOrderPerKey | scripts/deck-details.js:39-44 | swapping neighbours of different keys leaves every key's entries in the same order |
| DeckDetails.NoColourIsNone | scripts/deck-details.js:33-34 | an energy of digits and `-` only, or a missing one, sorts as `無` |
| DeckDetails.KeyOfColourAndNumber | scripts/deck-details.js:32-38 | an energy written as a listed colour and a numeral sorts by that colour's position and that number |
| DeckDetails.CopyDeck | scripts/deck-details.js:57-78 | nothing is copied exactly when `data-deck` is missing, the deck is empty or the first card has no series; otherwise the whole deck is stored and the page goes to the first card's non-empty series |
| Slider.GoToIndex | scripts/use.js:15 | from `-total` on, the index is `i` modulo `total` on the ring; below `-total` the JavaScript remainder is 0 or negative, so the index can leave the ring |
| Slider.Dots | scripts/use.js:17-19 | one dot per slide, active exactly at the current index |
| Slider.SwipeTarget | scripts/use.js:52-55 | a swipe of more than 40 pixels to the left goes to the next slide and to the right to the previous one, wrapping round; anything shorter stays |
| Slider.Slider.constructor | scripts/use.js:8-12 | `total` slides at slide 0, no swipe, and the dots and offset that the first `goTo(0)` sets |
| Slider.Slider.GoTo | scripts/use.js:14-20 | the index becomes `(i + total) % total`, the strip moves to `index * 100` percent and the dots follow; the touch state is untouched |
| Slider.Slider.Prev | scripts/use.js:36 | the previous slide, the last one from the first, with the page state consistent |
| Slider.Slider.Next | scripts/use.js:37 | the next slide, the first one from the last, with the page state consistent |
| Slider.Slider.ClickDot | scripts/use.js:32 | the dot's slide becomes current; the touch state is untouched |
| Slider.Slider.TouchStart | scripts/use.js:44-48 | records the start position and clears the move; the slide is untouched |
| Slider.Slider.TouchMove | scripts/use.js:49-51 | the move is the distance from the start; the slide is untouched |
| Slider.Slider.TouchEnd | scripts/use.js:52-57 | the slide becomes the swipe's target |
| Slider.NextWraps | scripts/use.js:37 | next from the last slide is the first |
| Slider.PrevWraps | scripts/use.js:36 | prev from the first slide is the last |
| Slider.GoToBelowRange | scripts/use.js:15 | `goTo(-total - 1)` gives index -1: the formula only wraps from `-total` up |
| Slider.ExactlyOneDot | scripts/use.js:17-19 | after `goTo` exactly one dot is active |
| Slider.TapKeepsSlide | scripts/use.js:44-55 | a tap without a move leaves the slide where it is |
| Slider.SwipeThereAndBack | scripts/use.js:52-55 | a long left swipe followed by a long right swipe comes back to the start |

## Left out

- HTTP, routing, sessions, cookies, CSRF tokens, rate limits and the database calls (`findOne`, `deleteOne`, `save`, `updateOne`), including the `Deck.updateOne` inside `mergeDeck`: I/O. The temporary deck document is one field.
- Error paths from the database (`catch` blocks answering 500): I/O.
- The server's other routes (`/deck/save`, comments, the `/bobo` shuffle, `generateUniqueDeckName`): they are not in the modelled core.
- `scripts/index.js`, `scripts/decks.js` and `scripts/series.js`: they are not part of this model.
- DOM rendering, `alert`, `console.error`, `fetch` to the server, and the server's response replacing the page's deck afterwards: I/O. The deck update before the `fetch` is modelled.
- Prices (`parseFloat` of `money`, `Math.round` of the total): floating point.
- The comparator that orders the energy groups on the card page (`Object.keys(groupMap).sort(...)`). The order is a parameter; `DeckCount.CountByGroups` holds for any order that lists each group once, which `Object.keys` always gives.
- `highlightKeywords`, the character-name filter and card rendering in `scripts/card-details.js`: not in the modelled core.
- `Math.random`: the four random indices of the deck-name rule are parameters.
- `html2canvas`, `encodeURIComponent`, `localStorage` and the page change of the copy button: I/O. `DeckDetails.CopyDeck` returns the stored deck and the series instead.
- The slide show's timers (`setInterval`, `clearInterval`, hover pause) and style writes: timers and DOM. `Slider.Slider.Next` also stands for the timer's tick.
- `Slider.Slider.constructor`: the page with no slides is left out (`total` 0 makes `goTo` produce `NaN`). Touch positions are integers rather than fractional pixels.
- Numbers: `number` and `AP` values are unbounded integers. JSON numbers that are fractional or beyond 2^53, a `number` sent as a string (where `+=` would concatenate), and `parseInt` precision loss on long digit runs are not modelled.
- An element of an array `cards` in an add request that is `null` or not an object: reading its `card_number` throws a TypeError, the request is answered 500 and the deck is not saved. Items are always objects in the model.
- A `data-deck` attribute that is not valid JSON: `JSON.parse` throws and nothing is copied. `DeckDetails.CopyDeck` takes the parsed deck.
- Card fields that are neither strings, `null` nor `undefined` (objects or numbers in `card_number` or `rare`), a `card` in a request that is a truthy non-object, and a `data-deck` that is valid JSON but not an array: not modelled.
- `CardFilter.ApplyFilters`: the `TypeError` thrown at a card without `data-color` is the result `threw`; the cards from there on keep their display, as after the thrown exception.
- `ServerDeck.RemoveFromTotal`: states the drop by exactly one only for an entry with at least one copy, since a stored count of 0 or below is spliced out whole.
- `ClientDeck.RemovedOneTotal`: states the drop by one only for decks whose counts are all positive, for the same reason.
- `ServerDeck.AddThenRemoveRestores`: assumes the add and the remove handler find the same entry. Their lookups differ (strict rarity against loosened rarity), and the other cases are not covered.
