/**
 * `mergeDeck` of the server: a list of cards with repetitions is collapsed
 * into one entry per `${card_number}-${rare}` key, whose `number` counts
 * the occurrences of that key. The key is a string, so an `undefined` or
 * `null` field becomes the text "undefined" or "null" and two different
 * cards can share a key (card number "a-b" with rarity "c", and card
 * number "a" with rarity "b-c"). The merge is stated for any key function
 * `key`; `mergeDeck` uses `MergeKey`.
 */
module MergeDeck {
  import opened Js
  import opened Cards

  /** `${card.card_number}-${card.rare}`. */
  function MergeKey(cardNumber: JsString, rare: JsString): string {
    cardNumber.Template() + "-" + rare.Template()
  }

  /** A merge key is computed from a card's number and rarity alone. */
  type KeyFn = (JsString, JsString) -> string

  function KeyOf(key: KeyFn, c: Card): string {
    key(c.cardNumber, c.rare)
  }

  predicate HasKey(s: seq<Card>, key: KeyFn, k: string) {
    exists i :: 0 <= i < |s| && KeyOf(key, s[i]) == k
  }

  /** The index of the first card of `s` whose key is `k`, or -1. */
  function FirstWithKey(s: seq<Card>, key: KeyFn, k: string): (r: int)
    ensures -1 <= r < |s|
    ensures r == -1 <==> !HasKey(s, key, k)
    ensures 0 <= r ==> KeyOf(key, s[r]) == k && forall j :: 0 <= j < r ==> KeyOf(key, s[j]) != k
  {
    var r := FindIndex(s, (c: Card) => KeyOf(key, c) == k);
    assert r >= 0 ==> HasKey(s, key, k);
    r
  }

  /** The number of cards of `s` with key `k`. */
  function CountKey(s: seq<Card>, key: KeyFn, k: string): nat
    decreases |s|
  {
    if s == [] then 0
    else CountKey(s[..|s| - 1], key, k) + (if KeyOf(key, s[|s| - 1]) == k then 1 else 0)
  }

  predicate KeysDistinct(s: seq<Card>, key: KeyFn) {
    forall i, j :: 0 <= i < j < |s| ==> KeyOf(key, s[i]) != KeyOf(key, s[j])
  }

  /** One iteration of the `forEach` of `mergeDeck`, seen through the
      merged list: the first card of a key is copied with `number: 1`, each
      later card of that key adds one to it. */
  function MergeOne(m: seq<Card>, key: KeyFn, c: Card): seq<Card> {
    var i := FirstWithKey(m, key, KeyOf(key, c));
    if i >= 0 then m[i := m[i].(number := m[i].number + 1)]
    else m + [c.(number := 1)]
  }

  /** What `mergeDeck` returns when its cards are keyed by `key`. */
  function Merged(deck: seq<Card>, key: KeyFn): seq<Card>
    decreases |deck|
  {
    if deck == [] then [] else MergeOne(Merged(deck[..|deck| - 1], key), key, deck[|deck| - 1])
  }

  /** A view of the insertion-ordered keys through the object `cardMap`. */
  function View(order: seq<string>, cardMap: map<string, Card>): (r: seq<Card>)
    requires forall k :: k in order ==> k in cardMap
    ensures |r| == |order|
    ensures forall j :: 0 <= j < |order| ==> r[j] == cardMap[order[j]]
    decreases |order|
  {
    if order == [] then []
    else View(order[..|order| - 1], cardMap) + [cardMap[order[|order| - 1]]]
  }

  /** What the loop of `mergeDeck` keeps: the keys inserted so far, each
      once, each naming a card of that key. */
  ghost predicate MapInvariant(order: seq<string>, cardMap: map<string, Card>, key: KeyFn) {
    (forall j :: 0 <= j < |order| ==> order[j] in cardMap) &&
    (forall k :: k in cardMap ==> k in order) &&
    (forall a, b :: 0 <= a < b < |order| ==> order[a] != order[b]) &&
    (forall k :: k in cardMap ==> KeyOf(key, cardMap[k]) == k)
  }

  /** Through the view, the first card with key `k` sits where `k` was
      inserted. */
  lemma ViewFirstWithKey(order: seq<string>, cardMap: map<string, Card>, key: KeyFn, p: nat)
    requires MapInvariant(order, cardMap, key) && p < |order|
    ensures FirstWithKey(View(order, cardMap), key, order[p]) == p
  {
    var m := View(order, cardMap);
    var k := order[p];
    assert KeyOf(key, m[p]) == k;
  }

  /** Replacing the card under an inserted key replaces one entry of the view. */
  lemma ViewUpdate(order: seq<string>, cardMap: map<string, Card>, key: KeyFn, p: nat, k: string, v: Card)
    requires MapInvariant(order, cardMap, key) && p < |order| && order[p] == k
    ensures View(order, cardMap[k := v]) == View(order, cardMap)[p := v]
  {
    var a := View(order, cardMap[k := v]);
    var b := View(order, cardMap)[p := v];
    forall j | 0 <= j < |order| ensures a[j] == b[j] {
      if j != p { assert order[j] != k; }
    }
  }

  /** A card whose key `k` is already in the map raises the count there to `v`. */
  lemma MapStepExisting(order: seq<string>, cardMap: map<string, Card>, key: KeyFn, c: Card, k: string, v: Card)
    requires MapInvariant(order, cardMap, key) && k == KeyOf(key, c) && k in cardMap
    requires v == cardMap[k].(number := cardMap[k].number + 1)
    ensures MapInvariant(order, cardMap[k := v], key)
    ensures View(order, cardMap[k := v]) == MergeOne(View(order, cardMap), key, c)
  {
    MapInvariantBump(order, cardMap, key, k);
    var p := ExistingSlot(order, cardMap, key, k);
    ViewFirstWithKey(order, cardMap, key, p);
    ViewUpdate(order, cardMap, key, p, k, v);
    var m := View(order, cardMap);
    assert m[p] == cardMap[k];
    MergeOneExisting(m, key, c, p, v);
  }

  /** Inserting a new key keeps the map's invariant. */
  lemma MapInvariantInsert(order: seq<string>, cardMap: map<string, Card>, key: KeyFn, k: string, v: Card)
    requires MapInvariant(order, cardMap, key) && k !in cardMap && KeyOf(key, v) == k
    ensures MapInvariant(order + [k], cardMap[k := v], key)
  {
    var order' := order + [k];
    assert forall j :: 0 <= j < |order| ==> order'[j] == order[j];
    assert order'[|order|] == k;
  }

  /** Raising the count under a key keeps the map's invariant. */
  lemma MapInvariantBump(order: seq<string>, cardMap: map<string, Card>, key: KeyFn, k: string)
    requires MapInvariant(order, cardMap, key) && k in cardMap
    ensures MapInvariant(order, cardMap[k := cardMap[k].(number := cardMap[k].number + 1)], key)
  {
  }

  /** The place of an inserted key in the insertion order. */
  lemma ExistingSlot(order: seq<string>, cardMap: map<string, Card>, key: KeyFn, k: string) returns (p: nat)
    requires MapInvariant(order, cardMap, key) && k in cardMap
    ensures p < |order| && order[p] == k
  {
    p :| 0 <= p < |order| && order[p] == k;
  }

  /** Merging a card whose key first occurs at `p` raises the count there. */
  lemma MergeOneExisting(m: seq<Card>, key: KeyFn, c: Card, p: nat, v: Card)
    requires p < |m| && FirstWithKey(m, key, KeyOf(key, c)) == p
    requires v == m[p].(number := m[p].number + 1)
    ensures MergeOne(m, key, c) == m[p := v]
  {
  }

  /** A card whose key `k` is not yet in the map is stored as `v`, with
      `number: 1`, and `k` joins the insertion order. */
  lemma MapStepNew(order: seq<string>, cardMap: map<string, Card>, key: KeyFn, c: Card, k: string, v: Card)
    requires MapInvariant(order, cardMap, key) && k == KeyOf(key, c) && k !in cardMap
    requires v == c.(number := 1)
    ensures MapInvariant(order + [k], cardMap[k := v], key)
    ensures View(order + [k], cardMap[k := v]) == MergeOne(View(order, cardMap), key, c)
  {
    MapInvariantInsert(order, cardMap, key, k, v);
    var m := View(order, cardMap);
    forall j | 0 <= j < |m| ensures KeyOf(key, m[j]) != k {
      assert m[j] == cardMap[order[j]] && order[j] in cardMap;
    }
    assert !HasKey(m, key, k);
    ViewPush(order, cardMap, k, v);
  }

  /** A key new to the map adds its card at the end of the view. */
  lemma ViewPush(order: seq<string>, cardMap: map<string, Card>, k: string, v: Card)
    requires forall j :: 0 <= j < |order| ==> order[j] in cardMap && order[j] != k
    ensures View(order + [k], cardMap[k := v]) == View(order, cardMap) + [v]
  {
    var w := View(order + [k], cardMap[k := v]);
    var r := View(order, cardMap) + [v];
    forall j | 0 <= j < |order| + 1 ensures w[j] == r[j] {
      if j < |order| { assert (order + [k])[j] == order[j]; }
    }
  }

  /** The first loop of `mergeDeck`: `cardMap` is filled in one pass over
      the cards, `order` recording the keys in insertion order. */
  method FillCardMap(deck: seq<Card>, key: KeyFn) returns (order: seq<string>, cardMap: map<string, Card>)
    ensures MapInvariant(order, cardMap, key)
    ensures View(order, cardMap) == Merged(deck, key)
  {
    cardMap := map[];
    order := [];
    for i := 0 to |deck|
      invariant MapInvariant(order, cardMap, key)
      invariant Merged(deck[..i], key) == View(order, cardMap)
    {
      var c := deck[i];
      var k := KeyOf(key, c);
      assert deck[..i + 1][..i] == deck[..i] && deck[..i + 1][i] == c;
      ghost var before := View(order, cardMap);
      assert Merged(deck[..i + 1], key) == MergeOne(before, key, c);
      if k in cardMap {
        var v := cardMap[k].(number := cardMap[k].number + 1);
        MapStepExisting(order, cardMap, key, c, k, v);
        cardMap := cardMap[k := v];
      } else {
        var v := c.(number := 1);
        MapStepNew(order, cardMap, key, c, k, v);
        cardMap := cardMap[k := v];
        order := order + [k];
      }
    }
    assert deck[..|deck|] == deck;
  }

  /** `mergeDeck`, with `MergeKey` for `key`: after the first loop, the
      values of `cardMap` are pushed in key-insertion order. Keys always
      contain "-", so no key is an integer index and `for ... in` visits
      them in insertion order. */
  method MergeCards(deck: seq<Card>, key: KeyFn) returns (merged: seq<Card>)
    ensures merged == Merged(deck, key)
  {
    var order, cardMap := FillCardMap(deck, key);
    merged := PushValues(order, cardMap);
  }

  /** `mergeDeck(deck)`: the cards merged by `${card_number}-${rare}`. */
  method MergeDeckCards(deck: seq<Card>) returns (merged: seq<Card>)
    ensures merged == Merged(deck, MergeKey)
    ensures KeysDistinct(merged, MergeKey) && TotalCount(merged) == |deck|
  {
    merged := MergeCards(deck, MergeKey);
    MergedKeysDistinct(deck, MergeKey);
    MergedTotal(deck, MergeKey);
  }

  /** The second loop of `mergeDeck`: `merged.push(cardMap[key])` for each
      key in insertion order. */
  method PushValues(order: seq<string>, cardMap: map<string, Card>) returns (merged: seq<Card>)
    requires forall k :: k in order ==> k in cardMap
    ensures merged == View(order, cardMap)
  {
    merged := [];
    for j := 0 to |order|
      invariant |merged| == j
      invariant forall i :: 0 <= i < j ==> merged[i] == cardMap[order[i]]
    {
      merged := merged + [cardMap[order[j]]];
    }
  }

  // ---------------------------------------------------------------------
  // One step of the merge

  lemma MergeOneShape(m: seq<Card>, key: KeyFn, c: Card)
    ensures var r := MergeOne(m, key, c);
      |m| <= |r| <= |m| + 1 &&
      (forall j :: 0 <= j < |m| ==> KeyOf(key, r[j]) == KeyOf(key, m[j]) && r[j] == m[j].(number := r[j].number)) &&
      (|r| == |m| + 1 ==>
         !HasKey(m, key, KeyOf(key, c)) && r[|m|] == c.(number := 1) &&
         (forall j :: 0 <= j < |m| ==> r[j] == m[j])) &&
      (|r| == |m| ==> HasKey(m, key, KeyOf(key, c)))
  {
  }

  lemma MergeOneHasKey(m: seq<Card>, key: KeyFn, c: Card, k: string)
    ensures HasKey(MergeOne(m, key, c), key, k) <==> HasKey(m, key, k) || k == KeyOf(key, c)
  {
    var r := MergeOne(m, key, c);
    MergeOneShape(m, key, c);
    if HasKey(m, key, k) {
      var j :| 0 <= j < |m| && KeyOf(key, m[j]) == k;
      assert KeyOf(key, r[j]) == k;
    }
    if HasKey(r, key, k) {
      var j :| 0 <= j < |r| && KeyOf(key, r[j]) == k;
      if j < |m| { assert KeyOf(key, m[j]) == k; }
    }
    if k == KeyOf(key, c) && |r| == |m| + 1 {
      assert KeyOf(key, r[|m|]) == k;
    }
  }

  lemma HasKeyPush(s: seq<Card>, key: KeyFn, c: Card, k: string)
    ensures HasKey(s + [c], key, k) <==> HasKey(s, key, k) || KeyOf(key, c) == k
  {
    if HasKey(s, key, k) {
      var j :| 0 <= j < |s| && KeyOf(key, s[j]) == k;
      assert (s + [c])[j] == s[j];
    }
    if KeyOf(key, c) == k {
      assert (s + [c])[|s|] == c;
    }
    if HasKey(s + [c], key, k) {
      var j :| 0 <= j < |s| + 1 && KeyOf(key, (s + [c])[j]) == k;
      if j < |s| { assert (s + [c])[j] == s[j]; }
    }
  }

  lemma MergeOneKeepsDistinct(m: seq<Card>, key: KeyFn, c: Card)
    requires KeysDistinct(m, key)
    ensures KeysDistinct(MergeOne(m, key, c), key)
  {
    MergeOneShape(m, key, c);
  }

  lemma FirstWithKeyPush(s: seq<Card>, key: KeyFn, c: Card, k: string)
    ensures HasKey(s, key, k) ==> FirstWithKey(s + [c], key, k) == FirstWithKey(s, key, k)
    ensures !HasKey(s, key, k) && KeyOf(key, c) == k ==> FirstWithKey(s + [c], key, k) == |s|
  {
    HasKeyPush(s, key, c, k);
    assert forall j :: 0 <= j < |s| ==> (s + [c])[j] == s[j];
  }

  lemma {:induction false} CountKeyAbsent(s: seq<Card>, key: KeyFn, k: string)
    requires !HasKey(s, key, k)
    ensures CountKey(s, key, k) == 0
    decreases |s|
  {
    if s != [] {
      var front := s[..|s| - 1];
      assert s == front + [s[|s| - 1]];
      HasKeyPush(front, key, s[|s| - 1], k);
      CountKeyAbsent(front, key, k);
    }
  }

  // ---------------------------------------------------------------------
  // Properties of the merge

  /** One entry per key: no key appears twice in the merged deck. */
  lemma {:induction false} MergedKeysDistinct(deck: seq<Card>, key: KeyFn)
    ensures KeysDistinct(Merged(deck, key), key)
    decreases |deck|
  {
    if deck != [] {
      MergedKeysDistinct(deck[..|deck| - 1], key);
      MergeOneKeepsDistinct(Merged(deck[..|deck| - 1], key), key, deck[|deck| - 1]);
    }
  }

  /** The merged deck has exactly the keys of the input. */
  lemma {:induction false} MergedHasKey(deck: seq<Card>, key: KeyFn, k: string)
    ensures HasKey(Merged(deck, key), key, k) <==> HasKey(deck, key, k)
    decreases |deck|
  {
    if deck != [] {
      var front := deck[..|deck| - 1];
      var c := deck[|deck| - 1];
      MergedHasKey(front, key, k);
      MergeOneHasKey(Merged(front, key), key, c, k);
      assert deck == front + [c];
      HasKeyPush(front, key, c, k);
    }
  }

  /** Each merged entry's `number` is the number of occurrences of its key. */
  lemma {:induction false} MergedCounts(deck: seq<Card>, key: KeyFn)
    ensures forall i :: 0 <= i < |Merged(deck, key)| ==>
      Merged(deck, key)[i].number == CountKey(deck, key, KeyOf(key, Merged(deck, key)[i]))
    decreases |deck|
  {
    if deck != [] {
      var front := deck[..|deck| - 1];
      var c := deck[|deck| - 1];
      MergedCounts(front, key);
      MergedKeysDistinct(front, key);
      var m := Merged(front, key);
      var r := Merged(deck, key);
      assert r == MergeOne(m, key, c);
      MergeOneShape(m, key, c);
      if |r| == |m| + 1 {
        MergedHasKey(front, key, KeyOf(key, c));
        CountKeyAbsent(front, key, KeyOf(key, c));
      }
    }
  }

  /** One card more: the merged entries keep the first occurrences of
      their keys, and a new entry's first occurrence is the new card. */
  lemma MergedFirstStep(front: seq<Card>, key: KeyFn, c: Card, m: seq<Card>, r: seq<Card>)
    requires m == Merged(front, key) && r == MergeOne(m, key, c)
    ensures |m| <= |r|
    ensures forall i :: 0 <= i < |m| ==>
      FirstWithKey(front + [c], key, KeyOf(key, r[i])) == FirstWithKey(front, key, KeyOf(key, m[i]))
    ensures |r| == |m| + 1 ==> FirstWithKey(front + [c], key, KeyOf(key, r[|m|])) == |front|
    ensures forall i :: 0 <= i < |m| ==> r[i] == m[i].(number := r[i].number)
    ensures |r| == |m| + 1 ==> r[|m|] == c.(number := 1)
  {
    MergeOneShape(m, key, c);
    forall i | 0 <= i < |m|
      ensures FirstWithKey(front + [c], key, KeyOf(key, r[i])) == FirstWithKey(front, key, KeyOf(key, m[i]))
    {
      MergedHasKey(front, key, KeyOf(key, m[i]));
      assert HasKey(m, key, KeyOf(key, m[i]));
      FirstWithKeyPush(front, key, c, KeyOf(key, m[i]));
    }
    if |r| == |m| + 1 {
      MergedHasKey(front, key, KeyOf(key, c));
      FirstWithKeyPush(front, key, c, KeyOf(key, c));
    }
  }

  /** Each merged entry is the first card of its key, with its `number`
      replaced. */
  lemma {:induction false} MergedFirstCards(deck: seq<Card>, key: KeyFn)
    ensures forall i :: 0 <= i < |Merged(deck, key)| ==>
      0 <= FirstWithKey(deck, key, KeyOf(key, Merged(deck, key)[i])) &&
      Merged(deck, key)[i] ==
        deck[FirstWithKey(deck, key, KeyOf(key, Merged(deck, key)[i]))].(number := Merged(deck, key)[i].number)
    decreases |deck|
  {
    if deck != [] {
      var front := deck[..|deck| - 1];
      var c := deck[|deck| - 1];
      MergedFirstCards(front, key);
      var m := Merged(front, key);
      var r := Merged(deck, key);
      assert deck == front + [c];
      MergedFirstStep(front, key, c, m, r);
      forall i | 0 <= i < |r|
        ensures 0 <= FirstWithKey(deck, key, KeyOf(key, r[i])) &&
          r[i] == deck[FirstWithKey(deck, key, KeyOf(key, r[i]))].(number := r[i].number)
      {
        if i < |m| {
          var f := FirstWithKey(front, key, KeyOf(key, m[i]));
          assert deck[f] == front[f];
        }
      }
    }
  }

  /** The merged entries come in the order of the first cards of their keys. */
  lemma {:induction false} MergedFirstOrder(deck: seq<Card>, key: KeyFn)
    ensures forall i, j :: 0 <= i < j < |Merged(deck, key)| ==>
      FirstWithKey(deck, key, KeyOf(key, Merged(deck, key)[i])) < FirstWithKey(deck, key, KeyOf(key, Merged(deck, key)[j]))
    decreases |deck|
  {
    if deck != [] {
      var front := deck[..|deck| - 1];
      var c := deck[|deck| - 1];
      MergedFirstOrder(front, key);
      var m := Merged(front, key);
      var r := Merged(deck, key);
      assert deck == front + [c];
      MergedFirstStep(front, key, c, m, r);
    }
  }

  /** The merged numbers add up to the number of input cards. */
  lemma {:induction false} MergedTotal(deck: seq<Card>, key: KeyFn)
    ensures TotalCount(Merged(deck, key)) == |deck|
    decreases |deck|
  {
    if deck != [] {
      var front := deck[..|deck| - 1];
      var c := deck[|deck| - 1];
      MergedTotal(front, key);
      var m := Merged(front, key);
      var i := FirstWithKey(m, key, KeyOf(key, c));
      if i >= 0 {
        TotalCountUpdate(m, i, m[i].(number := m[i].number + 1));
      } else {
        TotalCountPush(m, c.(number := 1));
      }
    }
  }

  // ---------------------------------------------------------------------
  // The key `mergeDeck` uses

  /** Card numbers and rarities without "-" never share a key: the key's
      first "-" is where the card number ends. */
  lemma MergeKeyInjective(a: string, b: string, a': string, b': string)
    requires '-' !in a && '-' !in a'
    requires MergeKey(Text(a), Text(b)) == MergeKey(Text(a'), Text(b'))
    ensures a == a' && b == b'
  {
    var k := a + "-" + b;
    var k' := a' + "-" + b';
    assert k == k';
    assert |a| == |a'| by {
      assert k[|a|] == '-' && k'[|a'|] == '-';
      assert forall i :: 0 <= i < |a| ==> k[i] == a[i] && k[i] != '-';
      assert forall i :: 0 <= i < |a'| ==> k'[i] == a'[i] && k'[i] != '-';
    }
    assert a == k[..|a|] == k'[..|a'|] == a';
    assert b == k[|a| + 1..] == k'[|a'| + 1..] == b';
  }

  /** With "-" inside a card number, two different cards share a key and
      `mergeDeck` counts them as one entry. */
  lemma MergeKeyCollides()
    ensures MergeKey(Text("a-b"), Text("c")) == MergeKey(Text("a"), Text("b-c"))
    ensures MergeKey(Null, Text("R")) == MergeKey(Text("null"), Text("R"))
  {
  }
}
