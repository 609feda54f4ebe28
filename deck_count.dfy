/**
 * The card count `updateDeckDisplay` shows under the deck. In the original
 * order it adds up `number` over the entries; in energy order it first
 * groups the entries by their required energy and adds up the group
 * counts. Group order is whatever the page's sort produces: any order that
 * lists every group once gives the same total.
 */
module DeckCount {
  import opened Js
  import opened Cards

  const EnergyDetail: string := "必要エナジー"

  /** The group of an entry: the digits of its required energy, "0" for an
      energy with no digits, and `無` for none. */
  function EnergyGroupKey(c: Card): (k: string)
    ensures k == "無" || (k != [] && forall i :: 0 <= i < |k| ==> k[i] in AsciiDigits)
    ensures EnergyDetail !in c.details || c.details[EnergyDetail] == "" ==> k == "無"
    ensures EnergyDetail in c.details && c.details[EnergyDetail] != "" ==>
      k == (if KeepChars(c.details[EnergyDetail], AsciiDigits) == "" then "0"
            else KeepChars(c.details[EnergyDetail], AsciiDigits))
  {
    if EnergyDetail in c.details && c.details[EnergyDetail] != "" then
      var digits := KeepChars(c.details[EnergyDetail], AsciiDigits);
      if digits == "" then "0" else digits
    else "無"
  }

  predicate Distinct(keys: seq<string>) {
    forall a, b :: 0 <= a < b < |keys| ==> keys[a] != keys[b]
  }

  /** `keys` lists each group of `deck` exactly once. */
  predicate ListsGroups(deck: seq<Card>, key: Card -> string, keys: seq<string>) {
    Distinct(keys) &&
    (forall i :: 0 <= i < |deck| ==> key(deck[i]) in keys) &&
    (forall j :: 0 <= j < |keys| ==> exists i :: 0 <= i < |deck| && key(deck[i]) == keys[j])
  }

  /** The sum of the group counts over `keys`. */
  function GroupTotal(deck: seq<Card>, key: Card -> string, keys: seq<string>): int
    decreases |keys|
  {
    if keys == [] then 0
    else GroupTotal(deck, key, keys[..|keys| - 1]) + TotalCount(WithKey(deck, key, keys[|keys| - 1]))
  }

  /** The original-order count: `totalCardCount += card.number` per entry. */
  method CountInOrder(deck: seq<Card>) returns (total: int)
    ensures total == TotalCount(deck)
  {
    total := 0;
    for i := 0 to |deck|
      invariant total == TotalCount(deck[..i])
    {
      total := total + deck[i].number;
      TotalCountPush(deck[..i], deck[i]);
      assert deck[..i + 1] == deck[..i] + [deck[i]];
    }
    assert deck[..|deck|] == deck;
  }

  /** What the `groupMap` loop keeps: `keys` lists the groups met so far
      in the order they were created, and each holds its entries. */
  ghost predicate GroupsHold(deck: seq<Card>, key: Card -> string, groups: map<string, seq<Card>>, keys: seq<string>) {
    ListsGroups(deck, key, keys) &&
    (forall k :: k in groups <==> k in keys) &&
    (forall k :: k in groups ==> groups[k] == WithKey(deck, key, k))
  }

  /** The `groupMap` loop: each entry pushed to the list of its group, a
      group created when its first entry is met. */
  method GroupEntries(deck: seq<Card>, key: Card -> string) returns (groups: map<string, seq<Card>>, keys: seq<string>)
    ensures GroupsHold(deck, key, groups, keys)
  {
    groups := map[];
    keys := [];
    for i := 0 to |deck|
      invariant GroupsHold(deck[..i], key, groups, keys)
    {
      var c := deck[i];
      var k := key(c);
      assert deck[..i + 1] == deck[..i] + [c];
      if k !in groups {
        GroupStepNew(deck[..i], key, groups, keys, c);
        groups := groups[k := [c]];
        keys := keys + [k];
      } else {
        GroupStepExisting(deck[..i], key, groups, keys, c);
        groups := groups[k := groups[k] + [c]];
      }
    }
    assert deck[..|deck|] == deck;
  }

  /** The energy-order count: the group counts added in the order `sorted`
      of the group keys. */
  method CountByGroups(deck: seq<Card>, key: Card -> string, sorted: seq<string>) returns (total: int)
    requires ListsGroups(deck, key, sorted)
    ensures total == TotalCount(deck)
  {
    var groups, keys := GroupEntries(deck, key);
    total := 0;
    for j := 0 to |sorted|
      invariant total == GroupTotal(deck, key, sorted[..j])
    {
      GroupLookup(deck, key, groups, keys, sorted[j]);
      var groupCount := TotalCount(groups[sorted[j]]);
      GroupTotalStep(deck, key, sorted, j);
      total := total + groupCount;
    }
    assert sorted[..|sorted|] == sorted;
    GroupTotalIsTotal(deck, key, sorted);
  }

  /** Every group the sort lists is in `groupMap`, holding its entries. */
  lemma GroupLookup(deck: seq<Card>, key: Card -> string, groups: map<string, seq<Card>>, keys: seq<string>, k: string)
    requires GroupsHold(deck, key, groups, keys)
    requires exists i :: 0 <= i < |deck| && key(deck[i]) == k
    ensures k in groups && groups[k] == WithKey(deck, key, k)
  {
    var i :| 0 <= i < |deck| && key(deck[i]) == k;
    assert k in keys;
  }

  lemma GroupTotalStep(deck: seq<Card>, key: Card -> string, keys: seq<string>, j: nat)
    requires j < |keys|
    ensures GroupTotal(deck, key, keys[..j + 1]) == GroupTotal(deck, key, keys[..j]) + TotalCount(WithKey(deck, key, keys[j]))
  {
    assert keys[..j + 1][..j] == keys[..j];
  }

  /** `deckCount.textContent` in either mode; `energyOrder` is the order
      the page's sort gives the energy groups. */
  method DeckCardCount(deck: seq<Card>, energyMode: bool, energyOrder: seq<string>) returns (total: int)
    requires energyMode ==> ListsGroups(deck, EnergyGroupKey, energyOrder)
    ensures total == TotalCount(deck)
  {
    if energyMode {
      total := CountByGroups(deck, EnergyGroupKey, energyOrder);
    } else {
      total := CountInOrder(deck);
    }
  }

  // ---------------------------------------------------------------------
  // Groups partition the deck

  lemma GroupStepNew(deck: seq<Card>, key: Card -> string, groups: map<string, seq<Card>>, keys: seq<string>, c: Card)
    requires GroupsHold(deck, key, groups, keys) && key(c) !in groups
    ensures GroupsHold(deck + [c], key, groups[key(c) := [c]], keys + [key(c)])
  {
    var k := key(c);
    assert k !in keys;
    assert forall i :: 0 <= i < |deck| ==> key(deck[i]) in keys;
    WithKeyAbsent(deck, key, k);
    ListsGroupsPush(deck, key, keys, c);
    var g := groups[k := [c]];
    forall k' | k' in g ensures g[k'] == WithKey(deck + [c], key, k') {
      WithKeyPush(deck, key, c, k');
    }
  }

  lemma GroupStepExisting(deck: seq<Card>, key: Card -> string, groups: map<string, seq<Card>>, keys: seq<string>, c: Card)
    requires GroupsHold(deck, key, groups, keys) && key(c) in groups
    ensures GroupsHold(deck + [c], key, groups[key(c) := groups[key(c)] + [c]], keys)
  {
    ListsGroupsPush(deck, key, keys, c);
    var g := groups[key(c) := groups[key(c)] + [c]];
    forall k' | k' in g ensures g[k'] == WithKey(deck + [c], key, k') {
      WithKeyPush(deck, key, c, k');
    }
  }

  lemma ListsGroupsPush(deck: seq<Card>, key: Card -> string, keys: seq<string>, c: Card)
    requires ListsGroups(deck, key, keys)
    ensures key(c) in keys ==> ListsGroups(deck + [c], key, keys)
    ensures key(c) !in keys ==> ListsGroups(deck + [c], key, keys + [key(c)])
  {
    var d := deck + [c];
    assert forall i :: 0 <= i < |deck| ==> d[i] == deck[i];
    assert d[|deck|] == c;
    if key(c) !in keys {
      var keys' := keys + [key(c)];
      forall j | 0 <= j < |keys'|
        ensures exists i :: 0 <= i < |d| && key(d[i]) == keys'[j]
      {
        if j < |keys| {
          var i :| 0 <= i < |deck| && key(deck[i]) == keys[j];
          assert key(d[i]) == keys'[j];
        } else {
          assert key(d[|deck|]) == keys'[j];
        }
      }
    } else {
      forall j | 0 <= j < |keys|
        ensures exists i :: 0 <= i < |d| && key(d[i]) == keys[j]
      {
        var i :| 0 <= i < |deck| && key(deck[i]) == keys[j];
        assert key(d[i]) == keys[j];
      }
    }
  }

  /** Adding an entry adds its count once if `keys` lists its group. */
  lemma {:induction false} GroupTotalPush(deck: seq<Card>, key: Card -> string, keys: seq<string>, c: Card)
    requires Distinct(keys)
    ensures GroupTotal(deck + [c], key, keys) ==
      GroupTotal(deck, key, keys) + (if key(c) in keys then c.number else 0)
    decreases |keys|
  {
    if keys != [] {
      var front := keys[..|keys| - 1];
      var k := keys[|keys| - 1];
      assert keys == front + [k];
      GroupTotalPush(deck, key, front, c);
      WithKeyPush(deck, key, c, k);
      assert key(c) in keys <==> key(c) in front || key(c) == k;
      if key(c) == k {
        TotalCountPush(WithKey(deck, key, k), c);
        assert key(c) !in front;
      } else {
        assert WithKey(deck, key, k) + [] == WithKey(deck, key, k);
      }
    }
  }

  lemma {:induction false} GroupTotalEmpty(key: Card -> string, keys: seq<string>)
    ensures GroupTotal([], key, keys) == 0
    decreases |keys|
  {
    if keys != [] {
      GroupTotalEmpty(key, keys[..|keys| - 1]);
    }
  }

  /** The groups partition the deck: over keys that name each group once,
      the group counts sum to the deck's card count. */
  lemma {:induction false} GroupTotalIsTotal(deck: seq<Card>, key: Card -> string, keys: seq<string>)
    requires Distinct(keys)
    requires forall i :: 0 <= i < |deck| ==> key(deck[i]) in keys
    ensures GroupTotal(deck, key, keys) == TotalCount(deck)
    decreases |deck|
  {
    if deck == [] {
      GroupTotalEmpty(key, keys);
    } else {
      var front := deck[..|deck| - 1];
      var c := deck[|deck| - 1];
      assert deck == front + [c];
      GroupTotalIsTotal(front, key, keys);
      GroupTotalPush(front, key, keys, c);
      TotalCountPush(front, c);
    }
  }
}
