/**
 * A deck entry as the server stores it in `userDeck.cards` and as the
 * browser keeps it in its `deck` array: a card of a series with its
 * number of copies. The sums below are the card counts the deck pages
 * display.
 */
module Cards {
  import opened Js

  /** A card's `details` object, for the string-valued keys the core reads. */
  type Details = map<string, string>

  datatype Card = Card(
    cardNumber: JsString,
    rare: JsString,
    imageUrl: JsString,
    cardName: JsString,
    series: JsString,
    details: Details,
    money: JsString,
    number: int)

  /** The sum of `number` over all entries. */
  function TotalCount(deck: seq<Card>): int
    decreases |deck|
  {
    if deck == [] then 0 else deck[0].number + TotalCount(deck[1..])
  }

  predicate AllPositive(deck: seq<Card>) {
    forall i :: 0 <= i < |deck| ==> deck[i].number >= 1
  }

  /** `deck.splice(i, 1)`. */
  function RemoveAt(deck: seq<Card>, i: nat): (r: seq<Card>)
    requires i < |deck|
    ensures |r| == |deck| - 1
    ensures forall j :: 0 <= j < i ==> r[j] == deck[j]
    ensures forall j :: i <= j < |r| ==> r[j] == deck[j + 1]
  {
    deck[..i] + deck[i + 1..]
  }

  lemma {:induction false} TotalCountAppend(a: seq<Card>, b: seq<Card>)
    ensures TotalCount(a + b) == TotalCount(a) + TotalCount(b)
    decreases |a|
  {
    if a == [] {
      assert a + b == b;
    } else {
      assert (a + b)[1..] == a[1..] + b;
      TotalCountAppend(a[1..], b);
    }
  }

  /** The entries of `deck` whose key is `k`, in deck order. */
  function WithKey<K(==)>(deck: seq<Card>, key: Card -> K, k: K): seq<Card>
    decreases |deck|
  {
    if deck == [] then []
    else WithKey(deck[..|deck| - 1], key, k) + (if key(deck[|deck| - 1]) == k then [deck[|deck| - 1]] else [])
  }

  lemma WithKeyPush<K>(deck: seq<Card>, key: Card -> K, c: Card, k: K)
    ensures WithKey(deck + [c], key, k) == WithKey(deck, key, k) + (if key(c) == k then [c] else [])
  {
    assert (deck + [c])[..|deck|] == deck;
  }

  lemma {:induction false} WithKeyAppend<K>(s: seq<Card>, t: seq<Card>, key: Card -> K, k: K)
    ensures WithKey(s + t, key, k) == WithKey(s, key, k) + WithKey(t, key, k)
    decreases |t|
  {
    if t == [] {
      assert s + t == s;
    } else {
      var front := t[..|t| - 1];
      assert s + t == (s + front) + [t[|t| - 1]];
      assert (s + t)[..|s + t| - 1] == s + front;
      WithKeyAppend(s, front, key, k);
    }
  }

  /** No entry has key `k`: the selection is empty. */
  lemma {:induction false} WithKeyAbsent<K>(deck: seq<Card>, key: Card -> K, k: K)
    requires forall i :: 0 <= i < |deck| ==> key(deck[i]) != k
    ensures WithKey(deck, key, k) == []
    decreases |deck|
  {
    if deck != [] {
      WithKeyAbsent(deck[..|deck| - 1], key, k);
    }
  }

  /** Appending one entry raises the total by its count. */
  lemma TotalCountPush(a: seq<Card>, c: Card)
    ensures TotalCount(a + [c]) == TotalCount(a) + c.number
  {
    TotalCountAppend(a, [c]);
    assert [c][1..] == [];
  }

  /** Changing one entry changes the total by the difference of its count. */
  lemma {:induction false} TotalCountUpdate(deck: seq<Card>, i: nat, c: Card)
    requires i < |deck|
    ensures TotalCount(deck[i := c]) == TotalCount(deck) - deck[i].number + c.number
  {
    assert deck == deck[..i] + [deck[i]] + deck[i + 1..];
    assert deck[i := c] == deck[..i] + [c] + deck[i + 1..];
    TotalCountAppend(deck[..i] + [deck[i]], deck[i + 1..]);
    TotalCountAppend(deck[..i], [deck[i]]);
    TotalCountAppend(deck[..i] + [c], deck[i + 1..]);
    TotalCountAppend(deck[..i], [c]);
  }

  /** Splicing one entry out lowers the total by its count. */
  lemma {:induction false} TotalCountRemoveAt(deck: seq<Card>, i: nat)
    requires i < |deck|
    ensures TotalCount(RemoveAt(deck, i)) == TotalCount(deck) - deck[i].number
  {
    assert deck == deck[..i] + [deck[i]] + deck[i + 1..];
    TotalCountAppend(deck[..i] + [deck[i]], deck[i + 1..]);
    TotalCountAppend(deck[..i], [deck[i]]);
    TotalCountAppend(deck[..i], deck[i + 1..]);
  }
}
