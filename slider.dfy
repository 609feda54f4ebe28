/**
 * The slide show of the usage page: `index` runs round a ring of `total`
 * slides, each slide has a dot that is active exactly when it is the
 * current one, and a horizontal swipe of more than 40 pixels moves one
 * slide.
 */
module Slider {
  import opened Js

  const SwipeThreshold: int := 40

  /** The index `goTo(i)` sets: `(i + total) % total` with JavaScript's
      remainder. From `-total` on it is `i` taken modulo `total`. */
  function GoToIndex(total: int, i: int): (r: int)
    requires total > 0
    ensures i >= -total ==> 0 <= r < total && r == i % total
    ensures -total <= i < 0 ==> r == i + total
    ensures 0 <= i < total ==> r == i
    ensures i < -total ==> -total < r <= 0
  {
    var r := JsRem(i + total, total);
    if i >= -total then RemOfShift(total, i, r); r else r
  }

  /** From `-total` on, `(i + total) % total` is `i` modulo `total`, and
      it is `i` itself or `i + total` on the two ranges next to 0. */
  lemma RemOfShift(total: int, i: int, r: int)
    requires total > 0 && i >= -total && r == (i + total) % total
    ensures 0 <= r < total && r == i % total
    ensures i < 0 ==> r == i + total
    ensures 0 <= i < total ==> r == i
  {
    ModShift(i, total);
    if i < 0 {
      ModUnique(i + total, total, 0, i + total);
    } else if i < total {
      ModUnique(i, total, 0, i);
    }
  }

  lemma {:induction false} MulAtLeast(k: int, n: int)
    requires k >= 1 && n > 0
    ensures k * n >= n
    decreases k
  {
    if k > 1 {
      MulAtLeast(k - 1, n);
      assert k * n == (k - 1) * n + n;
    }
  }

  /** A remainder is determined by any quotient-remainder split. */
  lemma ModUnique(a: int, n: int, q: int, m: int)
    requires n > 0 && a == q * n + m && 0 <= m < n
    ensures a % n == m
  {
    var q2, m2 := a / n, a % n;
    assert a == q2 * n + m2 && 0 <= m2 < n;
    assert (q - q2) * n == m2 - m;
    if q > q2 {
      MulAtLeast(q - q2, n);
    } else if q2 > q {
      MulAtLeast(q2 - q, n);
    }
  }

  lemma ModShift(i: int, n: int)
    requires n > 0
    ensures (i + n) % n == i % n
  {
    var q, m := i / n, i % n;
    assert i == q * n + m && 0 <= m < n;
    assert i + n == (q + 1) * n + m;
    ModUnique(i + n, n, q + 1, m);
  }

  /** The dots after `goTo`: the one at `index` active, the others not. */
  function Dots(total: nat, index: int): (d: seq<bool>)
    ensures |d| == total
    ensures forall di :: 0 <= di < total ==> (d[di] <==> di == index)
  {
    seq(total, di => di == index)
  }

  function CountActive(d: seq<bool>): nat
    decreases |d|
  {
    if d == [] then 0 else CountActive(d[..|d| - 1]) + (if d[|d| - 1] then 1 else 0)
  }

  /** The slide a `touchend` leads to after a move of `deltaX`. */
  function SwipeTarget(total: int, index: int, deltaX: int): (r: int)
    requires total > 0 && 0 <= index < total
    ensures 0 <= r < total
    ensures deltaX < -SwipeThreshold ==> r == if index == total - 1 then 0 else index + 1
    ensures deltaX > SwipeThreshold ==> r == if index == 0 then total - 1 else index - 1
    ensures -SwipeThreshold <= deltaX <= SwipeThreshold ==> r == index
  {
    if (if deltaX < 0 then -deltaX else deltaX) > SwipeThreshold then
      GoToIndex(total, index + (if deltaX < 0 then 1 else -1))
    else index
  }

  class Slider {
    const total: nat
    var index: int
    var startX: int
    var deltaX: int
    /** Whether each dot has the class `active`. */
    var dots: seq<bool>
    /** The `translateX` of the slide strip, in percent to the left. */
    var offset: int

    ghost predicate Valid()
      reads this
    {
      total > 0 && 0 <= index < total && dots == Dots(total, index) && offset == index * 100
    }

    /** The page's set-up: one dot per slide, then `goTo(0)`. */
    constructor (slides: nat)
      requires slides > 0
      ensures total == slides && index == 0 && startX == 0 && deltaX == 0
      ensures Valid()
    {
      total := slides;
      index := 0;
      startX := 0;
      deltaX := 0;
      dots := Dots(slides, 0);
      offset := 0;
    }

    /** `goTo(i)`: the index, the strip's offset and the dots. */
    method GoTo(i: int)
      requires total > 0
      modifies this
      ensures index == GoToIndex(total, i)
      ensures offset == index * 100
      ensures dots == Dots(total, index)
      ensures startX == old(startX) && deltaX == old(deltaX)
    {
      index := JsRem(i + total, total);
      offset := index * 100;
      var d: seq<bool> := [];
      for di := 0 to total
        invariant |d| == di
        invariant forall k :: 0 <= k < di ==> d[k] == (k == index)
      {
        d := d + [di == index];
      }
      dots := d;
    }

    /** The prev button. */
    method Prev()
      requires Valid()
      modifies this
      ensures Valid() && index == if old(index) == 0 then total - 1 else old(index) - 1
      ensures startX == old(startX) && deltaX == old(deltaX)
    {
      GoTo(index - 1);
    }

    /** The next button, and each tick of the auto-advance timer. */
    method Next()
      requires Valid()
      modifies this
      ensures Valid() && index == if old(index) == total - 1 then 0 else old(index) + 1
      ensures startX == old(startX) && deltaX == old(deltaX)
    {
      GoTo(index + 1);
    }

    /** A dot's button goes to its slide. */
    method ClickDot(i: nat)
      requires Valid() && i < total
      modifies this
      ensures Valid() && index == i
      ensures startX == old(startX) && deltaX == old(deltaX)
    {
      GoTo(i);
    }

    method TouchStart(clientX: int)
      modifies this
      ensures startX == clientX && deltaX == 0
      ensures index == old(index) && dots == old(dots) && offset == old(offset)
    {
      startX := clientX;
      deltaX := 0;
    }

    method TouchMove(clientX: int)
      modifies this
      ensures deltaX == clientX - startX
      ensures startX == old(startX) && index == old(index) && dots == old(dots) && offset == old(offset)
    {
      deltaX := clientX - startX;
    }

    method TouchEnd()
      requires Valid()
      modifies this
      ensures Valid() && index == SwipeTarget(total, old(index), deltaX)
      ensures startX == old(startX) && deltaX == old(deltaX)
    {
      if (if deltaX < 0 then -deltaX else deltaX) > SwipeThreshold {
        GoTo(index + (if deltaX < 0 then 1 else -1));
      }
    }
  }

  // ---------------------------------------------------------------------
  // Properties of the ring

  /** Next from the last slide is the first one. */
  lemma NextWraps(total: int)
    requires total > 0
    ensures GoToIndex(total, (total - 1) + 1) == 0
  {
  }

  /** Prev from the first slide is the last one. */
  lemma PrevWraps(total: int)
    requires total > 0
    ensures GoToIndex(total, 0 - 1) == total - 1
  {
  }

  /** `goTo` is only safe down to `-total`: further below the remainder is
      negative and the index leaves the ring. */
  lemma GoToBelowRange(total: int)
    requires total > 1
    ensures GoToIndex(total, -total - 1) == -1
  {
    ModUnique(1, total, 0, 1);
  }

  lemma {:induction false} CountActiveOne(total: nat, index: int, n: nat)
    requires n <= total
    ensures CountActive(Dots(total, index)[..n]) == (if 0 <= index < n then 1 else 0)
    decreases n
  {
    if n > 0 {
      var d := Dots(total, index);
      assert d[..n][..n - 1] == d[..n - 1];
      CountActiveOne(total, index, n - 1);
    }
  }

  /** After `goTo` exactly one dot is active. */
  lemma ExactlyOneDot(total: int, i: int)
    requires total > 0 && i >= -total
    ensures CountActive(Dots(total, GoToIndex(total, i))) == 1
  {
    var d := Dots(total, GoToIndex(total, i));
    CountActiveOne(total, GoToIndex(total, i), total);
    assert d[..total] == d;
  }

  /** A tap (`touchstart` with no `touchmove`) leaves the slide where it is. */
  lemma TapKeepsSlide(total: int, index: int)
    requires total > 0 && 0 <= index < total
    ensures SwipeTarget(total, index, 0) == index
  {
  }

  /** A long left swipe then a long right swipe come back to the start. */
  lemma SwipeThereAndBack(total: int, index: int, left: int, right: int)
    requires total > 0 && 0 <= index < total
    requires left < -SwipeThreshold && right > SwipeThreshold
    ensures SwipeTarget(total, SwipeTarget(total, index, left), right) == index
  {
  }
}
