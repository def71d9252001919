/**
 The cyclic next/previous list cursor of `src/hooks/useNavigationList.ts`.
 JavaScript's `%` truncates toward zero and `x % 0` is NaN, so the index is a
 JavaScript number that is either an integer or NaN.
 */
module Navigation {
  import opened Wrappers

  datatype JsIndex = Index(i: int) | NaN

  /** JavaScript's `a % b` for a positive divisor: the result takes the sign of the dividend. */
  function JsRem(a: int, b: int): (r: int)
    requires b > 0
    ensures a >= 0 ==> 0 <= r < b
    ensures a <= 0 ==> -b < r <= 0
    ensures -b < a < b ==> r == a
    ensures a >= 0 ==> r == a % b
  {
    if a >= 0 then
      if a < b then ModUnique(a, b, 0, a); a % b else a % b
    else
      if -a < b then ModUnique(-a, b, 0, -a); -((-a) % b) else -((-a) % b)
  }

  /** `Math.max(0, Math.min(initialIndex, n - 1))`. */
  function InitialIndex(initialIndex: int, n: nat): (r: JsIndex)
    ensures r.Index?
    ensures n == 0 ==> r.i == 0
    ensures n > 0 ==> 0 <= r.i < n
    ensures n > 0 && 0 <= initialIndex < n ==> r.i == initialIndex
    ensures n > 0 && initialIndex < 0 ==> r.i == 0
    ensures n > 0 && initialIndex >= n ==> r.i == n - 1
  {
    var upper := if initialIndex <= n - 1 then initialIndex else n - 1;
    Index(if 0 >= upper then 0 else upper)
  }

  /** Step forward, wrapping from the last item to the first. */
  function GoToNext(c: JsIndex, n: nat): (r: JsIndex)
    ensures n == 0 || c.NaN? ==> r.NaN?
    ensures n > 0 && c.Index? && 0 <= c.i < n - 1 ==> r == Index(c.i + 1)
    ensures n > 0 && c == Index(n - 1) ==> r == Index(0)
  {
    match c
    case NaN => NaN
    case Index(i) =>
      if n == 0 then NaN
      else
        var r := JsRem(i + 1, n);
        assert i == n - 1 ==> r == 0 by {
          if i == n - 1 { ModUnique(n, n, 1, 0); }
        }
        Index(r)
  }

  /** Step back, wrapping from the first item to the last. */
  function GoToPrevious(c: JsIndex, n: nat): (r: JsIndex)
    ensures n == 0 || c.NaN? ==> r.NaN?
    ensures n > 0 && c.Index? && 0 < c.i < n ==> r == Index(c.i - 1)
    ensures n > 0 && c == Index(0) ==> r == Index(n - 1)
  {
    match c
    case NaN => NaN
    case Index(i) =>
      if n == 0 then NaN
      else
        var r := JsRem(i - 1 + n, n);
        assert 0 < i < n ==> r == i - 1 by {
          if 0 < i < n { ModUnique(i - 1 + n, n, 1, i - 1); }
        }
        Index(r)
  }

  /** `currentIndex < items.length - 1`; every comparison with NaN is false. */
  function HasNext(c: JsIndex, n: nat): (b: bool)
    ensures b <==> c.Index? && c.i < n - 1
  {
    match c
    case NaN => false
    case Index(i) => i < n - 1
  }

  function HasPrevious(c: JsIndex): (b: bool)
    ensures b <==> c.Index? && c.i > 0
  {
    match c
    case NaN => false
    case Index(i) => i > 0
  }

  /** `items[currentIndex]`, None standing for `undefined` outside the list. */
  function CurrentItem<T>(items: seq<T>, c: JsIndex): (r: Option<T>)
    ensures r.Some? <==> c.Index? && 0 <= c.i < |items|
    ensures r.Some? ==> r.value == items[c.i]
  {
    if c.Index? && 0 <= c.i < |items| then Some(items[c.i]) else None
  }

  /** The hook's view of a list: the items and the cursor. */
  datatype NavigationList<T> = NavigationList(items: seq<T>, current: JsIndex)

  /** `totalItems`: how many items the list has, whatever the cursor. */
  function TotalItems<T>(l: NavigationList<T>): (n: nat)
    ensures n == |l.items|
    ensures forall forward: seq<bool> :: n == |Steps(l, forward).items|
  {
    |l.items|
  }

  function Open<T>(items: seq<T>, initialIndex: int): (l: NavigationList<T>)
    ensures l.items == items
    ensures l.current == InitialIndex(initialIndex, |items|)
    ensures |items| > 0 ==> CurrentItem(items, l.current).Some?
  {
    NavigationList(items, InitialIndex(initialIndex, |items|))
  }

  // ---------------------------------------------------------------------------
  // Laws

  lemma MulAtLeast(k: int, n: int)
    requires k >= 1 && n > 0
    ensures k * n >= n
  {
  }

  /** A quotient and remainder in range are the ones `/` and `%` compute. */
  lemma ModUnique(x: int, n: int, q: int, r: int)
    requires n > 0 && 0 <= r < n && x == q * n + r
    ensures x % n == r && x / n == q
  {
    var q', r' := x / n, x % n;
    assert (q - q') * n == r' - r;
    if q > q' {
      MulAtLeast(q - q', n);
    } else if q < q' {
      MulAtLeast(q' - q, n);
    }
  }

  /** Inside a list of `n` items, Next is addition of one modulo `n`. */
  lemma NextIsModular(i: int, n: nat)
    requires 0 <= i < n
    ensures GoToNext(Index(i), n) == Index((i + 1) % n)
    ensures 0 <= (i + 1) % n < n
  {
    if i + 1 < n { ModUnique(i + 1, n, 0, i + 1); } else { ModUnique(i + 1, n, 1, 0); }
  }

  /** Inside a list of `n` items, Previous is subtraction of one modulo `n`. */
  lemma PreviousIsModular(i: int, n: nat)
    requires 0 <= i < n
    ensures GoToPrevious(Index(i), n) == Index((i - 1 + n) % n)
    ensures 0 <= (i - 1 + n) % n < n
  {
    if i > 0 { ModUnique(i - 1 + n, n, 1, i - 1); } else { ModUnique(i - 1 + n, n, 0, n - 1); }
  }

  /** JavaScript's remainder is odd in the dividend: negating it negates the result. */
  lemma JsRemOdd(a: int, b: int)
    requires b > 0
    ensures JsRem(-a, b) == -JsRem(a, b)
  {
  }

  /** hasNext holds exactly when the next step moves one forward rather than wrapping to the start. */
  lemma HasNextMeansNoWrap(i: int, n: nat)
    requires 0 <= i < n
    ensures HasNext(Index(i), n) <==> GoToNext(Index(i), n) == Index(i + 1)
  {
    if i == n - 1 {
      assert GoToNext(Index(i), n) == Index(0);
    }
  }

  /** hasPrevious holds exactly when the previous step moves one back rather than wrapping to the end. */
  lemma HasPreviousMeansNoWrap(i: int, n: nat)
    requires 0 <= i < n
    ensures HasPrevious(Index(i)) <==> GoToPrevious(Index(i), n) == Index(i - 1)
  {
    if i == 0 {
      assert GoToPrevious(Index(i), n) == Index(n - 1);
    }
  }

  /** Previous undoes Next. */
  lemma PreviousAfterNext(i: int, n: nat)
    requires 0 <= i < n
    ensures GoToPrevious(GoToNext(Index(i), n), n) == Index(i)
  {
  }

  /** Next undoes Previous. */
  lemma NextAfterPrevious(i: int, n: nat)
    requires 0 <= i < n
    ensures GoToNext(GoToPrevious(Index(i), n), n) == Index(i)
  {
  }

  /** `k` steps forward. */
  function NextN(c: JsIndex, n: nat, k: nat): JsIndex {
    if k == 0 then c else GoToNext(NextN(c, n, k - 1), n)
  }

  /** `k` steps forward from a valid index land `k` places further round the cycle. */
  lemma {:induction false} NextNIsAddition(i: int, n: nat, k: nat)
    requires 0 <= i < n
    ensures NextN(Index(i), n, k) == Index((i + k) % n)
  {
    if k > 0 {
      NextNIsAddition(i, n, k - 1);
      ModAddOne(i + k - 1, n);
      NextIsModular((i + k - 1) % n, n);
    }
  }

  lemma ModAddOne(a: int, n: int)
    requires a >= 0 && n > 0
    ensures 0 <= a % n < n
    ensures (a % n + 1) % n == (a + 1) % n
  {
    var q, r := a / n, a % n;
    if r + 1 < n {
      ModUnique(r + 1, n, 0, r + 1);
      ModUnique(a + 1, n, q, r + 1);
    } else {
      ModUnique(r + 1, n, 1, 0);
      ModUnique(a + 1, n, q + 1, 0);
    }
  }

  /** `n` steps forward in a list of `n` items come back to the start. */
  lemma FullCycle(i: int, n: nat)
    requires 0 <= i < n
    ensures NextN(Index(i), n, n) == Index(i)
  {
    NextNIsAddition(i, n, n);
    ModUnique(i + n, n, 1, i);
  }

  /** The cursor never leaves a non-empty list, whatever the sequence of steps. */
  lemma {:induction false} StepsStayInside<T>(l: NavigationList<T>, forward: seq<bool>)
    requires |l.items| > 0 && l.current.Index? && 0 <= l.current.i < |l.items|
    ensures var e := Steps(l, forward); e.current.Index? && 0 <= e.current.i < |l.items|
    ensures CurrentItem(l.items, Steps(l, forward).current).Some?
    decreases |forward|
  {
    if |forward| > 0 {
      StepsStayInside(Step(l, forward[0]), forward[1..]);
    }
  }

  /** One tap on the forward (true) or back (false) arrow. */
  function Step<T>(l: NavigationList<T>, forward: bool): NavigationList<T> {
    l.(current := if forward then GoToNext(l.current, |l.items|) else GoToPrevious(l.current, |l.items|))
  }

  /** A sequence of taps on the arrows. */
  function Steps<T>(l: NavigationList<T>, forward: seq<bool>): (r: NavigationList<T>)
    ensures r.items == l.items
    decreases |forward|
  {
    if |forward| == 0 then l else Steps(Step(l, forward[0]), forward[1..])
  }

  /** An empty list: the first step makes the index NaN, and it stays NaN. */
  lemma EmptyListLosesIndex(c: JsIndex)
    ensures GoToNext(c, 0).NaN? && GoToPrevious(c, 0).NaN?
    ensures !HasNext(GoToNext(c, 0), 0) && !HasPrevious(GoToNext(c, 0))
  {
  }
}
