/** Strict round-robin over a fixed list: who is visited, and how often. */
module Rotation {
  import opened Lists

  /** The entry at ring position p. */
  function At<T>(a: seq<T>, p: nat): T
    requires |a| > 0
  {
    a[p % |a|]
  }

  /** The k entries that follow position `start` when `a` is read as a ring. */
  function Cycle<T>(a: seq<T>, start: nat, k: nat): (r: seq<T>)
    requires |a| > 0
    ensures |r| == k
  {
    seq(k, i requires 0 <= i < k => At(a, start + i))
  }

  lemma ModShift(s: nat, j: nat, n: nat)
    requires n > 0
    ensures (s % n + j) % n == (s + j) % n
  {
    var q := s / n;
    assert s == q * n + s % n;
    ModAddMultiple(s % n + j, q, n);
  }

  lemma {:induction false} ModAddMultiple(r: nat, q: nat, n: nat)
    requires n > 0
    ensures (q * n + r) % n == r % n
    decreases q
  {
    if q > 0 {
      ModAddMultiple(r, q - 1, n);
      assert q * n + r == (q - 1) * n + r + n;
      ModAddOne((q - 1) * n + r, n);
    }
  }

  lemma ModAddOne(x: nat, n: nat)
    requires n > 0
    ensures (x + n) % n == x % n
  {
    assert x + n == (x / n + 1) * n + x % n by {
      assert x == (x / n) * n + x % n;
    }
    DivModUnique(x + n, x / n + 1, x % n, n);
  }

  lemma UniqueQuotient(q: int, r: int, q': int, r': int, n: int)
    requires 0 <= r < n && 0 <= r' < n
    requires q * n + r == q' * n + r'
    ensures q == q' && r == r'
  {
    assert (q - q') * n == r' - r;
    if q > q' {
      MulAtLeast(q - q', n);
    } else if q < q' {
      MulAtLeast(q' - q, n);
    }
  }

  lemma {:induction false} MulAtLeast(k: nat, n: nat)
    requires k >= 1
    ensures k * n >= n
  {
    if k > 1 {
      MulAtLeast(k - 1, n);
      assert k * n == (k - 1) * n + n;
    }
  }

  lemma DivModUnique(x: nat, q: nat, r: nat, n: nat)
    requires n > 0 && x == q * n + r && r < n
    ensures x / n == q && x % n == r
  {
    UniqueQuotient(q, r, x / n, x % n, n);
  }

  /** n consecutive ring positions never repeat. */
  lemma ModDistinct(s: nat, i: nat, j: nat, n: nat)
    requires i < j < n + i
    ensures (s + i) % n != (s + j) % n
  {
    if (s + i) % n == (s + j) % n {
      var q := (s + i) / n;
      assert s + j == q * n + ((s + i) % n + (j - i));
      var r := (s + i) % n;
      var q' := (s + j) / n;
      assert q' * n + r == q * n + r + (j - i);
      assert (q' - q) * n == j - i;
      if q' > q { MulAtLeast(q' - q, n); }
    }
  }

  lemma AtShift<T>(a: seq<T>, s: nat, i: nat, t: nat)
    requires |a| > 0 && t == s % |a|
    ensures At(a, t + i) == At(a, s + i)
  {
    ModShift(s, i, |a|);
  }

  /** Reading j entries and then k more from where the first read stopped is reading j + k. */
  lemma CycleSplit<T>(a: seq<T>, s: nat, j: nat, k: nat, t: nat)
    requires |a| > 0
    requires t == (s + j) % |a|
    ensures Cycle(a, s, j + k) == Cycle(a, s, j) + Cycle(a, t, k)
  {
    var tail := Cycle(a, t, k);
    forall i | 0 <= i < |tail|
      ensures tail[i] == Cycle(a, s, j + k)[j + i]
    {
      AtShift(a, s + j, i, t);
    }
  }

  lemma CycleSlice<T>(a: seq<T>, s: nat, k: nat, i: nat, j: nat)
    requires |a| > 0 && i <= j <= k
    ensures Cycle(a, s, k)[i..j] == Cycle(a, s + i, j - i)
  {
  }

  /** One full turn visits exactly what the ring holds, as often as the ring holds it. */
  lemma TurnIsRing<T>(a: seq<T>, s: nat)
    requires |a| > 0
    ensures multiset(Cycle(a, s, |a|)) == multiset(a)
  {
    var t := s % |a|;
    var c := Cycle(a, s, |a|);
    forall i | 0 <= i < |a| ensures c[i] == (a[t..] + a[..t])[i] {
      AtShift(a, s, i, t);
      WrapOnce(t, i, |a|);
    }
    assert c == a[t..] + a[..t];
    assert a == a[..t] + a[t..];
  }

  lemma WrapOnce(t: nat, i: nat, n: nat)
    requires t < n && i < n
    ensures (t + i) % n == if t + i < n then t + i else t + i - n
  {
    if t + i < n {
      DivModUnique(t + i, 0, t + i, n);
    } else {
      DivModUnique(t + i, 1, t + i - n, n);
    }
  }

  lemma FullTurn<T>(a: seq<T>, s: nat, x: T)
    requires |a| > 0
    ensures multiset(Cycle(a, s, |a|))[x] == multiset(a)[x]
  {
    TurnIsRing(a, s);
  }

  lemma PartOfTurn<T>(a: seq<T>, s: nat, k: nat, x: T)
    requires k <= |a| && |a| > 0
    ensures multiset(Cycle(a, s, k))[x] <= multiset(a)[x]
  {
    FullTurn(a, s, x);
    CycleSplit(a, s, k, |a| - k, (s + k) % |a|);
  }

  /** x occurs in `all` floor(k/n) or ceil(k/n) times for each of its places in a, where k == |all| and n == |a|. */
  ghost predicate SharedByPlaces<T>(a: seq<T>, all: seq<T>, x: T)
    requires |a| > 0
  {
    multiset(a)[x] * (|all| / |a|) <= multiset(all)[x] <= multiset(a)[x] * ((|all| + |a| - 1) / |a|)
  }

  /** x occurs in `all` floor(k/n) or ceil(k/n) times. */
  ghost predicate FairlyShared<T>(a: seq<T>, all: seq<T>, x: T)
    requires |a| > 0
  {
    |all| / |a| <= multiset(all)[x] <= (|all| + |a| - 1) / |a|
  }

  /** Any k consecutive entries contain each entry floor(k/n) or ceil(k/n) times for each place it has in the ring. */
  lemma {:induction false} PlacesShare<T>(a: seq<T>, s: nat, k: nat, x: T)
    requires |a| > 0
    ensures SharedByPlaces(a, Cycle(a, s, k), x)
    decreases k
  {
    if k < |a| {
      PartOfTurn(a, s, k, x);
      ShareOfPart(a, Cycle(a, s, k), x);
    } else {
      var n := |a|;
      CycleSplit(a, s, n, k - n, (s + n) % n);
      FullTurn(a, s, x);
      PlacesShare(a, (s + n) % n, k - n, x);
      ShareOfTurnMore(a, Cycle(a, s, n), Cycle(a, (s + n) % n, k - n), x);
    }
  }

  lemma ShareOfPart<T>(a: seq<T>, part: seq<T>, x: T)
    requires |part| < |a| && multiset(part)[x] <= multiset(a)[x]
    ensures SharedByPlaces(a, part, x)
  {
    var n, k, m := |a|, |part|, multiset(a)[x];
    DivModUnique(k, 0, k, n);
    if k > 0 {
      DivModUnique(k + n - 1, 1, k - 1, n);
    }
    hide SharedByPlaces;
    assert k / n == 0 && (k == 0 ==> part == []);
    UpperLower(m, k / n, (k + n - 1) / n, multiset(part)[x]);
    assert SharedByPlaces(a, part, x) by { SharedIs(a, part, x); }
  }

  lemma SharedIs<T>(a: seq<T>, all: seq<T>, x: T)
    requires |a| > 0
    ensures SharedByPlaces(a, all, x) <==>
      multiset(a)[x] * (|all| / |a|) <= multiset(all)[x] <= multiset(a)[x] * ((|all| + |a| - 1) / |a|)
  {
  }

  lemma UpperLower(m: nat, lo: nat, hi: nat, c: nat)
    requires lo == 0 && (c == 0 || (hi == 1 && c <= m))
    ensures m * lo <= c <= m * hi
  {
    assert m * 0 == 0 && m * 1 == m;
  }

  lemma ShareOfTurnMore<T>(a: seq<T>, turn: seq<T>, more: seq<T>, x: T)
    requires |turn| == |a| > 0 && multiset(turn)[x] == multiset(a)[x] && SharedByPlaces(a, more, x)
    ensures SharedByPlaces(a, turn + more, x)
  {
    var n, m, k := |a|, multiset(a)[x], |more|;
    SharedIs(a, more, x);
    SharedIs(a, turn + more, x);
    hide SharedByPlaces;
    DivStep(k, n);
    DivStep(k + n - 1, n);
    OneMore(m, k / n);
    OneMore(m, (k + n - 1) / n);
    assert |turn + more| == k + n && multiset(turn + more)[x] == m + multiset(more)[x];
  }

  lemma OneMore(m: nat, q: nat)
    ensures m * (q + 1) == m * q + m
  {
  }

  /** Fairness: any k consecutive entries contain each of the n list entries floor(k/n) or ceil(k/n) times. */
  lemma FairShare<T>(a: seq<T>, s: nat, k: nat, x: T)
    requires NoDup(a) && x in a
    ensures FairlyShared(a, Cycle(a, s, k), x)
  {
    MultisetNoDup(a, x);
    PlacesShare(a, s, k, x);
  }

  lemma DivStep(x: nat, n: nat)
    requires n > 0
    ensures (x + n) / n == x / n + 1
  {
    assert x == (x / n) * n + x % n;
    DivModUnique(x + n, x / n + 1, x % n, n);
  }
}
