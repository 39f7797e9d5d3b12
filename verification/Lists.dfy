/** Finite sequences used as ordered, duplicate-free lists. */
module Lists {

  datatype Option<+T> = None | Some(value: T)

  function Elements<T>(s: seq<T>): set<T> {
    set x | x in s
  }

  ghost predicate NoDup<T>(s: seq<T>) {
    forall i, j :: 0 <= i < j < |s| ==> s[i] != s[j]
  }

  lemma ElementsConcat<T>(s: seq<T>, t: seq<T>)
    ensures Elements(s + t) == Elements(s) + Elements(t)
  {
  }

  lemma ElementsSnoc<T>(s: seq<T>, x: T)
    ensures Elements(s + [x]) == Elements(s) + {x}
  {
  }

  lemma NoDupSnoc<T>(s: seq<T>, x: T)
    requires NoDup(s) && x !in Elements(s)
    ensures NoDup(s + [x])
  {
    assert forall i :: 0 <= i < |s| ==> s[i] in Elements(s);
  }

  /** One round of appending the members of xs to start, with `rest` still to come. */
  lemma GrowByMember<T>(start: seq<T>, grown: seq<T>, xs: set<T>, rest: set<T>, x: T)
    requires xs !! Elements(start) && rest <= xs && x in rest
    requires start <= grown && NoDup(grown) && Elements(grown) == Elements(start) + (xs - rest)
    ensures NoDup(grown + [x]) && start <= grown + [x]
    ensures Elements(grown + [x]) == Elements(start) + (xs - (rest - {x}))
  {
    ElementsSnoc(grown, x);
    NoDupSnoc(grown, x);
  }

  lemma ElementsEmpty<T>(s: seq<T>)
    ensures Elements(s) == {} <==> s == []
  {
    if s != [] { assert s[0] in Elements(s); }
  }

  /** A duplicate-free list has exactly as many distinct elements as entries. */
  lemma {:induction false} ElementsSize<T>(s: seq<T>)
    requires NoDup(s)
    ensures |Elements(s)| == |s|
  {
    if s == [] {
      assert Elements(s) == {};
    } else {
      var t := s[..|s| - 1];
      assert s == t + [s[|s| - 1]];
      assert Elements(s) == Elements(t) + {s[|s| - 1]};
      ElementsSize(t);
    }
  }

  lemma SubsetSize<T>(a: set<T>, b: set<T>)
    requires a <= b
    ensures |a| <= |b|
    ensures |a| == |b| ==> a == b
  {
    assert b == a + (b - a);
    assert a !! (b - a);
    assert |b| == |a| + |b - a|;
  }

  /** Lists a set in map-iteration order: any order at all. */
  method ListInAnyOrder<T(==)>(xs: set<T>) returns (list: seq<T>)
    ensures NoDup(list) && Elements(list) == xs
  {
    list := [];
    var rest := xs;
    ElementsEmpty(list);
    while rest != {}
      invariant rest <= xs
      invariant NoDup(list) && Elements(list) == xs - rest
      decreases |rest|
    {
      var x :| x in rest;
      GrowByMember([], list, xs, rest, x);
      list := list + [x];
      rest := rest - {x};
    }
  }

  /** Some duplicate-free listing of a finite set. */
  ghost function Listing<T>(xs: set<T>): (s: seq<T>)
    ensures NoDup(s) && Elements(s) == xs
    ensures |s| == |xs|
  {
    if xs == {} then [] else
      var x :| x in xs;
      var rest := Listing(xs - {x});
      ElementsSnoc(rest, x);
      NoDupSnoc(rest, x);
      rest + [x]
  }

  lemma {:induction false} MultisetNoDup<T>(s: seq<T>, x: T)
    requires NoDup(s)
    ensures multiset(s)[x] == if x in s then 1 else 0
  {
    if s != [] {
      var t := s[..|s| - 1];
      assert s == t + [s[|s| - 1]];
      MultisetNoDup(t, x);
    }
  }

  lemma TwiceInMultiset<T>(t: seq<T>, i: nat, j: nat)
    requires i < j < |t|
    ensures t[i] == t[j] ==> multiset(t)[t[i]] >= 2
  {
    assert t == t[..j] + [t[j]] + t[j + 1..];
    assert t[..j] == t[..i] + [t[i]] + t[i + 1..j];
    assert multiset(t) == multiset(t[..i]) + multiset([t[i]]) + multiset(t[i + 1..j]) + multiset([t[j]]) + multiset(t[j + 1..]);
  }

  /** A list repeats nothing exactly when everything occurs in it at most once. */
  lemma NoDupByCount<T>(s: seq<T>)
    ensures NoDup(s) <==> forall x :: multiset(s)[x] <= 1
  {
    if NoDup(s) {
      forall x ensures multiset(s)[x] <= 1 { MultisetNoDup(s, x); }
    }
    forall i, j | 0 <= i < j < |s| ensures s[i] == s[j] ==> multiset(s)[s[i]] >= 2 {
      TwiceInMultiset(s, i, j);
    }
  }
}
