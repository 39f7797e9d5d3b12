/** IPv6 source addresses: per-address statistics, the health filter and the rotation over healthy addresses. */
module Ipv6Pools {
  import opened Lists
  import opened Rotation

  type Address = string

  datatype Stats = Stats(total: nat, success: nat, failure: nat, e403: nat, e429: nat)

  const NO_STATS := Stats(0, 0, 0, 0, 0)

  datatype Outcome = Success | Failure | Error403 | Error429

  function Counted(s: Stats, o: Outcome): Stats {
    var t := s.(total := s.total + 1);
    match o
    case Success => t.(success := s.success + 1)
    case Failure => t.(failure := s.failure + 1)
    case Error403 => t.(e403 := s.e403 + 1)
    case Error429 => t.(e429 := s.e429 + 1)
  }

  /** Fewer than five 403s, and not over 30 percent failures once there are more than 20 requests. */
  predicate Healthy(s: Stats) {
    s.e403 < 5 && !(s.total > 20 && 10 * s.failure > 3 * s.total)
  }

  function StatsOf(stats: map<Address, Stats>, a: Address): Stats {
    if a in stats then stats[a] else NO_STATS
  }

  function HealthyOnes(xs: seq<Address>, stats: map<Address, Stats>): seq<Address> {
    if xs == [] then [] else
      var x := xs[|xs| - 1];
      HealthyOnes(xs[..|xs| - 1], stats) + if Healthy(StatsOf(stats, x)) then [x] else []
  }

  datatype State = State(addresses: seq<Address>, stats: map<Address, Stats>, index: nat)

  /** The ring a selection rotates over: the healthy addresses, or all of them when none is healthy. */
  function Ring(s: State): seq<Address> {
    var h := HealthyOnes(s.addresses, s.stats);
    if h == [] then s.addresses else h
  }

  datatype Event =
    | Next(out: Option<Address>)
    | Record(a: Address, o: Outcome)
    | Refresh(found: seq<Address>)

  /** Statistics may gain zero entries for listed addresses; nothing else about them changes. */
  ghost predicate SameStats(m: map<Address, Stats>, m': map<Address, Stats>) {
    forall a :: StatsOf(m, a) == StatsOf(m', a)
  }

  ghost predicate IsNext(s: State, t: State, out: Option<Address>) {
    && t.addresses == s.addresses && SameStats(s.stats, t.stats)
    && if s.addresses == [] then t.index == s.index && out == None
       else Ring(s) != [] && out == Some(Ring(s)[s.index % |Ring(s)|]) && t.index == (s.index + 1) % |Ring(s)|
  }

  /** Every address of xs once, in the order of first occurrence. */
  function FirstSeen(xs: seq<Address>): (r: seq<Address>)
    ensures NoDup(r) && Elements(r) == Elements(xs)
  {
    if xs == [] then ElementsEmpty(xs); [] else
      var n := |xs| - 1;
      var r := FirstSeen(xs[..n]);
      assert xs == xs[..n] + [xs[n]];
      ElementsSnoc(xs[..n], xs[n]);
      ElementsSnoc(r, xs[n]);
      if xs[n] in r then r else NoDupSnoc(r, xs[n]); r + [xs[n]]
  }

  lemma FirstSeenStep(xs: seq<Address>, i: nat)
    requires i < |xs|
    ensures var r := FirstSeen(xs[..i]);
      && FirstSeen(xs[..i + 1]) == (if xs[i] in Elements(r) then r else r + [xs[i]])
      && Elements(xs[..i + 1]) == Elements(xs[..i]) + {xs[i]}
      && Elements(FirstSeen(xs[..i + 1])) == Elements(r) + {xs[i]}
  {
    assert xs[..i + 1][..i] == xs[..i];
    assert xs[..i + 1] == xs[..i] + [xs[i]];
    ElementsSnoc(xs[..i], xs[i]);
    ElementsSnoc(FirstSeen(xs[..i]), xs[i]);
  }

  /** What the refresh loop has built from the first i addresses found. */
  ghost predicate RefreshedTo(found: seq<Address>, i: nat, before: map<Address, Stats>,
                              addresses: seq<Address>, stats: map<Address, Stats>)
    requires i <= |found|
  {
    && addresses == FirstSeen(found[..i])
    && stats.Keys == Elements(addresses)
    && (forall a :: a in stats ==> stats[a] == StatsOf(before, a))
  }

  lemma RefreshStart(found: seq<Address>, before: map<Address, Stats>)
    ensures RefreshedTo(found, 0, before, [], map[])
  {
    ElementsEmpty<Address>([]);
  }

  lemma RefreshStep(found: seq<Address>, i: nat, before: map<Address, Stats>,
                    addresses: seq<Address>, stats: map<Address, Stats>)
    requires i < |found| && RefreshedTo(found, i, before, addresses, stats)
    ensures var a := found[i];
      if a in stats then RefreshedTo(found, i + 1, before, addresses, stats)
      else RefreshedTo(found, i + 1, before, addresses + [a], stats[a := StatsOf(before, a)])
  {
    hide FirstSeen, Elements, NoDup;
    FirstSeenStep(found, i);
  }

  lemma RefreshEnd(found: seq<Address>, before: map<Address, Stats>, addresses: seq<Address>, stats: map<Address, Stats>)
    requires RefreshedTo(found, |found|, before, addresses, stats)
    ensures addresses == FirstSeen(found) && stats.Keys == Elements(found)
    ensures forall a :: a in stats ==> stats[a] == StatsOf(before, a)
  {
    assert found[..|found|] == found;
  }

  /** The found addresses, each once, keep the statistics they had; all others lose theirs. */
  ghost predicate IsRefresh(s: State, found: seq<Address>, t: State) {
    && t.addresses == FirstSeen(found)
    && t.stats.Keys == Elements(found)
    && (forall a :: a in t.stats ==> t.stats[a] == StatsOf(s.stats, a))
    && t.index == if s.index >= |t.addresses| then 0 else s.index
  }

  ghost predicate Step(s: State, e: Event, t: State) {
    match e
    case Next(out) => IsNext(s, t, out)
    case Record(a, o) => t == s.(stats := s.stats[a := Counted(StatsOf(s.stats, a), o)])
    case Refresh(found) => IsRefresh(s, found, t)
  }

  lemma {:induction false} HealthyExact(xs: seq<Address>, stats: map<Address, Stats>)
    ensures forall a :: a in HealthyOnes(xs, stats) <==> a in xs && Healthy(StatsOf(stats, a))
    ensures NoDup(xs) ==> NoDup(HealthyOnes(xs, stats))
  {
    if xs != [] {
      var ys, x := xs[..|xs| - 1], xs[|xs| - 1];
      assert xs == ys + [x];
      HealthyExact(ys, stats);
      if NoDup(xs) { assert x !in ys; }
    }
  }

  class Ipv6Pool {
    var addresses: seq<Address>
    var stats: map<Address, Stats>
    var currentIndex: nat

    ghost function Now(): State
      reads this
    {
      State(addresses, stats, currentIndex)
    }

    constructor ()
      ensures Now() == State([], map[], 0)
    {
      addresses, stats, currentIndex := [], map[], 0;
    }

    method Refresh(found: seq<Address>)
      modifies this
      ensures Step(old(Now()), Event.Refresh(found), Now())
    {
      var oldStats := stats;
      stats := map[];
      addresses := [];
      RefreshStart(found, oldStats);
      hide RefreshedTo;
      for i := 0 to |found|
        invariant RefreshedTo(found, i, oldStats, addresses, stats)
        invariant currentIndex == old(currentIndex)
      {
        var a := found[i];
        RefreshStep(found, i, oldStats, addresses, stats);
        if a !in stats {
          addresses := addresses + [a];
          stats := stats[a := if a in oldStats then oldStats[a] else NO_STATS];
        }
      }
      RefreshEnd(found, oldStats, addresses, stats);
      if currentIndex >= |addresses| { currentIndex := 0; }
    }

    /** Filters in list order, then takes the next of the healthy addresses, or of all when none is healthy. */
    method GetHealthyNext() returns (out: Option<Address>)
      modifies this`stats, this`currentIndex
      ensures Step(old(Now()), Event.Next(out), Now())
    {
      if |addresses| == 0 { return None; }
      ghost var was := stats;
      var healthy: seq<Address> := [];
      for i := 0 to |addresses|
        invariant SameStats(was, stats)
        invariant healthy == HealthyOnes(addresses[..i], was)
        invariant currentIndex == old(currentIndex)
      {
        var a := addresses[i];
        assert addresses[..i + 1][..i] == addresses[..i];
        if a !in stats { stats := stats[a := NO_STATS]; }
        assert StatsOf(stats, a) == StatsOf(was, a);
        if stats[a].e403 < 5 && !(stats[a].total > 20 && 10 * stats[a].failure > 3 * stats[a].total) {
          healthy := healthy + [a];
        }
      }
      assert addresses[..|addresses|] == addresses;
      if |healthy| == 0 { healthy := addresses; }
      out := Some(healthy[currentIndex % |healthy|]);
      currentIndex := (currentIndex + 1) % |healthy|;
    }

    /** RecordSuccess, RecordFailure, RecordError403 and RecordError429; a nil address is ignored. */
    method Record(a: Option<Address>, o: Outcome)
      modifies this`stats
      ensures if a.Some? then Step(old(Now()), Event.Record(a.value, o), Now()) else Now() == old(Now())
    {
      if a.None? { return; }
      var s := if a.value in stats then stats[a.value] else NO_STATS;
      s := s.(total := s.total + 1);
      match o {
        case Success => s := s.(success := s.success + 1);
        case Failure => s := s.(failure := s.failure + 1);
        case Error403 => s := s.(e403 := s.e403 + 1);
        case Error429 => s := s.(e429 := s.e429 + 1);
      }
      stats := stats[a.value := s];
    }

    /** The size of the list GetHealthyNext filters. */
    method GetHealthyCount() returns (count: nat)
      ensures count == |HealthyOnes(addresses, stats)|
    {
      count := 0;
      for i := 0 to |addresses|
        invariant count == |HealthyOnes(addresses[..i], stats)|
      {
        var a := addresses[i];
        assert addresses[..i + 1][..i] == addresses[..i];
        if a !in stats {
          count := count + 1;
        } else if stats[a].e403 >= 5 {
        } else if stats[a].total > 20 && 10 * stats[a].failure > 3 * stats[a].total {
        } else {
          count := count + 1;
        }
      }
      assert addresses[..|addresses|] == addresses;
    }
  }

  // ---------------------------------------------------------------- runs

  ghost predicate Run(s: seq<State>, es: seq<Event>) {
    && |s| == |es| + 1
    && (forall i :: 0 <= i < |es| ==> Step(s[i], es[i], s[i + 1]))
  }

  ghost predicate Balanced(s: State) {
    && (forall a :: var t := StatsOf(s.stats, a); t.total == t.success + t.failure + t.e403 + t.e429)
    && NoDup(s.addresses)
  }

  /** In every run from an empty pool each entry's total is the sum of its four counters, and addresses are distinct. */
  lemma {:induction false} TotalsBalance(s: seq<State>, es: seq<Event>, i: nat)
    requires Run(s, es) && Balanced(s[0]) && i <= |es|
    ensures Balanced(s[i])
  {
    if i > 0 {
      TotalsBalance(s, es, i - 1);
      StepBalances(s[i - 1], es[i - 1], s[i]);
    }
  }

  lemma StepBalances(s: State, e: Event, t: State)
    requires Step(s, e, t) && Balanced(s)
    ensures Balanced(t)
  {
    hide Ring, FirstSeen;
    forall a ensures var x := StatsOf(t.stats, a); x.total == x.success + x.failure + x.e403 + x.e429 {
      var y := StatsOf(s.stats, a);
      assert y.total == y.success + y.failure + y.e403 + y.e429;
    }
  }

  /** What the selections of a run returned, in order. */
  function Outs(es: seq<Event>): seq<Address> {
    if es == [] then [] else
      var e := es[|es| - 1];
      Outs(es[..|es| - 1]) + if e.Next? && e.out.Some? then [e.out.value] else []
  }

  ghost predicate Turning(ring: seq<Address>, start: nat, outs: seq<Address>, index: nat)
    requires ring != []
  {
    outs == Cycle(ring, start, |outs|) && index % |ring| == (start + |outs|) % |ring|
  }

  lemma TurnOn(ring: seq<Address>, start: nat, outs: seq<Address>, index: nat)
    requires ring != [] && Turning(ring, start, outs, index)
    ensures Turning(ring, start, outs + [ring[index % |ring|]], (index + 1) % |ring|)
  {
    var n := |ring|;
    assert At(ring, start + |outs|) == ring[index % n];
    ModShift(index, 1, n);
    ModShift(start + |outs|, 1, n);
    ModShift(index + 1, 0, n);
  }

  /** The index is inside the ring, as every selection leaves it and a new pool has it, or no refresh will look at it. */
  ghost predicate IndexStays(s: seq<State>, es: seq<Event>, ring: seq<Address>)
    requires |s| > 0
  {
    s[0].index < |ring| || (forall j :: 0 <= j < |es| ==> !es[j].Refresh?)
  }

  /** While the ring stays the same, refreshes or not, selections walk around it without skipping or repeating. */
  lemma {:induction false} SelectionsWalk(s: seq<State>, es: seq<Event>, ring: seq<Address>, i: nat)
    requires Run(s, es) && i <= |es| && ring != []
    requires forall j :: 0 <= j < |s| ==> Ring(s[j]) == ring
    requires IndexStays(s, es, ring)
    ensures Turning(ring, s[0].index, Outs(es[..i]), s[i].index)
    ensures s[0].index < |ring| ==> s[i].index < |ring|
  {
    hide Ring, Step, At;
    if i == 0 {
      assert Outs(es[..0]) == Cycle(ring, s[0].index, 0);
    } else {
      hide Cycle, Turning;
      SelectionsWalk(s, es, ring, i - 1);
      assert es[..i][..i - 1] == es[..i - 1];
      StepTurns(s[i - 1], es[i - 1], s[i]);
      if es[i - 1].Next? {
        TurnOn(ring, s[0].index, Outs(es[..i - 1]), s[i - 1].index);
      } else {
        assert Outs(es[..i]) == Outs(es[..i - 1]);
      }
    }
  }

  /** A refresh that leaves the ring as it was cannot move an index inside it: the addresses are at least as many. */
  lemma StepTurns(s: State, e: Event, t: State)
    requires Step(s, e, t) && Ring(s) != [] && Ring(t) == Ring(s)
    requires e.Refresh? ==> s.index < |Ring(s)|
    ensures if e.Next?
      then e.out == Some(Ring(s)[s.index % |Ring(s)|]) && t.index == (s.index + 1) % |Ring(s)| < |Ring(s)|
      else t.index == s.index
  {
    HealthyFewer(t.addresses, t.stats);
  }

  lemma {:induction false} HealthyFewer(xs: seq<Address>, stats: map<Address, Stats>)
    ensures |HealthyOnes(xs, stats)| <= |xs|
  {
    if xs != [] { HealthyFewer(xs[..|xs| - 1], stats); }
  }

  /** With health fixed, k selections visit each of m addresses of the ring floor(k/m) or ceil(k/m) times. */
  lemma HealthyShareAlike(s: seq<State>, es: seq<Event>, ring: seq<Address>, a: Address)
    requires Run(s, es) && Balanced(s[0]) && a in ring
    requires forall j :: 0 <= j < |s| ==> Ring(s[j]) == ring
    requires IndexStays(s, es, ring)
    ensures FairlyShared(ring, Outs(es), a)
  {
    HealthyExact(s[0].addresses, s[0].stats);
    assert Ring(s[0]) == ring;
    SelectionsWalk(s, es, ring, |es|);
    assert es[..|es|] == es;
    FairShare(ring, s[0].index, |Outs(es)|, a);
  }

  /** Between i and j every refresh still finds a. */
  ghost predicate KeptBetween(es: seq<Event>, a: Address, i: nat, j: nat)
    requires i <= j <= |es|
  {
    forall k :: i <= k < j && es[k].Refresh? ==> a in es[k].found
  }

  lemma {:induction false} BansNeverFade(s: seq<State>, es: seq<Event>, a: Address, i: nat, j: nat)
    requires Run(s, es) && i <= j <= |es| && KeptBetween(es, a, i, j)
    ensures StatsOf(s[i].stats, a).e403 <= StatsOf(s[j].stats, a).e403
    decreases j
  {
    if i < j {
      BansNeverFade(s, es, a, i, j - 1);
      assert Step(s[j - 1], es[j - 1], s[j]);
      if es[j - 1].Refresh? { assert a in Elements(es[j - 1].found); }
    }
  }

  /** Some refresh from i up to j did not find a. */
  predicate Dropped(es: seq<Event>, a: Address, i: nat, j: nat)
    requires i <= j <= |es|
  {
    j > i && (Dropped(es, a, i, j - 1) || (es[j - 1].Refresh? && a !in es[j - 1].found))
  }

  /** How often outcome o was recorded for a from i up to j, not counting before the last refresh that did not find it. */
  function CountSince(es: seq<Event>, a: Address, o: Outcome, i: nat, j: nat): nat
    requires i <= j <= |es|
  {
    if j == i then 0 else
      var n, e := CountSince(es, a, o, i, j - 1), es[j - 1];
      if e.Refresh? && a !in e.found then 0 else if e == Record(a, o) then n + 1 else n
  }

  function RecordedSince(es: seq<Event>, a: Address, i: nat, j: nat): nat
    requires i <= j <= |es|
  {
    CountSince(es, a, Success, i, j) + CountSince(es, a, Failure, i, j) +
    CountSince(es, a, Error403, i, j) + CountSince(es, a, Error429, i, j)
  }

  lemma StepCounts(s: State, e: Event, t: State, a: Address)
    requires Step(s, e, t)
    ensures var x, y := StatsOf(s.stats, a), StatsOf(t.stats, a);
      if e.Refresh? && a !in e.found then y == NO_STATS
      else if e.Record? && e.a == a then
        && y.total == x.total + 1
        && y.success == x.success + (if e.o == Success then 1 else 0)
        && y.failure == x.failure + (if e.o == Failure then 1 else 0)
        && y.e403 == x.e403 + (if e.o == Error403 then 1 else 0)
        && y.e429 == x.e429 + (if e.o == Error429 then 1 else 0)
      else y == x
  {
    hide Ring, HealthyOnes, FirstSeen;
    if e.Refresh? { assert a in e.found <==> a in Elements(e.found); }
  }

  /** Every counter of an address is what was recorded for it, since it was last not found or else on top of what it was. */
  lemma {:induction false} StatsByHistory(s: seq<State>, es: seq<Event>, a: Address, i: nat, j: nat)
    requires Run(s, es) && i <= j <= |es|
    ensures var base, now := if Dropped(es, a, i, j) then NO_STATS else StatsOf(s[i].stats, a), StatsOf(s[j].stats, a);
      && now.total == base.total + RecordedSince(es, a, i, j)
      && now.success == base.success + CountSince(es, a, Success, i, j)
      && now.failure == base.failure + CountSince(es, a, Failure, i, j)
      && now.e403 == base.e403 + CountSince(es, a, Error403, i, j)
      && now.e429 == base.e429 + CountSince(es, a, Error429, i, j)
    decreases j
  {
    hide Step;
    if i < j {
      assert |s| == |es| + 1 && Step(s[j - 1], es[j - 1], s[j]);
      hide Run, StatsOf;
      StatsByHistory(s, es, a, i, j - 1);
      StepCounts(s[j - 1], es[j - 1], s[j], a);
    }
  }

  /**
   * From a new pool: an address is healthy exactly if fewer than five 403s were recorded for it, and, if more than
   * twenty outcomes were, at most three in ten of them are failures, all since it was last not found.
   */
  lemma HealthyByHistory(s: seq<State>, es: seq<Event>, a: Address, j: nat)
    requires Run(s, es) && s[0].stats == map[] && j <= |es|
    ensures Healthy(StatsOf(s[j].stats, a)) <==>
      && CountSince(es, a, Error403, 0, j) <= 4
      && (RecordedSince(es, a, 0, j) >= 21 ==> 10 * CountSince(es, a, Failure, 0, j) <= 3 * RecordedSince(es, a, 0, j))
  {
    hide Run;
    StatsByHistory(s, es, a, 0, j);
    hide RecordedSince, CountSince;
  }

  /** What the latest refresh before j found, or what was listed at the start. */
  function FoundLast(start: seq<Address>, es: seq<Event>, j: nat): seq<Address>
    requires j <= |es|
  {
    if j == 0 then start else if es[j - 1].Refresh? then es[j - 1].found else FoundLast(start, es, j - 1)
  }

  lemma {:induction false} ListedByHistory(s: seq<State>, es: seq<Event>, j: nat)
    requires Run(s, es) && j <= |es|
    ensures Elements(s[j].addresses) == Elements(FoundLast(s[0].addresses, es, j))
    decreases j
  {
    if j > 0 {
      assert |s| == |es| + 1 && Step(s[j - 1], es[j - 1], s[j]);
      hide Run, Step, Elements;
      ListedByHistory(s, es, j - 1);
      StepLists(s[j - 1], es[j - 1], s[j]);
      assert FoundLast(s[0].addresses, es, j) ==
        if es[j - 1].Refresh? then es[j - 1].found else FoundLast(s[0].addresses, es, j - 1);
      hide FoundLast;
    }
  }

  lemma StepLists(s: State, e: Event, t: State)
    requires Step(s, e, t)
    ensures Elements(t.addresses) == Elements(if e.Refresh? then e.found else s.addresses)
  {
    hide Ring, HealthyOnes, FirstSeen, SameStats, Elements;
  }

  /** The ring holds the healthy listed addresses, or all listed ones if none of them is healthy. */
  lemma RingExactly(s: State, a: Address)
    ensures a in Ring(s) <==>
      && a in s.addresses
      && (Healthy(StatsOf(s.stats, a)) || forall b :: b in s.addresses ==> !Healthy(StatsOf(s.stats, b)))
    ensures (forall b :: b in s.addresses ==> !Healthy(StatsOf(s.stats, b))) ==> Ring(s) == s.addresses
  {
    HealthyExact(s.addresses, s.stats);
    var h := HealthyOnes(s.addresses, s.stats);
    hide HealthyOnes;
    if h != [] { assert h[0] in h; }
  }

  /** Two healthy addresses are in the filtered list in the order they are listed in. */
  lemma {:induction false} HealthyInOrder(xs: seq<Address>, stats: map<Address, Stats>, i: nat, j: nat) returns (p: nat, q: nat)
    requires i < j < |HealthyOnes(xs, stats)|
    ensures p < q < |xs| && HealthyOnes(xs, stats)[i] == xs[p] && HealthyOnes(xs, stats)[j] == xs[q]
  {
    var n := |xs| - 1;
    var front := HealthyOnes(xs[..n], stats);
    if j < |front| {
      p, q := HealthyInOrder(xs[..n], stats, i, j);
    } else {
      q := n;
      HealthyExact(xs[..n], stats);
      assert front[i] in front;
      p :| 0 <= p < n && xs[..n][p] == front[i];
    }
  }

  /** The positions in xs, in order, of the entries a refresh lists: the first place of each address. */
  lemma {:induction false} FirstSeenInOrder(xs: seq<Address>) returns (at: seq<nat>)
    ensures |at| == |FirstSeen(xs)|
    ensures forall p :: 0 <= p < |at| ==> at[p] < |xs| && FirstSeen(xs)[p] == xs[at[p]] && xs[at[p]] !in xs[..at[p]]
    ensures forall p, q :: 0 <= p < q < |at| ==> at[p] < at[q]
  {
    at := [];
    if xs != [] {
      var n := |xs| - 1;
      at := FirstSeenInOrder(xs[..n]);
      FirstSeenStep(xs, n);
      assert xs[..n + 1] == xs;
      var r := FirstSeen(xs[..n]);
      assert Elements(r) == Elements(xs[..n]);
      assert forall p :: 0 <= p < |at| ==> xs[..n][..at[p]] == xs[..at[p]];
      hide FirstSeen, NoDup;
      if xs[n] !in Elements(r) {
        assert xs[n] !in xs[..n];
        at := at + [n];
      }
    }
  }

  /** A selection answers exactly if some address is listed: with a listed one, and with a healthy one if there is any. */
  lemma SelectsExactly(s: State, t: State, out: Option<Address>)
    requires IsNext(s, t, out)
    ensures out.Some? <==> s.addresses != []
    ensures out.Some? ==> out.value in s.addresses
    ensures out.Some? && (exists a :: a in s.addresses && Healthy(StatsOf(s.stats, a))) ==> Healthy(StatsOf(s.stats, out.value))
  {
    HealthyExact(s.addresses, s.stats);
    var h := HealthyOnes(s.addresses, s.stats);
    hide HealthyOnes;
    if s.addresses != [] {
      assert out.value in Ring(s);
      if exists a :: a in s.addresses && Healthy(StatsOf(s.stats, a)) {
        var a :| a in s.addresses && Healthy(StatsOf(s.stats, a));
        assert a in h;
        assert out.value in h;
      }
    }
  }

  /** After five recorded 403s an address is not selected again while a healthy one exists, until a refresh drops it. */
  lemma BannedIsSkipped(s: seq<State>, es: seq<Event>, a: Address, i: nat, j: nat)
    requires Run(s, es) && i <= j < |es| && KeptBetween(es, a, i, j)
    requires StatsOf(s[i].stats, a).e403 + CountSince(es, a, Error403, i, j) >= 5
    requires es[j].Next? && HealthyOnes(s[j].addresses, s[j].stats) != []
    ensures es[j].out.Some? && es[j].out != Some(a)
  {
    StatsByHistory(s, es, a, i, j);
    NotDropped(es, a, i, j);
    HealthyExact(s[j].addresses, s[j].stats);
    assert Step(s[j], es[j], s[j + 1]);
    var h := HealthyOnes(s[j].addresses, s[j].stats);
    hide CountSince, RecordedSince, HealthyOnes;
    assert a !in h;
    assert h[s[j].index % |h|] in h;
  }

  lemma {:induction false} NotDropped(es: seq<Event>, a: Address, i: nat, j: nat)
    requires i <= j <= |es| && KeptBetween(es, a, i, j)
    ensures !Dropped(es, a, i, j)
  {
    if i < j { NotDropped(es, a, i, j - 1); }
  }
}
